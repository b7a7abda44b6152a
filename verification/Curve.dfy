/** The group law of y^2 = x^3 + 7 modulo a prime (section 2.2.1 of SEC 1), stated on numbers,
    and the proof that it stays on the curve. */
module Curve {
  import opened ModMath

  /** A point: the point at infinity, or two coordinates. */
  datatype Point = O | XY(x: int, y: int)

  ghost predicate OnCurveAt(x: int, y: int, p: int)
    requires p > 0
  {
    Cong(y * y, x * x * x + 7, p)
  }

  /** A point of the curve with reduced coordinates. */
  ghost predicate OnCurve(a: Point, p: int)
    requires p > 0
  {
    a.XY? ==> 0 <= a.x < p && 0 <= a.y < p && OnCurveAt(a.x, a.y, p)
  }

  /** The quotient num / den modulo p. */
  ghost function Slope(num: int, den: int, p: int): (l: int)
    requires Prime(p) && den % p != 0
    ensures 0 <= l < p && Cong(l * den, num, p)
  {
    SlopeExists(num, den, p);
    var l :| 0 <= l < p && Cong(l * den, num, p);
    l
  }

  lemma InverseExists(den: int, p: int) returns (v: int)
    requires Prime(p) && den % p != 0
    ensures Cong(v * den, 1, p)
  {
    var d := den % p;
    CongReduce(den, p);
    v := UnitInverse(d, p);
    ReplaceFactor(v, d, den, p);
  }

  lemma UnitInverse(d: nat, p: int) returns (v: int)
    requires Prime(p) && 0 < d < p
    ensures Cong(v * d, 1, p)
  {
    DivModUnique(d, p, 0, d);
    Fermat(p, d);
    v := Pow(d, p - 2);
    PowTop(d, p - 2);
  }

  lemma PowTop(d: int, e: nat)
    ensures Pow(d, e + 1) == Pow(d, e) * d
  {
  }

  lemma ReplaceFactor(v: int, d: int, den: int, p: int)
    requires p > 0 && Cong(v * d, 1, p) && Cong(d, den, p)
    ensures Cong(v * den, 1, p)
  {
    CongRefl(v, p);
    CongSym(d, den, p);
    CongMul(v, v, den, d, p);
    CongTrans(v * den, v * d, 1, p);
  }

  lemma SlopeExists(num: int, den: int, p: int)
    requires Prime(p) && den % p != 0
    ensures exists l :: 0 <= l < p && Cong(l * den, num, p)
  {
    var v := InverseExists(den, p);
    var l := (num * v) % p;
    CongReduce(num * v, p);
    CongRefl(den, p);
    CongRefl(num, p);
    CongMul(l, num * v, den, den, p);
    CongMul(num, num, v * den, 1, p);
    assert (num * v) * den == num * (v * den);
    CongTrans(l * den, num * v * den, num * 1, p);
  }

  /** There is only one quotient. */
  lemma SlopeUnique(l: int, num: int, den: int, p: int)
    requires Prime(p) && den % p != 0 && 0 <= l < p && Cong(l * den, num, p)
    ensures l == Slope(num, den, p)
  {
    var s := Slope(num, den, p);
    CongSym(s * den, num, p);
    CongTrans(l * den, num, s * den, p);
    assert l * den == den * l && s * den == den * s;
    CancelFactor(p, den, l, s);
    CongReduced(l, s, p);
  }

  /** The third intersection of the line of slope l through (x1, y1), mirrored. */
  ghost function Third(x1: int, y1: int, x2: int, l: int, p: int): Point
    requires p > 0
  {
    var x3 := (l * l - x1 - x2) % p;
    XY(x3, (l * (x1 - x3) - y1) % p)
  }

  /** The group law. */
  ghost function Add(a: Point, b: Point, p: int): Point
    requires Prime(p) && OnCurve(a, p) && OnCurve(b, p)
  {
    if a.O? then b
    else if b.O? then a
    else if a.x != b.x then
      Apart(a.x, b.x, p);
      Third(a.x, a.y, b.x, Slope(b.y - a.y, b.x - a.x, p), p)
    else if (a.y + b.y) % p == 0 then O
    else
      SameOrOpposite(a.x, a.y, b.y, p);
      Third(a.x, a.y, a.x, Slope(3 * a.x * a.x, 2 * a.y, p), p)
  }

  lemma Apart(x: int, y: int, p: int)
    requires p > 0 && 0 <= x < p && 0 <= y < p && x != y
    ensures (y - x) % p != 0
  {
    if (y - x) % p == 0 { CongReduced(y, x, p); }
  }

  /** Two points with the same x have the same or opposite y. */
  lemma SameOrOpposite(x: int, y: int, z: int, p: int)
    requires Prime(p) && 0 <= y < p && 0 <= z < p
    requires OnCurveAt(x, y, p) && OnCurveAt(x, z, p)
    ensures y == z || (y + z) % p == 0
    ensures y == z ==> 2 * y == y + z
  {
    CongSym(z * z, x * x * x + 7, p);
    CongTrans(y * y, x * x * x + 7, z * z, p);
    assert y * y - z * z == (y + z) * (y - z);
    Euclid(p, y + z, y - z);
    if (y - z) % p == 0 { CongReduced(y, z, p); }
  }

  // ---------------------------------------------------------------------------------------------
  // Closure
  // ---------------------------------------------------------------------------------------------

  /** How far the line of slope l is from meeting the curve at both x1 and x2. */
  function Defect(x1: int, y1: int, x2: int, l: int): int {
    2 * l * y1 + (l * l) * (x2 - x1) - (x1 * x1 + x1 * x2 + x2 * x2)
  }

  /** The curve equation at the third point, as an identity of integers. */
  lemma CurveIdentity(x1: int, y1: int, x2: int, l: int, x3: int, y3: int)
    requires x3 == l * l - x1 - x2 && y3 == l * (x1 - x3) - y1
    ensures y3 * y3 - (x3 * x3 * x3 + 7)
         == (y1 * y1 - (x1 * x1 * x1 + 7)) + (x3 - x1) * Defect(x1, y1, x2, l)
  {
    var u, s := x3 - x1, l * l;
    SquareOfLine(l, u, y1, y3);
    CubeShift(x1, u);
    DefectShape(x1, x2, u, s);
    var q := x1 * x1 + x1 * x2 + x2 * x2;
    calc {
      y3 * y3 - x3 * x3 * x3;
      s * (u * u) + (2 * l * y1) * u + y1 * y1 - x1 * x1 * x1 - u * (3 * x1 * x1 + 3 * x1 * u + u * u);
      { assert s * (u * u) == u * (s * u); assert (2 * l * y1) * u == u * (2 * l * y1); }
      y1 * y1 - x1 * x1 * x1 + u * (s * u) + u * (2 * l * y1) - u * (3 * x1 * x1 + 3 * x1 * u + u * u);
      { Factor(u, s * u, 2 * l * y1, 3 * x1 * x1 + 3 * x1 * u + u * u); }
      y1 * y1 - x1 * x1 * x1 + u * (s * u + 2 * l * y1 - (3 * x1 * x1 + 3 * x1 * u + u * u));
      y1 * y1 - x1 * x1 * x1 + u * (2 * l * y1 + s * (x2 - x1) - q);
    }
  }

  lemma Factor(u: int, a: int, b: int, c: int)
    ensures u * a + u * b - u * c == u * (a + b - c)
  {
  }

  lemma SquareOfLine(l: int, u: int, y1: int, y3: int)
    requires y3 == l * (0 - u) - y1
    ensures y3 * y3 == (l * l) * (u * u) + (2 * l * y1) * u + y1 * y1
  {
    var w := l * u;
    assert y3 == -(w + y1);
    assert y3 * y3 == w * w + 2 * (w * y1) + y1 * y1;
    assert w * w == (l * l) * (u * u);
    assert w * y1 == (l * y1) * u;
  }

  lemma CubeShift(x: int, u: int)
    ensures (x + u) * (x + u) * (x + u) == x * x * x + u * (3 * x * x + 3 * x * u + u * u)
  {
    assert (x + u) * (x + u) == x * x + 2 * (x * u) + u * u;
    assert (x * x) * (x + u) == x * x * x + (x * x) * u;
    assert (x * u) * (x + u) == (x * x) * u + x * (u * u);
    assert (u * u) * (x + u) == x * (u * u) + u * (u * u);
    assert u * (3 * x * x + 3 * x * u + u * u) == 3 * ((x * x) * u) + 3 * (x * (u * u)) + u * (u * u);
  }

  lemma DefectShape(x1: int, x2: int, u: int, s: int)
    requires s == 2 * x1 + x2 + u
    ensures s * u - (3 * x1 * x1 + 3 * x1 * u + u * u) == s * (x2 - x1) - (x1 * x1 + x1 * x2 + x2 * x2)
  {
    assert s * u == 2 * (x1 * u) + x2 * u + u * u;
    assert s * (x2 - x1) == 2 * (x1 * x2) - 2 * (x1 * x1) + x2 * x2 - x1 * x2 + u * x2 - u * x1;
  }

  /** A line through two points of the curve has no defect. */
  lemma ChordDefect(x1: int, y1: int, x2: int, y2: int, l: int, p: int)
    requires Prime(p) && OnCurveAt(x1, y1, p) && OnCurveAt(x2, y2, p)
    requires (x2 - x1) % p != 0 && Cong(l * (x2 - x1), y2 - y1, p)
    ensures Cong(Defect(x1, y1, x2, l), 0, p)
  {
    var dx, dy, w := x2 - x1, y2 - y1, l * (x2 - x1);
    // dx * (2 l y1 + l^2 dx) = w (2 y1 + w), congruent to dy (2 y1 + dy) = y2^2 - y1^2
    CongRefl(2 * y1, p);
    CongAdd(2 * y1, 2 * y1, w, dy, p);
    CongMul(w, dy, 2 * y1 + w, 2 * y1 + dy, p);
    CongAdd(y2 * y2, x2 * x2 * x2 + 7, y1 * y1, x1 * x1 * x1 + 7, p);
    var q := x1 * x1 + x1 * x2 + x2 * x2;
    DifferenceOfCubes(x1, x2);
    assert dy * (2 * y1 + dy) == y2 * y2 - y1 * y1;
    var e := 2 * l * y1 + (l * l) * dx;
    ChordAlgebra(l, dx, y1);
    CongTrans(w * (2 * y1 + w), y2 * y2 - y1 * y1, dx * q, p);
    CancelFactor(p, dx, e, q);
  }

  lemma ChordAlgebra(l: int, dx: int, y1: int)
    ensures dx * (2 * l * y1 + (l * l) * dx) == (l * dx) * (2 * y1 + l * dx)
  {
    assert dx * (2 * l * y1) == (l * dx) * (2 * y1);
    assert dx * ((l * l) * dx) == (l * dx) * (l * dx);
  }

  lemma DifferenceOfCubes(x1: int, x2: int)
    ensures x2 * x2 * x2 - x1 * x1 * x1 == (x2 - x1) * (x1 * x1 + x1 * x2 + x2 * x2)
  {
    assert x2 * (x1 * x1 + x1 * x2 + x2 * x2) == x2 * (x1 * x1) + x2 * (x1 * x2) + x2 * x2 * x2;
    assert x1 * (x1 * x1 + x1 * x2 + x2 * x2) == x1 * x1 * x1 + x1 * (x1 * x2) + x1 * (x2 * x2);
    assert x2 * (x1 * x1) == x1 * (x1 * x2) && x2 * (x1 * x2) == x1 * (x2 * x2);
  }

  /** A tangent has no defect either. */
  lemma TangentDefect(x: int, y: int, l: int, p: int)
    requires p > 0 && Cong(l * (2 * y), 3 * x * x, p)
    ensures Cong(Defect(x, y, x, l), 0, p)
  {
    assert Defect(x, y, x, l) == l * (2 * y) - 3 * x * x;
  }

  /** A defect-free line through a point of the curve meets the curve again at the third point. */
  lemma ThirdOnCurve(x1: int, y1: int, x2: int, l: int, p: int)
    requires p > 0 && OnCurveAt(x1, y1, p) && Cong(Defect(x1, y1, x2, l), 0, p)
    ensures OnCurve(Third(x1, y1, x2, l, p), p)
  {
    var x := l * l - x1 - x2;
    var y := l * (x1 - x) - y1;
    CurveIdentity(x1, y1, x2, l, x, y);
    var d := Defect(x1, y1, x2, l);
    CongRefl(x - x1, p);
    CongMul(x - x1, x - x1, d, 0, p);
    CongAdd(y1 * y1, x1 * x1 * x1 + 7, (x - x1) * d, (x - x1) * 0, p);
    assert OnCurveAt(x, y, p);
    var t := Third(x1, y1, x2, l, p);
    ThirdReduced(x1, y1, x2, l, p);
    CurveCong(x, y, t.x, t.y, p);
  }

  lemma ThirdReduced(x1: int, y1: int, x2: int, l: int, p: int)
    requires p > 0
    ensures var t, x := Third(x1, y1, x2, l, p), l * l - x1 - x2;
            0 <= t.x < p && 0 <= t.y < p && Cong(x, t.x, p) && Cong(l * (x1 - x) - y1, t.y, p)
  {
    var x := l * l - x1 - x2;
    var t := Third(x1, y1, x2, l, p);
    CongReduce(x, p);
    CongSym(t.x, x, p);
    var y0 := l * (x1 - t.x) - y1;
    CongReduce(y0, p);
    CongSym(t.y, y0, p);
    CongRefl(x1, p);
    CongRefl(l, p);
    CongRefl(y1, p);
    CongAdd(x1, x1, x, t.x, p);
    CongMul(l, l, x1 - x, x1 - t.x, p);
    CongAdd(l * (x1 - x), l * (x1 - t.x), y1, y1, p);
    CongTrans(l * (x1 - x) - y1, y0, t.y, p);
  }

  lemma CurveCong(x: int, y: int, u: int, v: int, p: int)
    requires p > 0 && Cong(x, u, p) && Cong(y, v, p) && OnCurveAt(x, y, p)
    ensures OnCurveAt(u, v, p)
  {
    CongMul(y, v, y, v, p);
    CongMul(x, u, x, u, p);
    CongMul(x * x, u * u, x, u, p);
    CongRefl(7, p);
    CongAdd(x * x * x, u * u * u, 7, 7, p);
    CongSym(y * y, v * v, p);
    CongTrans(v * v, y * y, x * x * x + 7, p);
    CongTrans(v * v, x * x * x + 7, u * u * u + 7, p);
  }

  /** The group law maps points of the curve to points of the curve. */
  lemma AddOnCurve(a: Point, b: Point, p: int)
    requires Prime(p) && OnCurve(a, p) && OnCurve(b, p)
    ensures OnCurve(Add(a, b, p), p)
  {
    if a.XY? && b.XY? {
      if a.x != b.x {
        Apart(a.x, b.x, p);
        var l := Slope(b.y - a.y, b.x - a.x, p);
        ChordDefect(a.x, a.y, b.x, b.y, l, p);
        ThirdOnCurve(a.x, a.y, b.x, l, p);
      } else if (a.y + b.y) % p != 0 {
        SameOrOpposite(a.x, a.y, b.y, p);
        var l := Slope(3 * a.x * a.x, 2 * a.y, p);
        TangentDefect(a.x, a.y, l, p);
        ThirdOnCurve(a.x, a.y, a.x, l, p);
      }
    }
  }

  lemma NegatedSlope(l: int, dx: int, dy: int, ex: int, ey: int, p: int)
    requires p > 0 && ex == -dx && ey == -dy && Cong(l * dx, dy, p)
    ensures Cong(l * ex, ey, p)
  {
    CongRefl(0, p);
    CongAdd(0, 0, l * dx, dy, p);
    assert l * ex == 0 - l * dx;
  }

  /** The line through two points meets the curve at the same third point from either of them. */
  lemma ThirdFromEitherEnd(x1: int, y1: int, x2: int, y2: int, l: int, p: int)
    requires p > 0 && Cong(l * (x2 - x1), y2 - y1, p)
    ensures Third(x1, y1, x2, l, p) == Third(x2, y2, x1, l, p)
  {
    var x3 := (l * l - x1 - x2) % p;
    var y3, z3 := l * (x1 - x3) - y1, l * (x2 - x3) - y2;
    LineDifference(l, x1, x2, x3);
    NegatedSlope(l, x2 - x1, y2 - y1, x1 - x2, y1 - y2, p);
    CongRefl(z3 - (y1 - y2), p);
    CongAdd(l * (x1 - x2), y1 - y2, z3 - (y1 - y2), z3 - (y1 - y2), p);
    CongMod(y3, z3, p);
  }

  lemma LineDifference(l: int, x1: int, x2: int, x3: int)
    ensures l * (x1 - x3) == l * (x1 - x2) + l * (x2 - x3)
  {
  }

  /** Swapping the summands does not change the sum. */
  lemma AddCommutes(a: Point, b: Point, p: int)
    requires Prime(p) && OnCurve(a, p) && OnCurve(b, p)
    ensures Add(a, b, p) == Add(b, a, p)
  {
    if a.XY? && b.XY? {
      if a.x != b.x {
        Apart(a.x, b.x, p);
        Apart(b.x, a.x, p);
        var l := Slope(b.y - a.y, b.x - a.x, p);
        NegatedSlope(l, b.x - a.x, b.y - a.y, a.x - b.x, a.y - b.y, p);
        SlopeUnique(l, a.y - b.y, a.x - b.x, p);
        ThirdFromEitherEnd(a.x, a.y, b.x, b.y, l, p);
      } else if (a.y + b.y) % p != 0 {
        SameOrOpposite(a.x, a.y, b.y, p);
      }
    }
  }

  /** A point and its mirror image sum to infinity, and only those do. */
  lemma AddInfinityIffMirror(a: Point, b: Point, p: int)
    requires Prime(p) && OnCurve(a, p) && OnCurve(b, p)
    ensures Add(a, b, p) == O <==> (a.O? && b.O?) || (a.XY? && b.XY? && a.x == b.x && (a.y + b.y) % p == 0)
  {
  }

  /** Double-and-add over the bits of k, most significant first. */
  ghost function Multiple(k: nat, a: Point, p: int): (r: Point)
    requires Prime(p) && OnCurve(a, p)
    ensures OnCurve(r, p)
  {
    if k == 0 then O
    else
      var half := Multiple(k / 2, a, p);
      AddOnCurve(half, half, p);
      var twice := Add(half, half, p);
      AddOnCurve(twice, a, p);
      if k % 2 == 1 then Add(twice, a, p) else twice
  }
}
