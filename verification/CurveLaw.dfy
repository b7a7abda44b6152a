/** The group law in coordinates: which point the sum is, said by congruences that name neither a
    slope nor a branch (section 2.2.1 of SEC 1). */
module CurveLaw {
  import opened ModMath
  import opened Curve

  /** The point (x, y) is the mirror image of the third intersection of a line of direction (dx, dy)
      through (x1, y1), of which x2 is the second intersection. */
  ghost predicate IsThird(x: int, y: int, x1: int, y1: int, x2: int, dx: int, dy: int, p: int)
    requires p > 0
  {
    && Cong((x + x1 + x2) * (dx * dx), dy * dy, p)
    && Cong((0 - y - y1) * dx, dy * (x - x1), p)
  }

  lemma SquareOfProduct(l: int, dx: int)
    ensures (l * l) * (dx * dx) == (l * dx) * (l * dx)
  {
  }

  lemma ThirdX(x1: int, y1: int, x2: int, l: int, dx: int, dy: int, p: int)
    requires p > 0 && Cong(l * dx, dy, p)
    ensures Cong((Third(x1, y1, x2, l, p).x + x1 + x2) * (dx * dx), dy * dy, p)
  {
    var x := Third(x1, y1, x2, l, p).x;
    CongReduce(l * l - x1 - x2, p);
    CongRefl(x1 + x2, p);
    CongAdd(x, l * l - x1 - x2, x1 + x2, x1 + x2, p);
    CongRefl(dx * dx, p);
    CongMul(x + (x1 + x2), l * l, dx * dx, dx * dx, p);
    SquareOfProduct(l, dx);
    CongMul(l * dx, dy, l * dx, dy, p);
    CongTrans((x + (x1 + x2)) * (dx * dx), (l * l) * (dx * dx), dy * dy, p);
  }

  lemma ProductOrder(l: int, u: int, dx: int)
    ensures (l * u) * dx == (l * dx) * u
  {
  }

  lemma ThirdY(x1: int, y1: int, x2: int, l: int, dx: int, dy: int, p: int)
    requires p > 0 && Cong(l * dx, dy, p)
    ensures var t := Third(x1, y1, x2, l, p);
            Cong((0 - t.y - y1) * dx, dy * (t.x - x1), p)
  {
    var t := Third(x1, y1, x2, l, p);
    var y0 := l * (x1 - t.x) - y1;
    CongReduce(y0, p);
    CongRefl(0 - y1, p);
    CongAdd(0 - y1, 0 - y1, t.y, y0, p);
    Distribute(l, x1, t.x);
    CongRefl(dx, p);
    CongMul(0 - y1 - t.y, l * (t.x - x1), dx, dx, p);
    ProductOrder(l, t.x - x1, dx);
    CongRefl(t.x - x1, p);
    CongMul(l * dx, dy, t.x - x1, t.x - x1, p);
    CongTrans((0 - y1 - t.y) * dx, (l * dx) * (t.x - x1), dy * (t.x - x1), p);
  }

  lemma Distribute(l: int, a: int, b: int)
    ensures l * (a - b) == 0 - l * (b - a)
  {
  }

  /** Only one reduced point is the third on a line that is not vertical. */
  lemma ThirdUnique(x: int, y: int, u: int, v: int, x1: int, y1: int, x2: int, dx: int, dy: int, p: int)
    requires Prime(p) && dx % p != 0 && 0 <= x < p && 0 <= y < p && 0 <= u < p && 0 <= v < p
    requires IsThird(x, y, x1, y1, x2, dx, dy, p) && IsThird(u, v, x1, y1, x2, dx, dy, p)
    ensures x == u && y == v
  {
    SameAfterShift(x, u, x1 + x2, dx, dy * dy, p);
    CongReduced(x, u, p);
    SameAfterTurn(y, v, y1, dx, dy * (x - x1), p);
    CongReduced(y, v, p);
  }

  lemma TwoFactors(c: int, dx: int)
    ensures c * (dx * dx) == dx * (dx * c)
  {
  }

  lemma SameAfterShift(x: int, u: int, c: int, dx: int, w: int, p: int)
    requires Prime(p) && dx % p != 0
    requires Cong((x + c) * (dx * dx), w, p) && Cong((u + c) * (dx * dx), w, p)
    ensures Cong(x, u, p)
  {
    CongSym((u + c) * (dx * dx), w, p);
    CongTrans((x + c) * (dx * dx), w, (u + c) * (dx * dx), p);
    TwoFactors(x + c, dx);
    TwoFactors(u + c, dx);
    CancelFactor(p, dx, dx * (x + c), dx * (u + c));
    CancelFactor(p, dx, x + c, u + c);
    CongRefl(c, p);
    CongAdd(x + c, u + c, c, c, p);
  }

  lemma SameAfterTurn(y: int, v: int, y1: int, dx: int, w: int, p: int)
    requires Prime(p) && dx % p != 0
    requires Cong((0 - y - y1) * dx, w, p) && Cong((0 - v - y1) * dx, w, p)
    ensures Cong(y, v, p)
  {
    CongSym((0 - v - y1) * dx, w, p);
    CongTrans((0 - y - y1) * dx, w, (0 - v - y1) * dx, p);
    assert (0 - y - y1) * dx == dx * (0 - y - y1) && (0 - v - y1) * dx == dx * (0 - v - y1);
    CancelFactor(p, dx, 0 - y - y1, 0 - v - y1);
    CongRefl(0 - y1, p);
    CongAdd(0 - y1, 0 - y1, 0 - y - y1, 0 - v - y1, p);
    assert 0 - y1 - (0 - y - y1) == y && 0 - y1 - (0 - v - y1) == v;
  }

  /** The sum of two points with different x is the one reduced point (x, y) with
      (x + a.x + b.x) (b.x - a.x)^2 = (b.y - a.y)^2 and (-y - a.y) (b.x - a.x) = (b.y - a.y) (x - a.x). */
  lemma ChordSum(a: Point, b: Point, s: Point, p: int)
    requires Prime(p) && OnCurve(a, p) && OnCurve(b, p) && a.XY? && b.XY? && a.x != b.x
    requires s.XY? && 0 <= s.x < p && 0 <= s.y < p
    ensures s == Add(a, b, p) <==>
              && Cong((s.x + a.x + b.x) * ((b.x - a.x) * (b.x - a.x)), (b.y - a.y) * (b.y - a.y), p)
              && Cong((0 - s.y - a.y) * (b.x - a.x), (b.y - a.y) * (s.x - a.x), p)
  {
    var dx, dy := b.x - a.x, b.y - a.y;
    Apart(a.x, b.x, p);
    var l := Slope(dy, dx, p);
    ThirdX(a.x, a.y, b.x, l, dx, dy, p);
    ThirdY(a.x, a.y, b.x, l, dx, dy, p);
    AddOnCurve(a, b, p);
    var t := Add(a, b, p);
    if IsThird(s.x, s.y, a.x, a.y, b.x, dx, dy, p) {
      ThirdUnique(s.x, s.y, t.x, t.y, a.x, a.y, b.x, dx, dy, p);
    }
  }

  /** The double of a point that is not its own mirror image is the one reduced point (x, y) with
      (x + 2 a.x) (2 a.y)^2 = (3 a.x^2)^2 and (-y - a.y) (2 a.y) = 3 a.x^2 (x - a.x). */
  lemma TangentSum(a: Point, s: Point, p: int)
    requires Prime(p) && OnCurve(a, p) && a.XY? && (a.y + a.y) % p != 0
    requires s.XY? && 0 <= s.x < p && 0 <= s.y < p
    ensures s == Add(a, a, p) <==>
              && Cong((s.x + a.x + a.x) * ((2 * a.y) * (2 * a.y)), (3 * a.x * a.x) * (3 * a.x * a.x), p)
              && Cong((0 - s.y - a.y) * (2 * a.y), (3 * a.x * a.x) * (s.x - a.x), p)
  {
    var dx, dy := 2 * a.y, 3 * a.x * a.x;
    assert dx == a.y + a.y;
    var l := Slope(dy, dx, p);
    ThirdX(a.x, a.y, a.x, l, dx, dy, p);
    ThirdY(a.x, a.y, a.x, l, dx, dy, p);
    AddOnCurve(a, a, p);
    var t := Add(a, a, p);
    if IsThird(s.x, s.y, a.x, a.y, a.x, dx, dy, p) {
      ThirdUnique(s.x, s.y, t.x, t.y, a.x, a.y, a.x, dx, dy, p);
    }
  }

  /** Infinity is neutral. */
  lemma AddNeutral(a: Point, p: int)
    requires Prime(p) && OnCurve(a, p)
    ensures Add(O, a, p) == a && Add(a, O, p) == a
  {
  }

  /** Zero times a point is infinity, once is the point, and a number twice as large, or one more than
      that, is reached by doubling and by adding the point. */
  lemma MultipleLadder(k: nat, a: Point, p: int)
    requires Prime(p) && OnCurve(a, p)
    ensures Multiple(0, a, p) == O && Multiple(1, a, p) == a
    ensures Multiple(2 * k, a, p) == Add(Multiple(k, a, p), Multiple(k, a, p), p)
    ensures Multiple(2 * k + 1, a, p) == Add(Multiple(2 * k, a, p), a, p)
  {
    assert (2 * k) / 2 == k && (2 * k + 1) / 2 == k;
    assert Multiple(0, a, p) == O;
    AddNeutral(O, p);
    AddNeutral(a, p);
    assert Multiple(1, a, p) == Add(Add(Multiple(0, a, p), Multiple(0, a, p), p), a, p);
  }

  lemma MultipleSmall(a: Point, p: int)
    requires Prime(p) && OnCurve(a, p)
    ensures OnCurve(Add(a, a, p), p)
    ensures Multiple(2, a, p) == Add(a, a, p) && Multiple(3, a, p) == Add(Add(a, a, p), a, p)
  {
    AddOnCurve(a, a, p);
    MultipleLadder(1, a, p);
  }
}
