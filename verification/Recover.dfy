/** Point arithmetic on limbs, and public key recovery (section 4.1.6 of SEC 1) up to the hash of
    the recovered key. That the field prime and the group order are prime is a hypothesis. */
module Recover {
  import opened Limbs
  import opened ModMath
  import opened Field
  import opened Curve

  const ZERO: U256 := [0, 0, 0, 0]
  const ONE: U256 := [1, 0, 0, 0]
  const SEVEN: U256 := [7, 0, 0, 0]
  const GX: U256 := [0x59F2815B16F81798, 0x029BFCDB2DCE28D9, 0x55A06295CE870B07, 0x79BE667EF9DCBBAC]
  const GY: U256 := [0x9C47D08FFB10D4B8, 0xFD17B448A6855419, 0x5DA4FBFC0E1108A8, 0x483ADA7726A3C465]

  datatype LimbPoint = Infinity | Affine(x: U256, y: U256)

  /** The point of the curve module that the limbs denote. */
  ghost function Denote(a: LimbPoint): Point {
    match a
    case Infinity => O
    case Affine(x, y) => XY(Val(x), Val(y))
  }

  /** The coordinates are reduced. */
  ghost predicate Reduced(a: LimbPoint) {
    a.Affine? ==> Val(a.x) < PRIME_P && Val(a.y) < PRIME_P
  }

  ghost predicate Good(a: LimbPoint) {
    OnCurve(Denote(a), PRIME_P)
  }

  lemma SmallConstants()
    ensures Val(ZERO) == 0 && Val(ONE) == 1 && Val(SEVEN) == 7
  {
    Val4(ZERO);
    Val4(ONE);
    Val4(SEVEN);
  }

  lemma ZeroLimbs(a: U256)
    ensures Val(a) == 0 <==> a == ZERO
  {
    SmallConstants();
    if Val(a) == 0 { ValInjective(a, ZERO); }
  }

  lemma SameLimbs(a: U256, b: U256)
    ensures Val(a) == Val(b) <==> a == b
  {
    if Val(a) == Val(b) { ValInjective(a, b); }
  }

  lemma CubeMod(x: nat, p: nat)
    requires p > 0
    ensures (x * x % p) * x % p == x * x * x % p
  {
    CongReduce(x * x, p);
    CongRefl(x, p);
    CongMul(x * x % p, x * x, x, x, p);
    CongMod((x * x % p) * x, x * x * x, p);
  }

  /** x^3 + 7 modulo the field prime. */
  method CurveRhs(x: U256) returns (z: U256)
    ensures Val(z) == (Val(x) * Val(x) * Val(x) + 7) % PRIME_P
  {
    Moduli();
    SmallConstants();
    var x2 := MulMod(x, x, P, C_P);
    var x3 := MulMod(x2, x, P, C_P);
    CubeMod(Val(x), PRIME_P);
    z := AddMod(x3, SEVEN, P);
    var c := Val(x) * Val(x) * Val(x);
    CongReduce(c, PRIME_P);
    CongRefl(7, PRIME_P);
    CongAdd(c % PRIME_P, c, 7, 7, PRIME_P);
    CongMod(c % PRIME_P + 7, c + 7, PRIME_P);
  }

  method IsOnCurve(x: U256, y: U256) returns (r: bool)
    ensures r <==> OnCurveAt(Val(x), Val(y), PRIME_P)
  {
    Moduli();
    var lhs := MulMod(y, y, P, C_P);
    var rhs := CurveRhs(x);
    SameLimbs(lhs, rhs);
    CongMod(Val(y) * Val(y), Val(x) * Val(x) * Val(x) + 7, PRIME_P);
    r := lhs == rhs;
  }

  /** The slope computed with the Fermat inverse is the quotient. */
  method Divide(num: U256, den: U256) returns (l: U256)
    requires Prime(PRIME_P) && Val(den) % PRIME_P != 0
    ensures Val(l) == Slope(Val(num), Val(den), PRIME_P)
  {
    Moduli();
    var inv := InvMod(den, P, MOD_P_MINUS_2, C_P);
    l := MulMod(num, inv, P, C_P);
    QuotientByInverse(Val(num), Val(den), Val(inv), Val(l), PRIME_P);
  }

  lemma QuotientByInverse(num: nat, den: nat, inv: nat, l: nat, p: nat)
    requires Prime(p) && den % p != 0 && Cong(inv * den, 1, p) && l == num * inv % p
    ensures l == Slope(num, den, p)
  {
    CongReduce(num * inv, p);
    CongRefl(den, p);
    CongRefl(num, p);
    CongMul(l, num * inv, den, den, p);
    CongMul(num, num, inv * den, 1, p);
    assert (num * inv) * den == num * (inv * den);
    CongTrans(l * den, num * inv * den, num * 1, p);
    SlopeUnique(l, num, den, p);
  }

  /** Congruent numerators and denominators have the same quotient. */
  lemma SlopeCong(n: int, n': int, d: int, d': int, p: int)
    requires Prime(p) && Cong(n, n', p) && Cong(d, d', p) && d % p != 0
    ensures d' % p != 0 && Slope(n, d, p) == Slope(n', d', p)
  {
    CongMod(d, d', p);
    var l := Slope(n, d, p);
    CongRefl(l, p);
    CongSym(d, d', p);
    CongMul(l, l, d', d, p);
    CongTrans(l * d', l * d, n, p);
    CongTrans(l * d', n, n', p);
    SlopeUnique(l, n', d', p);
  }

  /** The last steps shared by doubling and addition: the third point of the line of slope l. */
  method ThirdPoint(x1: U256, y1: U256, x2: U256, l: U256) returns (x3: U256, y3: U256)
    requires Val(x1) < PRIME_P && Val(y1) < PRIME_P && Val(x2) < PRIME_P && Val(l) < PRIME_P
    ensures XY(Val(x3), Val(y3)) == Third(Val(x1), Val(y1), Val(x2), Val(l), PRIME_P)
  {
    x3 := ThirdX(x1, x2, l);
    y3 := ThirdY(x1, y1, x3, l);
  }

  method ThirdX(x1: U256, x2: U256, l: U256) returns (x3: U256)
    requires Val(x1) < PRIME_P && Val(x2) < PRIME_P && Val(l) < PRIME_P
    ensures Val(x3) == (Val(l) * Val(l) - Val(x1) - Val(x2)) % PRIME_P
  {
    Moduli();
    var l2 := MulMod(l, l, P, C_P);
    var d := SubMod(l2, x1, P);
    x3 := SubMod(d, x2, P);
    SubTwice(Val(l) * Val(l), Val(x1), Val(x2), PRIME_P);
  }

  method ThirdY(x1: U256, y1: U256, x3: U256, l: U256) returns (y3: U256)
    requires Val(x1) < PRIME_P && Val(y1) < PRIME_P && Val(x3) < PRIME_P && Val(l) < PRIME_P
    ensures Val(y3) == (Val(l) * (Val(x1) - Val(x3)) - Val(y1)) % PRIME_P
  {
    Moduli();
    var e := SubMod(x1, x3, P);
    var f := MulMod(l, e, P, C_P);
    y3 := SubMod(f, y1, P);
    MulThenSub(Val(l), Val(x1) - Val(x3), Val(y1), PRIME_P);
  }

  lemma SubTwice(a: int, b: int, c: int, p: int)
    requires p > 0
    ensures ((a % p - b) % p - c) % p == (a - b - c) % p
  {
    CongReduce(a, p);
    CongRefl(b, p);
    CongRefl(c, p);
    CongAdd(a % p, a, b, b, p);
    CongReduce(a % p - b, p);
    CongTrans((a % p - b) % p, a % p - b, a - b, p);
    CongAdd((a % p - b) % p, a - b, c, c, p);
    CongMod((a % p - b) % p - c, a - b - c, p);
  }

  lemma MulThenSub(l: int, d: int, y: int, p: int)
    requires p > 0
    ensures (l * (d % p) % p - y) % p == (l * d - y) % p
  {
    CongReduce(d, p);
    CongRefl(l, p);
    CongMul(l, l, d % p, d, p);
    CongReduce(l * (d % p), p);
    CongTrans(l * (d % p) % p, l * (d % p), l * d, p);
    CongRefl(y, p);
    CongAdd(l * (d % p) % p, l * d, y, y, p);
    CongMod(l * (d % p) % p - y, l * d - y, p);
  }

  lemma ModSum(a: int, b: int, c: int, p: int)
    requires p > 0
    ensures Cong((a % p + b % p) % p, a + b, p)
    ensures Cong(((a % p + b % p) % p + c % p) % p, a + b + c, p)
  {
    CongReduce(a, p);
    CongReduce(b, p);
    CongReduce(c, p);
    CongAdd(a % p, a, b % p, b, p);
    var s := (a % p + b % p) % p;
    CongReduce(a % p + b % p, p);
    CongTrans(s, a % p + b % p, a + b, p);
    CongAdd(s, a + b, c % p, c, p);
    CongReduce(s + c % p, p);
    CongTrans((s + c % p) % p, s + c % p, a + b + c, p);
  }

  /** Doubling, as the group law says it: infinity for a point that is its own mirror image. */
  lemma AddSelf(x: int, y: int, p: int)
    requires Prime(p) && OnCurve(XY(x, y), p)
    ensures (y + y) % p == 0 ==> Add(XY(x, y), XY(x, y), p) == O
    ensures (y + y) % p != 0 ==> (2 * y) % p != 0
    ensures (y + y) % p != 0 ==> Add(XY(x, y), XY(x, y), p) == Third(x, y, x, Slope(3 * x * x, 2 * y, p), p)
    ensures OnCurve(Add(XY(x, y), XY(x, y), p), p)
  {
    AddOnCurve(XY(x, y), XY(x, y), p);
    assert 2 * y == y + y;
  }

  method PointDbl(x: U256, y: U256) returns (r: LimbPoint)
    requires Prime(PRIME_P) && Good(Affine(x, y))
    ensures Denote(r) == Add(XY(Val(x), Val(y)), XY(Val(x), Val(y)), PRIME_P)
    ensures Good(r)
  {
    AddSelf(Val(x), Val(y), PRIME_P);
    var nonNegative := Ge(y, ZERO);
    SmallConstants();
    if !nonNegative {
      assert false;
    }
    var twoY := Doubled(y);
    ZeroLimbs(twoY);
    if twoY == ZERO {
      return Infinity;
    }
    var l := TangentSlope(x, y, twoY);
    var x3, y3 := ThirdPoint(x, y, x, l);
    r := Affine(x3, y3);
  }

  method Doubled(y: U256) returns (twoY: U256)
    requires Val(y) < PRIME_P
    ensures Val(twoY) == (Val(y) + Val(y)) % PRIME_P
  {
    Moduli();
    twoY := AddMod(y, y, P);
  }

  /** The slope of the tangent, three times the square of x over twice y. */
  method TangentSlope(x: U256, y: U256, twoY: U256) returns (l: U256)
    requires Prime(PRIME_P) && Val(x) < PRIME_P && Val(y) < PRIME_P
    requires Val(twoY) == (Val(y) + Val(y)) % PRIME_P && Val(twoY) != 0
    ensures (2 * Val(y)) % PRIME_P != 0
    ensures Val(l) < PRIME_P && Val(l) == Slope(3 * Val(x) * Val(x), 2 * Val(y), PRIME_P)
  {
    Moduli();
    var x2 := MulMod(x, x, P, C_P);
    var twoX2 := AddMod(x2, x2, P);
    var threeX2 := AddMod(twoX2, x2, P);
    DoubleSlope(Val(x), Val(y), Val(twoY), Val(threeX2), PRIME_P);
    l := Divide(threeX2, twoY);
  }

  lemma DoubleSlope(x: nat, y: nat, twoY: nat, threeX2: nat, p: nat)
    requires Prime(p) && y < p && twoY == (y + y) % p && twoY != 0
    requires threeX2 == ((x * x % p + x * x % p) % p + x * x % p) % p
    ensures twoY % p != 0 && (2 * y) % p != 0
    ensures Slope(threeX2, twoY, p) == Slope(3 * x * x, 2 * y, p)
  {
    CongReduce(2 * y, p);
    DivModUnique(twoY, p, 0, twoY);
    ModSum(x * x, x * x, x * x, p);
    assert x * x + x * x + x * x == 3 * x * x;
    SlopeCong(threeX2, 3 * x * x, twoY, 2 * y, p);
  }

  method PointAdd(a: LimbPoint, b: LimbPoint) returns (r: LimbPoint)
    requires Prime(PRIME_P) && Good(a) && Good(b)
    ensures Denote(r) == Add(Denote(a), Denote(b), PRIME_P)
    ensures Good(r)
  {
    AddOnCurve(Denote(a), Denote(b), PRIME_P);
    match a
    case Infinity => return b;
    case Affine(x1, y1) =>
      match b
      case Infinity => return a;
      case Affine(x2, y2) =>
        r := AddAffine(x1, y1, x2, y2);
  }

  method AddAffine(x1: U256, y1: U256, x2: U256, y2: U256) returns (r: LimbPoint)
    requires Prime(PRIME_P) && Good(Affine(x1, y1)) && Good(Affine(x2, y2))
    ensures Denote(r) == Add(XY(Val(x1), Val(y1)), XY(Val(x2), Val(y2)), PRIME_P)
  {
    SameLimbs(x1, x2);
    if x1 == x2 {
      r := AddAbove(x1, y1, y2);
      return;
    }
    Apart(Val(x1), Val(x2), PRIME_P);
    var l := ChordSlope(x1, y1, x2, y2);
    var x3, y3 := ThirdPoint(x1, y1, x2, l);
    r := Affine(x3, y3);
  }

  /** The sum of two points with one x: the double, or infinity. */
  method AddAbove(x: U256, y1: U256, y2: U256) returns (r: LimbPoint)
    requires Prime(PRIME_P) && Good(Affine(x, y1)) && Good(Affine(x, y2))
    ensures Denote(r) == Add(XY(Val(x), Val(y1)), XY(Val(x), Val(y2)), PRIME_P)
  {
    SameLimbs(y1, y2);
    if y1 == y2 {
      r := PointDbl(x, y1);
      return;
    }
    var minusY2 := Negated(y2);
    SameOrOpposite(Val(x), Val(y1), Val(y2), PRIME_P);
    MirrorLimbs(Val(y1), Val(y2), Val(minusY2), PRIME_P);
    SameLimbs(y1, minusY2);
    if y1 == minusY2 {
      return Infinity;
    }
    assert false;
  }

  method Negated(y: U256) returns (r: U256)
    requires Val(y) < PRIME_P
    ensures Val(r) == (0 - Val(y)) % PRIME_P
  {
    Moduli();
    SmallConstants();
    r := SubMod(ZERO, y, P);
  }

  /** The slope of the line through two points with different x. */
  method ChordSlope(x1: U256, y1: U256, x2: U256, y2: U256) returns (l: U256)
    requires Prime(PRIME_P) && Val(x1) < PRIME_P && Val(y1) < PRIME_P && Val(x2) < PRIME_P && Val(y2) < PRIME_P
    requires (Val(x2) - Val(x1)) % PRIME_P != 0
    ensures Val(l) < PRIME_P && Val(l) == Slope(Val(y2) - Val(y1), Val(x2) - Val(x1), PRIME_P)
  {
    Moduli();
    ghost var p := PRIME_P;
    var dx := SubMod(x2, x1, P);
    var dy := SubMod(y2, y1, P);
    ghost var ex, ey := Val(x2) - Val(x1), Val(y2) - Val(y1);
    CongReduce(ex, p);
    CongReduce(ey, p);
    CongMod(Val(dx), ex, p);
    SlopeCong(Val(dy), ey, Val(dx), ex, p);
    l := Divide(dy, dx);
  }

  lemma MirrorLimbs(y: nat, z: nat, minusZ: nat, p: nat)
    requires p > 0 && y < p && z < p && minusZ == (0 - z) % p
    ensures y == minusZ <==> (y + z) % p == 0
  {
    DivModUnique(0 - z, p, if z == 0 then 0 else -1, if z == 0 then 0 else p - z);
    if y + z < p { DivModUnique(y + z, p, 0, y + z); }
    else { DivModUnique(y + z, p, 1, y + z - p); }
  }

  /** Double-and-add over all 256 bits, for every scalar. */
  method ScalarMul(k: U256, pt: LimbPoint) returns (result: LimbPoint)
    requires Prime(PRIME_P) && Good(pt)
    ensures Denote(result) == Multiple(Val(k), Denote(pt), PRIME_P)
    ensures Good(result)
  {
    result := Infinity;
    AboveTop(k);
    var bit := 256;
    while bit > 0
      invariant 0 <= bit <= 256
      invariant Denote(result) == Multiple(Above(Val(k), bit), Denote(pt), PRIME_P)
      invariant Good(result)
    {
      bit := bit - 1;
      AboveStep(k, bit);
      MultipleStep(Above(Val(k), bit + 1), Bit(k, bit), Denote(pt), PRIME_P);
      result := PointAdd(result, result);
      if Bit(k, bit) == 1 {
        result := PointAdd(result, pt);
      }
    }
  }

  lemma MultipleStep(e: nat, bit: nat, a: Point, p: int)
    requires Prime(p) && OnCurve(a, p) && bit <= 1
    ensures var half := Multiple(e, a, p);
            var twice := Add(half, half, p);
            OnCurve(twice, p) && Multiple(2 * e + bit, a, p) == if bit == 1 then Add(twice, a, p) else twice
  {
    var half := Multiple(e, a, p);
    AddOnCurve(half, half, p);
    assert (2 * e + bit) / 2 == e;
    assert (2 * e + bit) % 2 == bit;
  }

  // ---------------------------------------------------------------------------------------------
  // Square roots
  // ---------------------------------------------------------------------------------------------

  ghost predicate IsSquare(z: int, p: int)
    requires p > 0
  {
    exists w: nat :: Cong(w * w, z, p)
  }

  /** Raising a square to (p + 1) / 4 gives a root of it, when p leaves remainder 3 by 4. */
  lemma RootOfSquare(z: nat, p: nat, y: nat)
    requires Prime(p) && p % 4 == 3 && y == Pow(z, (p + 1) / 4) % p
    ensures Cong(y * y, z, p) <==> IsSquare(z, p)
  {
    var e := (p + 1) / 4;
    if IsSquare(z, p) {
      var w: nat :| Cong(w * w, z, p);
      var r := Pow(z, e);
      CongReduce(r, p);
      CongMul(y, r, y, r, p);
      CongSym(w * w, z, p);
      PowCong(z, w * w, e, p);
      CongMul(r, Pow(w * w, e), r, Pow(w * w, e), p);
      PowMulBase(w, w, e);
      PowAdd(w, e, e);
      PowAdd(w, 2 * e, 2 * e);
      assert 4 * e == p + 1;
      PowAdd(w, p, 1);
      assert Pow(w, 1) == w;
      FermatPower(p, w);
      CongRefl(w, p);
      CongMul(Pow(w, p), w, w, w, p);
      CongTrans(y * y, r * r, Pow(w, p + 1), p);
      CongTrans(y * y, Pow(w, p + 1), w * w, p);
      CongTrans(y * y, w * w, z, p);
    }
  }

  /** The root of x^3 + 7 with the wanted parity, if x^3 + 7 has a root at all. */
  method LiftX(x: U256, parity: nat) returns (ok: bool, y: U256)
    requires Prime(PRIME_P) && Val(x) < PRIME_P && parity <= 1
    ensures ok <==> IsSquare(Val(x) * Val(x) * Val(x) + 7, PRIME_P)
    ensures ok ==> Good(Affine(x, y)) && (Val(y) % 2 == parity || Val(y) == 0)
  {
    Moduli();
    SmallConstants();
    ghost var p := PRIME_P;
    ghost var rhs := Val(x) * Val(x) * Val(x) + 7;
    var z := CurveRhs(x);
    var pPlus1, carry := Addc(P, ONE);
    Powers();
    ValBound(pPlus1);
    var exp := Shr2(pPlus1);
    y := PowMod(z, exp, P, C_P);
    RootOfSquare(Val(z), p, Val(y));
    SquareOfRemainder(rhs, p);
    var y2 := MulMod(y, y, P, C_P);
    SameLimbs(y2, z);
    CongMod(Val(y) * Val(y), rhs, p);
    CongMod(Val(y) * Val(y), Val(z), p);
    CongReduce(rhs, p);
    CongMod(Val(z), rhs, p);
    if y2 != z {
      return false, y;
    }
    LowBit(y);
    CongReduce(Pow(Val(z), Val(exp)), p);
    if y[0] % 2 != parity {
      ghost var before := y;
      y := SubMod(ZERO, y, P);
      NegateRoot(Val(before), rhs, Val(y), p);
    }
    return true, y;
  }

  lemma SquareOfRemainder(a: int, p: int)
    requires p > 0
    ensures IsSquare(a % p, p) <==> IsSquare(a, p)
  {
    CongReduce(a, p);
    CongSym(a % p, a, p);
    if IsSquare(a % p, p) {
      var w: nat :| Cong(w * w, a % p, p);
      CongTrans(w * w, a % p, a, p);
    }
    if IsSquare(a, p) {
      var w: nat :| Cong(w * w, a, p);
      CongTrans(w * w, a, a % p, p);
    }
  }

  lemma LowBit(y: U256)
    ensures Val(y) % 2 == y[0] % 2
  {
    Val4(y);
  }

  /** The mirror root has the opposite parity, because the prime is odd. */
  lemma NegateRoot(y: nat, z: int, r: nat, p: nat)
    requires p > 0 && p % 2 == 1 && y < p && r == (0 - y) % p && Cong(y * y, z, p)
    ensures Cong(r * r, z, p) && r < p
    ensures y != 0 ==> r % 2 != y % 2
    ensures y == 0 ==> r == 0
  {
    CongReduce(0 - y, p);
    CongMul(r, 0 - y, r, 0 - y, p);
    assert (0 - y) * (0 - y) == y * y;
    CongTrans(r * r, y * y, z, p);
    DivModUnique(0 - y, p, if y == 0 then 0 else -1, if y == 0 then 0 else p - y);
  }

  // ---------------------------------------------------------------------------------------------
  // Recovery
  // ---------------------------------------------------------------------------------------------

  datatype RecoverError = ROutOfRange | SOutOfRange | BadV | RAboveField | NotResidue | AtInfinity | OffCurve
  datatype RecoverResult = Recovered(x: U256, y: U256) | Failed(error: RecoverError)

  ghost function Generator(): Point {
    XY(Val(GX), Val(GY))
  }

  /** The generator of section 2.4.1 of SEC 2. */
  lemma GeneratorValue()
    ensures Val(GX) == 0x79BE667EF9DCBBAC55A06295CE870B07029BFCDB2DCE28D959F2815B16F81798
    ensures Val(GY) == 0x483ADA7726A3C4655DA4FBFC0E1108A8FD17B448A68554199C47D08FFB10D4B8
  {
    Val4(GX);
    Val4(GY);
  }

  lemma GeneratorOnCurve()
    ensures Good(Affine(GX, GY))
  {
    Moduli();
    GeneratorValue();
    assert OnCurveAt(0x79BE667EF9DCBBAC55A06295CE870B07029BFCDB2DCE28D959F2815B16F81798,
                     0x483ADA7726A3C4655DA4FBFC0E1108A8FD17B448A68554199C47D08FFB10D4B8, PRIME_P);
  }

  /** A point R of the curve over p with abscissa r and the parity of the recovery id, and two
      scalars with r u1 = -e and r u2 = s modulo the group order, such that the key is
      u1 G + u2 R for the base point G. */
  ghost predicate IsRecovered(key: Point, digest: nat, r: nat, s: nat, recid: nat, point: Point, u1: nat, u2: nat,
                              base: Point, p: int, order: int)
    requires Prime(p) && order > 0
  {
    && OnCurve(point, p) && point.XY? && point.x == r && (point.y % 2 == recid || point.y == 0)
    && u1 < order && u2 < order
    && Cong(u1 * r, 0 - digest, order) && Cong(u2 * r, s, order)
    && OnCurve(base, p)
    && key == Add(Multiple(u1, base, p), Multiple(u2, point, p), p)
  }

  /** The inputs determine the key: the two scalars and the root of the wanted parity are unique. */
  lemma RecoveredUnique(key: Point, key': Point, digest: nat, r: nat, s: nat, recid: nat,
                        a: Point, u1: nat, u2: nat, a': Point, u1': nat, u2': nat,
                        base: Point, p: int, order: int)
    requires Prime(p) && p % 2 == 1 && Prime(order) && r % order != 0
    requires IsRecovered(key, digest, r, s, recid, a, u1, u2, base, p, order)
    requires IsRecovered(key', digest, r, s, recid, a', u1', u2', base, p, order)
    ensures key == key' && a == a' && u1 == u1' && u2 == u2'
  {
    SlopeUnique(u1, 0 - digest, r, order);
    SlopeUnique(u1', 0 - digest, r, order);
    SlopeUnique(u2, s, r, order);
    SlopeUnique(u2', s, r, order);
    RootUnique(r, a.y, a'.y, recid, p);
  }

  /** The key that digest, r, s and parity lead to. */
  ghost predicate Recovers(key: Point, digest: nat, r: nat, s: nat, recid: nat)
    requires Prime(PRIME_P) && ORDER_N > 0
  {
    exists point, u1: nat, u2: nat ::
      IsRecovered(key, digest, r, s, recid, point, u1, u2, Generator(), PRIME_P, ORDER_N)
  }

  /** In numbers: a root y of r^3 + 7 with the parity of the recovery id, and two scalars with
      r u1 + e = 0 and r u2 = s modulo the group order; the key is u1 G + u2 (r, y). */
  ghost predicate InNumbers(key: Point, digest: nat, r: nat, s: nat, recid: nat, y: int, u1: nat, u2: nat,
                            base: Point, p: int, order: int)
    requires Prime(p) && order > 0 && OnCurve(base, p)
  {
    && 0 <= y < p && r < p && (y * y - (r * r * r + 7)) % p == 0 && (y % 2 == recid || y == 0)
    && u1 < order && u2 < order && (u1 * r + digest) % order == 0 && (u2 * r - s) % order == 0
    && key == Add(Multiple(u1, base, p), Multiple(u2, XY(r, y), p), p)
  }

  lemma NumbersIff(key: Point, digest: nat, r: nat, s: nat, recid: nat, y: int, u1: nat, u2: nat,
                   base: Point, p: int, order: int)
    requires Prime(p) && order > 0 && OnCurve(base, p)
    ensures InNumbers(key, digest, r, s, recid, y, u1, u2, base, p, order) <==>
              IsRecovered(key, digest, r, s, recid, XY(r, y), u1, u2, base, p, order)
  {
    RootIn(r, y, p);
    ScalarIn(u1, r, digest, order);
  }

  lemma RootIn(r: nat, y: int, p: int)
    requires p > 0
    ensures OnCurve(XY(r, y), p) <==> 0 <= y < p && r < p && (y * y - (r * r * r + 7)) % p == 0
  {
  }

  lemma ScalarIn(u: nat, r: nat, digest: nat, order: int)
    requires order > 0
    ensures Cong(u * r, 0 - digest, order) <==> (u * r + digest) % order == 0
  {
    assert u * r - (0 - digest) == u * r + digest;
  }

  lemma RecoversIff(key: Point, digest: nat, r: nat, s: nat, recid: nat)
    requires Prime(PRIME_P) && ORDER_N > 0
    ensures OnCurve(Generator(), PRIME_P)
    ensures Recovers(key, digest, r, s, recid) <==>
              exists y, u1: nat, u2: nat :: InNumbers(key, digest, r, s, recid, y, u1, u2, Generator(), PRIME_P, ORDER_N)
  {
    GeneratorOnCurve();
    if Recovers(key, digest, r, s, recid) {
      var a, u1: nat, u2: nat :| IsRecovered(key, digest, r, s, recid, a, u1, u2, Generator(), PRIME_P, ORDER_N);
      assert a == XY(r, a.y);
      NumbersIff(key, digest, r, s, recid, a.y, u1, u2, Generator(), PRIME_P, ORDER_N);
    }
    if y, u1: nat, u2: nat :| InNumbers(key, digest, r, s, recid, y, u1, u2, Generator(), PRIME_P, ORDER_N) {
      NumbersIff(key, digest, r, s, recid, y, u1, u2, Generator(), PRIME_P, ORDER_N);
    }
  }

  lemma KeyUnique(key: Point, key': Point, digest: nat, r: nat, s: nat, recid: nat)
    requires Prime(PRIME_P) && Prime(ORDER_N) && 0 < r < ORDER_N
    requires Recovers(key, digest, r, s, recid) && Recovers(key', digest, r, s, recid)
    ensures key == key'
  {
    Moduli();
    var a, u1: nat, u2: nat :| IsRecovered(key, digest, r, s, recid, a, u1, u2, Generator(), PRIME_P, ORDER_N);
    var a', u1': nat, u2': nat :| IsRecovered(key', digest, r, s, recid, a', u1', u2', Generator(), PRIME_P, ORDER_N);
    DivModUnique(r, ORDER_N, 0, r);
    RecoveredUnique(key, key', digest, r, s, recid, a, u1, u2, a', u1', u2', Generator(), PRIME_P, ORDER_N);
  }

  lemma RecoveredIsSquare(key: Point, digest: nat, r: nat, s: nat, recid: nat)
    requires Prime(PRIME_P) && ORDER_N > 0 && Recovers(key, digest, r, s, recid)
    ensures IsSquare(r * r * r + 7, PRIME_P)
  {
    var a, u1: nat, u2: nat :| IsRecovered(key, digest, r, s, recid, a, u1, u2, Generator(), PRIME_P, ORDER_N);
    assert OnCurveAt(r, a.y, PRIME_P);
  }

  lemma NoKey(digest: nat, r: nat, s: nat, recid: nat)
    requires Prime(PRIME_P) && ORDER_N > 0 && !IsSquare(r * r * r + 7, PRIME_P)
    ensures !Recovers(O, digest, r, s, recid)
  {
    if Recovers(O, digest, r, s, recid) { RecoveredIsSquare(O, digest, r, s, recid); }
  }

  lemma KeyIsNot(key: Point, other: Point, digest: nat, r: nat, s: nat, recid: nat)
    requires Prime(PRIME_P) && Prime(ORDER_N) && 0 < r < ORDER_N
    requires Recovers(key, digest, r, s, recid) && key != other
    ensures !Recovers(other, digest, r, s, recid)
  {
    if Recovers(other, digest, r, s, recid) { KeyUnique(key, other, digest, r, s, recid); }
  }

  lemma RootUnique(x: int, y: int, z: int, parity: nat, p: int)
    requires Prime(p) && p % 2 == 1 && 0 <= y < p && 0 <= z < p
    requires OnCurveAt(x, y, p) && OnCurveAt(x, z, p)
    requires (y % 2 == parity || y == 0) && (z % 2 == parity || z == 0)
    ensures y == z
  {
    SameOrOpposite(x, y, z, p);
    if y != z {
      SumZero(y, z, p);
      ParityDiffers(y, z, parity, p);
    }
  }

  lemma ParityDiffers(y: int, z: int, parity: nat, p: int)
    requires p % 2 == 1 && 0 <= y < p && 0 <= z < p && (y + z == 0 || y + z == p)
    requires (y % 2 == parity || y == 0) && (z % 2 == parity || z == 0)
    ensures y == z
  {
  }

  lemma SumZero(y: int, z: int, p: int)
    requires 0 <= y < p && 0 <= z < p && (y + z) % p == 0
    ensures y + z == 0 || y + z == p
  {
    if y + z < p { DivModUnique(y + z, p, 0, y + z); } else { DivModUnique(y + z, p, 1, y + z - p); }
  }

  /** The residue u = a / r modulo the group order. */
  method DivideByR(a: U256, rInv: U256, ghost r: nat) returns (u: U256)
    requires Cong(Val(rInv) * r, 1, ORDER_N)
    ensures Val(u) < ORDER_N && Cong(Val(u) * r, Val(a), ORDER_N)
  {
    Moduli();
    u := MulMod(a, rInv, N, C_N);
    var x := Val(a) * Val(rInv);
    CongReduce(x, ORDER_N);
    CongRefl(r, ORDER_N);
    CongMul(Val(u), x, r, r, ORDER_N);
    CongRefl(Val(a), ORDER_N);
    CongMul(Val(a), Val(a), Val(rInv) * r, 1, ORDER_N);
    assert x * r == Val(a) * (Val(rInv) * r);
    CongTrans(Val(u) * r, x * r, Val(a), ORDER_N);
  }

  /** -digest modulo the group order, for every 256-bit digest. */
  method NegateDigest(digest: U256) returns (d: U256)
    ensures Cong(Val(d), 0 - Val(digest), ORDER_N)
  {
    Moduli();
    SmallConstants();
    ValBound(digest);
    Powers();
    var e := digest;
    var over := Ge(digest, N);
    if over {
      var borrow;
      e, borrow := SubBorrow(digest, N);
      CongFromMultiple(0 - Val(e), 0 - Val(digest), ORDER_N, 1);
    } else {
      CongRefl(0 - Val(e), ORDER_N);
    }
    d := SubMod(ZERO, e, N);
    CongReduce(0 - Val(e), ORDER_N);
    CongTrans(Val(d), 0 - Val(e), 0 - Val(digest), ORDER_N);
  }

  /** Recovery of the public key, with the order of the checks and every error of the program. */
  method RecoverPublicKey(digest: U256, r: U256, s: U256, v: nat) returns (res: RecoverResult)
    requires Prime(PRIME_P) && Prime(ORDER_N)
    ensures res == Failed(ROutOfRange) <==> Val(r) == 0 || Val(r) >= ORDER_N
    ensures res == Failed(SOutOfRange) <==> 0 < Val(r) < ORDER_N && (Val(s) == 0 || Val(s) >= ORDER_N)
    ensures res == Failed(BadV) <==> 0 < Val(r) < ORDER_N && 0 < Val(s) < ORDER_N && v % 27 > 1
    ensures res == Failed(NotResidue) <==>
              0 < Val(r) < ORDER_N && 0 < Val(s) < ORDER_N && v % 27 <= 1
              && !IsSquare(Val(r) * Val(r) * Val(r) + 7, PRIME_P)
    ensures res != Failed(OffCurve) && res != Failed(RAboveField)
    ensures res.Recovered? ==> OnCurve(XY(Val(res.x), Val(res.y)), PRIME_P)
    ensures res.Recovered? ==> Recovers(XY(Val(res.x), Val(res.y)), Val(digest), Val(r), Val(s), v % 27)
    ensures res == Failed(AtInfinity) <==>
              0 < Val(r) < ORDER_N && 0 < Val(s) < ORDER_N && v % 27 <= 1
              && Recovers(O, Val(digest), Val(r), Val(s), v % 27)
  {
    Moduli();
    ZeroLimbs(r);
    ZeroLimbs(s);
    var rHigh := Ge(r, N);
    if r == ZERO || rHigh { return Failed(ROutOfRange); }
    var sHigh := Ge(s, N);
    if s == ZERO || sHigh { return Failed(SOutOfRange); }
    var recid := v % 27;
    if recid > 1 { return Failed(BadV); }
    var aboveField := Ge(r, P);
    if aboveField {
      assert false;
    }
    var ok, y := LiftX(r, recid);
    if !ok {
      NoKey(Val(digest), Val(r), Val(s), recid);
      return Failed(NotResidue);
    }
    var key;
    key := Combine(digest, r, s, y, recid);
    match key
    case Infinity => return Failed(AtInfinity);
    case Affine(qx, qy) =>
      var onCurve := IsOnCurve(qx, qy);
      if !onCurve {
        assert false;
      }
      KeyIsNot(XY(Val(qx), Val(qy)), O, Val(digest), Val(r), Val(s), recid);
      return Recovered(qx, qy);
  }

  /** Q = r^-1 (s R - e G). */
  method Combine(digest: U256, r: U256, s: U256, y: U256, recid: nat) returns (key: LimbPoint)
    requires Prime(PRIME_P) && Prime(ORDER_N)
    requires 0 < Val(r) < ORDER_N && Good(Affine(r, y)) && (Val(y) % 2 == recid || Val(y) == 0)
    ensures Good(key)
    ensures Recovers(Denote(key), Val(digest), Val(r), Val(s), recid)
  {
    Moduli();
    GeneratorOnCurve();
    DivModUnique(Val(r), ORDER_N, 0, Val(r));
    var rInv := InvMod(r, N, MOD_N_MINUS_2, C_N);
    var minusE := NegateDigest(digest);
    var u1 := DivideByR(minusE, rInv, Val(r));
    var u2 := DivideByR(s, rInv, Val(r));
    CongTrans(Val(u1) * Val(r), Val(minusE), 0 - Val(digest), ORDER_N);
    var a := ScalarMul(u1, Affine(GX, GY));
    var b := ScalarMul(u2, Affine(r, y));
    key := PointAdd(a, b);
    assert IsRecovered(Denote(key), Val(digest), Val(r), Val(s), recid, XY(Val(r), Val(y)), Val(u1), Val(u2),
                       Generator(), PRIME_P, ORDER_N);
  }
}
