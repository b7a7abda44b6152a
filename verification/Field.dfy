/** Arithmetic modulo the two 256-bit moduli of secp256k1, on limbs: reduction by the special form
    2^256 = m + c, modular multiplication, exponentiation and inversion. */
module Field {
  import opened Limbs
  import opened ModMath

  const P: U256 := [0xFFFFFFFEFFFFFC2F, 0xFFFFFFFFFFFFFFFF, 0xFFFFFFFFFFFFFFFF, 0xFFFFFFFFFFFFFFFF]
  const N: U256 := [0xBFD25E8CD0364141, 0xBAAEDCE6AF48A03B, 0xFFFFFFFFFFFFFFFE, 0xFFFFFFFFFFFFFFFF]

  // The three limbs of 2^256 - m
  const C_P: seq<u64> := [0x00000001000003D1, 0, 0]
  const C_N: seq<u64> := [0x402DA1732FC9BEBF, 0x4551231950B75FC4, 0x0000000000000001]

  const MOD_P_MINUS_2: U256 := [0xFFFFFFFEFFFFFC2D, 0xFFFFFFFFFFFFFFFF, 0xFFFFFFFFFFFFFFFF, 0xFFFFFFFFFFFFFFFF]
  const MOD_N_MINUS_2: U256 := [0xBFD25E8CD036413F, 0xBAAEDCE6AF48A03B, 0xFFFFFFFFFFFFFFFE, 0xFFFFFFFFFFFFFFFF]

  /** The field prime 2^256 - 2^32 - 977 and the group order of section 2.4.1 of SEC 2. */
  ghost const PRIME_P: nat := Val(P)
  ghost const ORDER_N: nat := Val(N)

  const C_LIMIT: nat := 0x2_0000_0000_0000_0000_0000_0000_0000_0000  // 2^129
  const SLACK: nat := 0x2_0000_0000_0000_0000_0000_0000_0000_0000_0000_0000_0000_0000  // 2^193

  /** m is a modulus just below 2^256 and c holds the limbs of 2^256 - m. */
  ghost predicate SpecialForm(m: U256, c: seq<u64>) {
    |c| == 3 && Val(c) < C_LIMIT && Val(m) + Val(c) == Pow64(4) && Val(m) > 1
  }

  lemma Val4(s: U256)
    ensures Val(s) == s[0] + (s[1] as int) * 0x1_0000_0000_0000_0000
                      + (s[2] as int) * 0x1_0000_0000_0000_0000_0000_0000_0000_0000
                      + (s[3] as int) * 0x1_0000_0000_0000_0000_0000_0000_0000_0000_0000_0000_0000_0000
  {
    Powers();
    assert s[..4] == s && s[..0] == [];
    ValSnoc(s, 0);
    ValSnoc(s, 1);
    ValSnoc(s, 2);
    ValSnoc(s, 3);
  }

  lemma Val3(s: seq<u64>)
    requires |s| == 3
    ensures Val(s) == s[0] + (s[1] as int) * 0x1_0000_0000_0000_0000
                      + (s[2] as int) * 0x1_0000_0000_0000_0000_0000_0000_0000_0000
  {
    Powers();
    assert s[..3] == s && s[..0] == [];
    ValSnoc(s, 0);
    ValSnoc(s, 1);
    ValSnoc(s, 2);
  }

  lemma Powers()
    ensures Pow64(0) == 1
    ensures Pow64(1) == 0x1_0000_0000_0000_0000
    ensures Pow64(2) == 0x1_0000_0000_0000_0000_0000_0000_0000_0000
    ensures Pow64(3) == 0x1_0000_0000_0000_0000_0000_0000_0000_0000_0000_0000_0000_0000
    ensures Pow64(4) == 0x1_0000_0000_0000_0000_0000_0000_0000_0000_0000_0000_0000_0000_0000_0000_0000_0000
  {
    assert Pow64(2) == BASE * Pow64(1);
    assert Pow64(3) == BASE * Pow64(2);
    assert Pow64(4) == BASE * Pow64(3);
  }

  /** The limb constants denote the curve's prime and order, and both have the special form. */
  lemma Moduli()
    ensures Val(P) == PRIME_P == 0xFFFFFFFFFFFFFFFFFFFFFFFFFFFFFFFFFFFFFFFFFFFFFFFFFFFFFFFEFFFFFC2F
    ensures Val(N) == ORDER_N == 0xFFFFFFFFFFFFFFFFFFFFFFFFFFFFFFFEBAAEDCE6AF48A03BBFD25E8CD0364141
    ensures Val(MOD_P_MINUS_2) == PRIME_P - 2 && Val(MOD_N_MINUS_2) == ORDER_N - 2
    ensures SpecialForm(P, C_P) && SpecialForm(N, C_N)
  {
    Val4(P);
    Val4(N);
    Val4(MOD_P_MINUS_2);
    Val4(MOD_N_MINUS_2);
    Val3(C_P);
    Val3(C_N);
    Powers();
  }

  // ---------------------------------------------------------------------------------------------
  // Modular addition and subtraction
  // ---------------------------------------------------------------------------------------------

  /** 2^256 - a, by complementing and adding one (so that 0 maps to 0). */
  method NegMod(a: U256) returns (r: U256)
    ensures Val(r) == if Val(a) == 0 then 0 else Pow64(4) - Val(a)
  {
    var notA: U256 := [BASE - 1 - a[0], BASE - 1 - a[1], BASE - 1 - a[2], BASE - 1 - a[3]];
    Val4(a);
    Val4(notA);
    Val4([1, 0, 0, 0]);
    Powers();
    var carry;
    r, carry := Addc(notA, [1, 0, 0, 0]);
    ValBound(r);
  }

  /** Reduced operands give the reduced sum. On any operands at all, at most one modulus is
      subtracted, modulo 2^256. */
  method AddMod(a: U256, b: U256, m: U256) returns (r: U256)
    requires Val(m) > 0
    ensures Val(r) == (if Val(a) + Val(b) >= Val(m) then Val(a) + Val(b) - Val(m) else Val(a) + Val(b)) % Pow64(4)
    ensures Val(a) < Val(m) && Val(b) < Val(m) ==> Val(r) == (Val(a) + Val(b)) % Val(m)
  {
    ValBound(a);
    ValBound(b);
    ValBound(m);
    var s, carry := Addc(a, b);
    if carry == 1 {
      var minusM := NegMod(m);
      var again;
      r, again := Addc(s, minusM);
      ValBound(r);
    } else {
      var over := Ge(s, m);
      if over {
        var borrow;
        r, borrow := SubBorrow(s, m);
      } else {
        r := s;
      }
    }
    ValBound(r);
    AddedOnce(Val(a) + Val(b), Val(m), Pow64(4), Val(r));
  }

  /** Subtracting the modulus once, in words that wrap. */
  lemma AddedOnce(sum: nat, m: nat, wrap: nat, r: nat)
    requires 0 < m < wrap && sum < 2 * wrap && r < wrap
    requires var reduced := if sum >= m then sum - m else sum; r == if reduced >= wrap then reduced - wrap else reduced
    ensures r == (if sum >= m then sum - m else sum) % wrap
    ensures sum < 2 * m ==> r == sum % m
  {
    var reduced := if sum >= m then sum - m else sum;
    DivModUnique(reduced, wrap, if reduced >= wrap then 1 else 0, r);
    if sum < 2 * m { DivModUnique(sum, m, if sum >= m then 1 else 0, r); }
  }

  /** Reduced operands give the reduced difference. On any operands at all, the modulus is added once
      when the subtraction borrows, in words that wrap. */
  method SubMod(a: U256, b: U256, m: U256) returns (r: U256)
    ensures Val(r) == if Val(a) >= Val(b) then Val(a) - Val(b) else (Val(a) - Val(b) + Val(m)) % Pow64(4)
    ensures Val(a) < Val(m) && Val(b) < Val(m) ==> Val(r) == (Val(a) - Val(b)) % Val(m)
  {
    ValBound(a);
    ValBound(b);
    ValBound(m);
    var d, borrow := SubBorrow(a, b);
    ValBound(d);
    if borrow == 1 {
      var carry;
      r, carry := Addc(d, m);
      ValBound(r);
      DivModUnique(Val(a) - Val(b) + Val(m), Pow64(4), (carry as int) - 1, Val(r));
    } else {
      r := d;
    }
    SubtractedOnce(Val(a), Val(b), Val(m), Val(r));
  }

  lemma SubtractedOnce(a: nat, b: nat, m: nat, r: nat)
    requires a < m && b < m ==> r == if a >= b then a - b else a - b + m
    ensures a < m && b < m ==> r == (a - b) % m
  {
    if a < m && b < m { DivModUnique(a - b, m, if a >= b then 0 else -1, r); }
  }

  // ---------------------------------------------------------------------------------------------
  // Special-form reduction
  // ---------------------------------------------------------------------------------------------

  /** Upper bound of the accumulator before pass k. */
  ghost function PassCap(k: nat): nat {
    if k == 0 then Pow64(8)
    else if k <= 4 then Pow64(8 - k) + SLACK * Pow64(4 - k)
    else Pow64(4)
  }

  /** Upper bound of the accumulator inside pass k, before limb i is folded. */
  ghost function FoldCap(k: nat, i: int): nat {
    if k > 4 || i >= 8 - k then PassCap(k)
    else if i == 7 - k then Pow64(8 - k)
    else PassCap(k + 1)
  }

  /** The value of the accumulator after limb i of value x has been folded. */
  ghost function Folded(total: nat, x: nat, c: nat, i: nat): int
    requires i >= 4
  {
    total - x * Pow64(i) + (x * c) * Pow64(i - 4)
  }

  /** Replacing x * high, with high = (m + c) * low, by x * c * low subtracts a multiple of m: the
      residue stays, the number does not grow, and it is never driven below zero. */
  lemma FoldKeepsResidue(total: nat, x: nat, c: nat, m: nat, high: nat, low: nat, a: nat)
    requires m > 0 && (m + c) * low == high && x * high <= total
    requires Cong(total, a, m)
    ensures 0 <= total - x * high + (x * c) * low <= total
    ensures Cong(total - x * high + (x * c) * low, a, m)
  {
    FoldAlgebra(x, low, m, c);
    ShrinkByMultiple(total, x * low, m, total - x * high + (x * c) * low, a);
    NatProduct(x, c);
    NatProduct(x * c, low);
  }

  lemma FoldAlgebra(x: int, w: int, m: int, c: int)
    ensures x * ((m + c) * w) - (x * c) * w == (x * w) * m
  {
    MulAssoc(x, m + c, w);
    assert x * (m + c) == x * m + x * c;
    assert (x * m + x * c) * w == (x * m) * w + (x * c) * w;
    assert (x * m) * w == (x * w) * m;
  }

  /** The same for limb i of the accumulator. */
  lemma FoldedKeepsResidue(total: nat, x: nat, c: seq<u64>, m: U256, i: nat, a: nat)
    requires i >= 4 && SpecialForm(m, c) && x * Pow64(i) <= total
    requires Cong(total, a, Val(m))
    ensures 0 <= Folded(total, x, Val(c), i) <= total
    ensures Cong(Folded(total, x, Val(c), i), a, Val(m))
  {
    Pow64Add(4, i - 4);
    FoldKeepsResidue(total, x, Val(c), Val(m), Pow64(i), Pow64(i - 4), a);
  }

  lemma NatProduct(x: nat, y: nat)
    ensures x * y >= 0
  {
  }

  lemma ShrinkByMultiple(total: nat, k: nat, m: nat, r: int, a: nat)
    requires m > 0 && r == total - k * m && Cong(total, a, m)
    ensures r <= total && Cong(r, a, m)
  {
    NatProduct(k, m);
    var q: int := k;
    CongFromMultiple(r, total, m, -q);
    CongTrans(r, total, a, m);
  }

  /** A full limb at position i folds to less than 2^193 at position i - 4. */
  lemma FoldBelow(low: nat, x: nat, c: nat, i: nat)
    requires i >= 4 && low < Pow64(i) && x < BASE && c < C_LIMIT
    ensures Folded(low + x * Pow64(i), x, c, i) < Pow64(i) + SLACK * Pow64(i - 4)
  {
    MulMono(x, BASE, c);
    MulMono(c, C_LIMIT, BASE);
    MulMono(x * c, SLACK, Pow64(i - 4));
  }

  /** A limb that is at most one, above a small rest, folds below the limb's own weight. */
  lemma FoldOneBelow(low: nat, x: nat, c: nat, i: nat)
    requires i >= 4 && low < Pow64(i) && x <= 1 && c < C_LIMIT
    requires x == 1 ==> low < SLACK * Pow64(i - 4)
    ensures Folded(low + x * Pow64(i), x, c, i) < Pow64(i)
  {
    if x == 1 {
      var w := Pow64(i - 4);
      Pow64Add(4, i - 4);
      Powers();
      MulMono(c, C_LIMIT, w);
      MulMono(SLACK + C_LIMIT, Pow64(4), w);
    }
  }

  /** The limb at position i, given a bound on the whole accumulator. */
  lemma TopLimb(t: seq<u64>, i: nat)
    requires |t| == 8 && 4 <= i < 8
    ensures Val(t) == Val(t[..i]) + t[i] * Pow64(i) + Pow64(i + 1) * Val(t[i + 1..])
    ensures Val(t[..i]) < Pow64(i)
    ensures Val(t) < Pow64(i + 1) ==> Val(t[i + 1..]) == 0
    ensures Val(t) < 2 * Pow64(i) ==> Val(t[i + 1..]) == 0 && t[i] <= 1
  {
    ValSplit(t, i + 1);
    ValSnoc(t, i);
    ValBound(t[..i]);
    var high := Val(t[i + 1..]);
    if high > 0 { MulMono(1, high, Pow64(i + 1)); }
    if t[i] > 1 { MulMono(2, t[i], Pow64(i)); }
  }

  /** One fold moves the accumulator from the bound before limb i to the bound before limb i - 1. */
  lemma FoldStep(t: seq<u64>, c: nat, k: nat, i: nat)
    requires |t| == 8 && 4 <= i < 8 && c < C_LIMIT && k <= 4
    requires Val(t) < FoldCap(k, i) && Folded(Val(t), t[i], c, i) <= Val(t)
    ensures Folded(Val(t), t[i], c, i) < FoldCap(k, i - 1)
  {
    if i == 7 - k {
      FoldStepFull(t, c, i);
    } else if i == 8 - k {
      FoldStepOne(t, c, i);
    }
  }

  lemma FoldStepFull(t: seq<u64>, c: nat, i: nat)
    requires |t| == 8 && 4 <= i < 8 && c < C_LIMIT && Val(t) < Pow64(i + 1)
    ensures Folded(Val(t), t[i], c, i) < Pow64(i) + SLACK * Pow64(i - 4)
  {
    TopLimb(t, i);
    FoldBelow(Val(t[..i]), t[i], c, i);
  }

  lemma FoldStepOne(t: seq<u64>, c: nat, i: nat)
    requires |t| == 8 && 4 <= i < 8 && c < C_LIMIT && Val(t) < Pow64(i) + SLACK * Pow64(i - 4)
    ensures Folded(Val(t), t[i], c, i) < Pow64(i)
  {
    SlackSmall(i);
    TopLimb(t, i);
    LowWhenOne(Val(t[..i]), t[i], Pow64(i), SLACK * Pow64(i - 4), Val(t));
    FoldOneBelow(Val(t[..i]), t[i], c, i);
  }

  lemma LowWhenOne(low: nat, x: nat, w: nat, slack: nat, v: nat)
    requires v == low + x * w && v < w + slack
    ensures x == 1 ==> low < slack
  {
  }

  lemma SlackSmall(i: nat)
    requires i >= 4
    ensures SLACK * Pow64(i - 4) < Pow64(i)
  {
    Pow64Add(4, i - 4);
    Powers();
    SlackAlgebra(Pow64(i - 4));
  }

  lemma SlackAlgebra(w: nat)
    requires w > 0
    ensures SLACK * w < 0x1_0000_0000_0000_0000_0000_0000_0000_0000_0000_0000_0000_0000_0000_0000_0000_0000 * w
  {
  }

  lemma LimbBelow(t: seq<u64>, i: nat)
    requires |t| == 8 && i < 8 && Val(t) < Pow64(i)
    ensures t[i] == 0
  {
    ValSplit(t, i + 1);
    ValSnoc(t, i);
    NatProduct(Pow64(i + 1), Val(t[i + 1..]));
    if t[i] > 0 { MulMono(1, t[i], Pow64(i)); }
  }

  lemma LowPart(t: seq<u64>, j: nat)
    requires |t| == 8 && 3 <= j < 8 && forall l :: j < l < 8 ==> t[l] == 0
    ensures Val(t) == Val(t[..j + 1]) < Pow64(j + 1)
  {
    ValSplit(t, j + 1);
    ValZeros(t[j + 1..]);
    ValBound(t[..j + 1]);
  }

  /** The bound that holds when a pass starts below the cap at limb `top`. */
  lemma PassEntry(total: nat, k: nat, top: nat)
    requires k <= 12 && 3 <= top < 8 && total < PassCap(k) && total < Pow64(top + 1)
    ensures k <= 4 ==> total < FoldCap(k, top)
    ensures k > 4 ==> total < Pow64(4)
  {
    if k > 4 || top >= 8 - k {
      assert FoldCap(k, top) == PassCap(k);
    } else if top < 7 - k {
      Pow64Mono(top + 1, 7 - k);
      NextCap(k);
    }
  }

  lemma NextCap(k: nat)
    requires k < 4
    ensures Pow64(7 - k) <= PassCap(k + 1)
  {
    MulMono(0, SLACK, Pow64(3 - k));
  }

  /** Fold one limb: clear it and add its three partial products four limbs below. */
  method FoldLimb(t: array<u64>, c: seq<u64>, i: nat, ghost m: U256)
    requires t.Length == 8 && 4 <= i < 8 && SpecialForm(m, c)
    modifies t
    ensures Val(t[..]) == Folded(Val(old(t[..])), old(t[i]), Val(c), i)
  {
    ghost var before := t[..];
    var x: u64 := t[i];
    MulSmall(x, c[0]);
    MulSmall(x, c[1]);
    MulSmall(x, c[2]);
    var p0: u128 := (x as int) * (c[0] as int);
    var p1: u128 := (x as int) * (c[1] as int);
    var p2: u128 := (x as int) * (c[2] as int);
    FoldFits(before, c, i, m, p0, p1, p2);
    t[i] := 0;
    assert t[..] == before[i := 0];
    ValUpdate(before, i, 0);
    AddWordAt(t, p0, i - 4);
    AddWordAt(t, p1, i - 3);
    if c[2] != 0 {
      AddWordAt(t, p2, i - 2);
    }
  }

  /** The three partial products together make the fold, and no prefix of them overflows. */
  lemma FoldFits(t: seq<u64>, c: seq<u64>, i: nat, m: U256, p0: nat, p1: nat, p2: nat)
    requires |t| == 8 && 4 <= i < 8 && SpecialForm(m, c)
    requires p0 == (t[i] as int) * c[0] && p1 == (t[i] as int) * c[1] && p2 == (t[i] as int) * c[2]
    ensures Val(t) + (0 - t[i]) * Pow64(i) + p0 * Pow64(i - 4) + p1 * Pow64(i - 3) + p2 * Pow64(i - 2)
         == Folded(Val(t), t[i], Val(c), i) < Pow64(8)
    ensures p0 * Pow64(i - 4) >= 0 && p1 * Pow64(i - 3) >= 0 && p2 * Pow64(i - 2) >= 0
    ensures c[2] == 0 ==> p2 * Pow64(i - 2) == 0
  {
    FoldShrinks(t, c, i, m);
    FoldWords(t[i], c, i);
    Distribute(0, t[i], Pow64(i));
  }

  lemma FoldShrinks(t: seq<u64>, c: seq<u64>, i: nat, m: U256)
    requires |t| == 8 && 4 <= i < 8 && SpecialForm(m, c)
    ensures 0 <= Folded(Val(t), t[i], Val(c), i) < Pow64(8)
  {
    ValBound(t);
    LimbWithin(t, i);
    CongRefl(Val(t), Val(m));
    FoldedKeepsResidue(Val(t), t[i], c, m, i, Val(t));
  }

  lemma LimbWithin(t: seq<u64>, i: nat)
    requires |t| == 8 && i < 8
    ensures t[i] * Pow64(i) <= Val(t)
  {
    ValSplit(t, i + 1);
    ValSnoc(t, i);
    NatProduct(Pow64(i + 1), Val(t[i + 1..]));
  }

  lemma FoldWords(x: u64, c: seq<u64>, i: nat)
    requires |c| == 3 && i >= 4
    ensures ((x as int) * Val(c)) * Pow64(i - 4)
         == ((x as int) * c[0]) * Pow64(i - 4) + ((x as int) * c[1]) * Pow64(i - 3) + ((x as int) * c[2]) * Pow64(i - 2)
    ensures ((x as int) * c[0]) * Pow64(i - 4) >= 0
    ensures ((x as int) * c[1]) * Pow64(i - 3) >= 0
    ensures ((x as int) * c[2]) * Pow64(i - 2) >= 0
  {
    Val3(c);
    var w := Pow64(i - 4);
    assert Pow64(i - 3) == BASE * w && Pow64(i - 2) == BASE * Pow64(i - 3);
    WordsAlgebra(x, c[0], c[1], c[2], w);
    NatProduct(x * c[0], w);
    NatProduct(x * c[1], Pow64(i - 3));
    NatProduct(x * c[2], Pow64(i - 2));
  }

  lemma WordsAlgebra(x: nat, c0: nat, c1: nat, c2: nat, w: nat)
    ensures (x * (c0 + c1 * BASE + c2 * (BASE * BASE))) * w
         == (x * c0) * w + (x * c1) * (BASE * w) + (x * c2) * (BASE * (BASE * w))
    ensures x * c0 >= 0 && x * c1 >= 0 && x * c2 >= 0
  {
    assert x * (c0 + c1 * BASE + c2 * (BASE * BASE)) == x * c0 + (x * c1) * BASE + (x * c2) * (BASE * BASE);
    RowAlgebra(x * c0, (x * c1) * BASE, w);
    RowAlgebra(x * c0 + (x * c1) * BASE, (x * c2) * (BASE * BASE), w);
  }

  /** The highest non-zero limb, or 3 when all four high limbs are zero. */
  method FindTop(t: array<u64>) returns (top: nat)
    requires t.Length == 8
    ensures 3 <= top <= 7 && Val(t[..]) < Pow64(top + 1)
    ensures top >= 4 ==> t[top] != 0
  {
    top := 7;
    while top >= 4 && t[top] == 0
      invariant 3 <= top <= 7
      invariant forall l :: top < l < 8 ==> t[l] == 0
    {
      top := top - 1;
    }
    LowPart(t[..], top);
  }

  /** One pass: fold every non-zero limb from `top` down to limb 4. */
  method FoldPass(t: array<u64>, c: seq<u64>, top: nat, ghost m: U256, ghost pass: nat, ghost a: nat)
    requires t.Length == 8 && 4 <= top < 8 && SpecialForm(m, c) && pass <= 4
    requires Cong(Val(t[..]), a, Val(m)) && Val(t[..]) < FoldCap(pass, top)
    modifies t
    ensures Cong(Val(t[..]), a, Val(m)) && Val(t[..]) < PassCap(pass + 1)
  {
    var i := top;
    while i >= 4
      invariant 3 <= i <= top
      invariant Cong(Val(t[..]), a, Val(m))
      invariant Val(t[..]) < FoldCap(pass, i)
    {
      var x: u64 := t[i];
      LimbWithin(t[..], i);
      FoldedKeepsResidue(Val(t[..]), x, c, m, i, a);
      FoldStep(t[..], Val(c), pass, i);
      if x != 0 {
        FoldLimb(t, c, i, m);
      }
      i := i - 1;
    }
  }

  /** Fold the high limbs down until they clear, then drop below the modulus. The twelve passes
      of the program always suffice, and the result is the exact remainder. */
  method Reduce8(t: array<u64>, c: seq<u64>, m: U256) returns (out: U256)
    requires t.Length == 8 && SpecialForm(m, c)
    modifies t
    ensures Val(out) == Val(old(t[..])) % Val(m)
  {
    ghost var a := Val(t[..]);
    ValBound(t[..]);
    CongRefl(a, Val(m));
    for pass := 0 to 12
      invariant Cong(Val(t[..]), a, Val(m))
      invariant Val(t[..]) < PassCap(pass)
    {
      var top := FindTop(t);
      PassEntry(Val(t[..]), pass, top);
      if top < 4 {
        break;
      }
      if pass > 4 {
        HighLimbsClear(t[..]);
        assert false;
      }
      FoldPass(t, c, top, m, pass, a);
    }
    HighLimbsClear(t[..]);
    assert t[4] == 0 && t[5] == 0 && t[6] == 0 && t[7] == 0;
    LowPart(t[..], 3);
    out := [t[0], t[1], t[2], t[3]];
    assert t[..][..4] == out;
    CongMod(Val(t[..]), a, Val(m));
    out := DropBelow(out, m, c);
  }

  lemma HighLimbsClear(t: seq<u64>)
    requires |t| == 8 && Val(t) < Pow64(4)
    ensures forall l :: 4 <= l < 8 ==> t[l] == 0
  {
    forall l | 4 <= l < 8 ensures t[l] == 0 {
      Pow64Mono(4, l);
      LimbBelow(t, l);
    }
  }

  /** The last step of the reduction: subtract the modulus while it still fits, at most eight times. */
  method DropBelow(low: U256, m: U256, ghost c: seq<u64>) returns (out: U256)
    requires SpecialForm(m, c)
    ensures Val(out) == Val(low) % Val(m)
  {
    out := low;
    ValBound(low);
    Powers();
    var fits := Ge(out, m);
    var iters := if fits then 8 else 1;
    ghost var q := 0;
    for round := 0 to iters
      invariant Val(low) == q * Val(m) + Val(out)
      invariant 0 <= q <= 1
      invariant q == 1 ==> Val(out) < Val(m)
      invariant round > 0 ==> q == 1
    {
      fits := Ge(out, m);
      if fits {
        var borrow;
        out, borrow := SubBorrow(out, m);
        q := q + 1;
      } else {
        break;
      }
    }
    DivModUnique(Val(low), Val(m), q, Val(out));
  }

  // ---------------------------------------------------------------------------------------------
  // Multiplication, exponentiation, inversion
  // ---------------------------------------------------------------------------------------------

  /** The exact product modulo m, for all 256-bit operands, reduced or not. */
  method MulMod(a: U256, b: U256, m: U256, c: seq<u64>) returns (r: U256)
    requires SpecialForm(m, c)
    ensures Val(r) == Val(a) * Val(b) % Val(m)
  {
    var t := MulFull(a, b);
    r := Reduce8(t, c, m);
  }

  function Pow2(n: nat): (p: nat)
    ensures p > 0
  {
    if n == 0 then 1 else 2 * Pow2(n - 1)
  }

  /** Bit `bit` of a 256-bit exponent, as read by shifting within a limb. */
  function Bit(e: U256, bit: nat): nat
    requires bit < 256
  {
    e[bit / 64] / Pow2(bit % 64) % 2
  }

  lemma {:induction false} Pow2Add(i: nat, j: nat)
    ensures Pow2(i + j) == Pow2(i) * Pow2(j)
  {
    if i > 0 { Pow2Add(i - 1, j); MulAssoc(2, Pow2(i - 1), Pow2(j)); }
  }

  lemma Pow2At64()
    ensures Pow2(64) == BASE
  {
    assert Pow2(4) == 16;
    Pow2Add(4, 4);
    Pow2Add(8, 8);
    Pow2Add(16, 16);
    Pow2Add(32, 32);
  }

  lemma {:induction false} Pow64IsPow2(i: nat)
    ensures Pow64(i) == Pow2(64 * i)
  {
    if i > 0 {
      Pow64IsPow2(i - 1);
      Pow2At64();
      Pow2Add(64, 64 * (i - 1));
    }
  }

  lemma DivSplit(a: nat, x: nat, d: nat)
    requires d > 0
    ensures (a + x * d) / d == a / d + x
  {
    assert (a / d + x) * d == (a / d) * d + x * d;
    DivModUnique(a + x * d, d, a / d + x, a % d);
  }

  lemma DivDiv(n: nat, d: nat, e: nat)
    requires d > 0 && e > 0
    ensures d * e > 0 && n / (d * e) == n / d / e
  {
    var q, r := n / d, n % d;
    var q', r' := q / e, q % e;
    MulMono(1, d, e);
    MulMono(r', e - 1, d);
    DivDivAlgebra(d, e, q', r', r);
    DivModUnique(n, d * e, q', r' * d + r);
  }

  lemma DivDivAlgebra(d: int, e: int, q: int, r: int, s: int)
    ensures (q * e + r) * d + s == q * (d * e) + (r * d + s)
  {
    assert (q * e) * d == q * (d * e);
  }

  /** The bit read from the limb is the bit of the number, so the prefix of the exponent above
      `bit` extends by one bit. */
  lemma BitOfNumber(e: U256, bit: nat)
    requires bit < 256
    ensures Val(e) / Pow2(bit) == 2 * (Val(e) / Pow2(bit + 1)) + Bit(e, bit)
  {
    var i, s := bit / 64, bit % 64;
    var x := Val(e) / Pow2(bit);
    Pow2Add(bit, 1);
    assert Pow2(1) == 2;
    DivDiv(Val(e), Pow2(bit), 2);
    Pow64IsPow2(i);
    Pow2Add(64 * i, s);
    DivDiv(Val(e), Pow64(i), Pow2(s));
    ValSplit(e, i);
    ValBound(e[..i]);
    var high := Val(e[i..]);
    DivModUnique(Val(e), Pow64(i), high, Val(e[..i]));
    assert x == high / Pow2(s);
    var rest := Val(e[i + 1..]);
    ValSplit(e[i..], 1);
    ValSnoc(e[i..], 0);
    assert e[i..][1..] == e[i + 1..] && e[i..][..0] == [];
    Powers();
    assert high == e[i] + BASE * rest;
    Pow2At64();
    Pow2Add(63 - s, s);
    Pow2Add(1, 63);
    var step := Pow2(63 - s);
    ShiftOut(e[i], rest, Pow2(s), step);
  }

  /** Shifting limb and rest right by s < 64 bits keeps the parity of the shifted limb. */
  lemma ShiftOut(limb: nat, rest: nat, d: nat, step: nat)
    requires d > 0 && BASE == 2 * (step * d)
    ensures (limb + BASE * rest) / d % 2 == limb / d % 2
  {
    calc {
      BASE * rest;
      (2 * (step * d)) * rest;
      { assert (step * d) * rest == (step * rest) * d; }
      (2 * (step * rest)) * d;
    }
    DivSplit(limb, 2 * (step * rest), d);
  }

  /** The number without its lowest bits. */
  ghost function Above(n: nat, bit: nat): nat {
    if bit == 0 then n else Above(n, bit - 1) / 2
  }

  lemma {:induction false} AboveIsQuotient(n: nat, bit: nat)
    ensures Above(n, bit) == n / Pow2(bit)
  {
    if bit == 0 {
      DivModUnique(n, 1, n, 0);
    } else {
      AboveIsQuotient(n, bit - 1);
      DivDiv(n, Pow2(bit - 1), 2);
    }
  }

  /** Going down by one bit brings in that bit. */
  lemma AboveStep(e: U256, bit: nat)
    requires bit < 256
    ensures Above(Val(e), bit) == 2 * Above(Val(e), bit + 1) + Bit(e, bit)
  {
    AboveIsQuotient(Val(e), bit);
    AboveIsQuotient(Val(e), bit + 1);
    BitOfNumber(e, bit);
  }

  lemma AboveTop(e: U256)
    ensures Above(Val(e), 256) == 0
  {
    ValBound(e);
    Pow64IsPow2(4);
    DivModUnique(Val(e), Pow2(256), 0, Val(e));
    AboveIsQuotient(Val(e), 256);
  }

  /** Square-and-multiply from the top bit: the power modulo m, for every 256-bit exponent. */
  method PowMod(base: U256, exp: U256, m: U256, c: seq<u64>) returns (result: U256)
    requires SpecialForm(m, c)
    ensures Val(result) == Pow(Val(base), Val(exp)) % Val(m)
  {
    ghost var mm, b := Val(m), Val(base);
    result := [1, 0, 0, 0];
    Val4(result);
    AboveTop(exp);
    DivModUnique(1, mm, 0, 1);
    var bit := 256;
    while bit > 0
      invariant 0 <= bit <= 256
      invariant Val(result) == Pow(b, Above(Val(exp), bit)) % mm
      invariant bit == 256 ==> result == [1, 0, 0, 0]
    {
      bit := bit - 1;
      ghost var e := Above(Val(exp), bit + 1);
      AboveStep(exp, bit);
      PowStep(b, e, mm);
      if bit != 255 {
        result := MulMod(result, result, m, c);
      }
      assert Val(result) == Pow(b, 2 * e) % mm;
      if Bit(exp, bit) == 1 {
        result := MulMod(result, base, m, c);
      }
    }
  }

  /** Squaring doubles the exponent and multiplying by the base adds one, modulo m. */
  lemma PowStep(b: int, e: nat, m: nat)
    requires m > 1
    ensures (Pow(b, e) % m) * (Pow(b, e) % m) % m == Pow(b, 2 * e) % m
    ensures (Pow(b, 2 * e) % m) * b % m == Pow(b, 2 * e + 1) % m
    ensures e == 0 ==> Pow(b, 2 * e) == 1
  {
    PowAdd(b, e, e);
    ModSquare(Pow(b, e), m);
    ModMul(Pow(b, 2 * e), b, m);
    PowNext(b, 2 * e);
  }

  lemma PowNext(b: int, e: nat)
    ensures Pow(b, e + 1) == Pow(b, e) * b
  {
  }

  lemma ModSquare(x: int, m: nat)
    requires m > 0
    ensures (x % m) * (x % m) % m == (x * x) % m
  {
    CongReduce(x, m);
    CongMul(x % m, x, x % m, x, m);
    CongMod((x % m) * (x % m), x * x, m);
  }

  lemma ModMul(y: int, b: int, m: nat)
    requires m > 0
    ensures (y % m) * b % m == (y * b) % m
  {
    CongReduce(y, m);
    CongRefl(b, m);
    CongMul(y % m, y, b, b, m);
    CongMod((y % m) * b, y * b, m);
  }

  /** Inversion by Fermat's theorem: the product with x is 1, for every x the prime does not divide. */
  method InvMod(x: U256, m: U256, mMinus2: U256, c: seq<u64>) returns (r: U256)
    requires SpecialForm(m, c) && Val(mMinus2) == Val(m) - 2
    ensures Val(r) == Pow(Val(x), Val(m) - 2) % Val(m)
    ensures Prime(Val(m)) && Val(x) % Val(m) != 0 ==> Cong(Val(r) * Val(x), 1, Val(m))
  {
    r := PowMod(x, mMinus2, m, c);
    if Prime(Val(m)) && Val(x) % Val(m) != 0 {
      FermatInverse(Val(m), Val(x), Val(r));
    }
  }

  lemma FermatInverse(p: nat, x: nat, r: nat)
    requires Prime(p) && x % p != 0 && r == Pow(x, p - 2) % p
    ensures Cong(r * x, 1, p)
  {
    var y := Pow(x, p - 2);
    Fermat(p, x);
    CongReduce(y, p);
    CongRefl(x, p);
    CongMul(r, y, x, x, p);
    CongTrans(r * x, y * x, 1, p);
  }

  /** Shift right by two bits, carrying the low bits of each limb into the limb below. */
  method Shr2(a: U256) returns (o: U256)
    ensures Val(o) == Val(a) / 4
  {
    o := [0, 0, 0, 0];
    var carry: u64 := 0;
    var i := 4;
    assert a[4..] == [] && o[4..] == [];
    while i > 0
      invariant 0 <= i <= 4
      invariant 0 <= carry < 4
      invariant Val(a[i..]) == 4 * Val(o[i..]) + carry
    {
      i := i - 1;
      ghost var o0, c0 := o, carry;
      var v: u128 := (carry as int) * BASE + a[i];
      o := o[i := v / 4 % BASE];
      carry := a[i] % 4;
      assert o[i + 1..] == o0[i + 1..];
      ValHead(a, i);
      ValHead(o, i);
      ShrStep(c0, a[i], o[i]);
    }
    assert a[0..] == a && o[0..] == o;
  }

  lemma ShrStep(carry: nat, limb: u64, shifted: int)
    requires carry < 4 && shifted == (carry * BASE + limb) / 4 % BASE
    ensures carry * BASE + limb == 4 * shifted + limb % 4
  {
  }

  lemma ValHead(s: seq<u64>, i: nat)
    requires i < |s|
    ensures Val(s[i..]) == s[i] + BASE * Val(s[i + 1..])
  {
    ValSplit(s[i..], 1);
    ValSnoc(s[i..], 0);
    Powers();
    assert s[i..][1..] == s[i + 1..] && s[i..][..0] == [];
  }
}
