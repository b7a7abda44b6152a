/** Little-endian limb arithmetic of the 256-bit field core: addition with carry, subtraction
    with borrow, the 512-bit accumulator and schoolbook multiplication.

    A number is a sequence of 64-bit limbs, least significant first; `Val` is the number it denotes.
    The 512-bit accumulator, which the program passes by mutable reference, is an array. */
module Limbs {
  import opened ModMath

  const BASE: nat := 0x1_0000_0000_0000_0000

  type u64 = x: int | 0 <= x < 0x1_0000_0000_0000_0000
  type u128 = x: int | 0 <= x < 0x1_0000_0000_0000_0000_0000_0000_0000_0000
  type U256 = s: seq<u64> | |s| == 4 witness [0, 0, 0, 0]

  /** BASE to the power i. */
  function Pow64(i: nat): (p: nat)
    ensures p > 0
  {
    if i == 0 then 1 else BASE * Pow64(i - 1)
  }

  /** The natural number denoted by the limbs. */
  function Val(s: seq<u64>): nat {
    if |s| == 0 then 0 else Val(s[..|s| - 1]) + s[|s| - 1] * Pow64(|s| - 1)
  }

  // ---------------------------------------------------------------------------------------------
  // Facts about the denotation
  // ---------------------------------------------------------------------------------------------

  lemma {:induction false} ValBound(s: seq<u64>)
    ensures Val(s) < Pow64(|s|)
  {
    if |s| > 0 {
      ValBound(s[..|s| - 1]);
      MulMono(s[|s| - 1], BASE - 1, Pow64(|s| - 1));
    }
  }

  lemma ValSnoc(s: seq<u64>, i: nat)
    requires i < |s|
    ensures Val(s[..i + 1]) == Val(s[..i]) + s[i] * Pow64(i)
  {
    assert s[..i + 1][..i] == s[..i];
  }

  lemma {:induction false} Pow64Add(i: nat, j: nat)
    ensures Pow64(i + j) == Pow64(i) * Pow64(j)
  {
    if i > 0 {
      Pow64Add(i - 1, j);
      MulAssoc(BASE, Pow64(i - 1), Pow64(j));
    }
  }

  lemma MulAssoc(x: int, y: int, z: int)
    ensures (x * y) * z == x * (y * z)
  {
  }

  lemma {:induction false} Pow64Mono(i: nat, j: nat)
    requires i <= j
    ensures Pow64(i) <= Pow64(j)
  {
    if i < j { Pow64Mono(i, j - 1); }
  }

  /** Replacing one limb changes the number by the difference at that position. */
  lemma {:induction false} ValUpdate(s: seq<u64>, i: nat, x: u64)
    requires i < |s|
    ensures Val(s[i := x]) == Val(s) + (x - s[i]) * Pow64(i)
  {
    var n := |s| - 1;
    if i == n {
      assert s[i := x][..n] == s[..n];
      Distribute(x, s[i], Pow64(i));
    } else {
      assert s[i := x][..n] == s[..n][i := x];
      ValUpdate(s[..n], i, x);
    }
  }

  lemma Distribute(x: int, y: int, w: int)
    ensures (x - y) * w == x * w - y * w
  {
  }

  /** A number is its low limbs plus its high limbs shifted up. */
  lemma {:induction false} ValSplit(s: seq<u64>, i: nat)
    requires i <= |s|
    ensures Val(s) == Val(s[..i]) + Pow64(i) * Val(s[i..])
  {
    if i == |s| {
      assert s[..i] == s;
    } else {
      var n := |s| - 1;
      assert s[..n][..i] == s[..i] && s[..n][i..] == s[i..][..n - i];
      ValSplit(s[..n], i);
      Pow64Add(i, n - i);
      var w, h, x := Pow64(i), Val(s[i..][..n - i]), s[n];
      calc {
        Val(s);
        Val(s[..i]) + w * h + x * (w * Pow64(n - i));
        { SplitAlgebra(w, h, x, Pow64(n - i)); }
        Val(s[..i]) + w * (h + x * Pow64(n - i));
        Val(s[..i]) + w * Val(s[i..]);
      }
    }
  }

  lemma SplitAlgebra(w: int, h: int, x: int, u: int)
    ensures w * h + x * (w * u) == w * (h + x * u)
  {
  }

  /** Limbs that are all zero denote zero. */
  lemma {:induction false} ValZeros(s: seq<u64>)
    requires forall k :: 0 <= k < |s| ==> s[k] == 0
    ensures Val(s) == 0
  {
    if |s| > 0 { ValZeros(s[..|s| - 1]); }
  }

  /** Equal numbers of equal length have equal limbs. */
  lemma {:induction false} ValInjective(s: seq<u64>, t: seq<u64>)
    requires |s| == |t| && Val(s) == Val(t)
    ensures s == t
  {
    if |s| > 0 {
      var n := |s| - 1;
      var w := Pow64(n);
      ValBound(s[..n]);
      ValBound(t[..n]);
      TopDigitUnique(Val(s[..n]), s[n], Val(t[..n]), t[n], w);
      ValInjective(s[..n], t[..n]);
      assert s == s[..n] + [s[n]] && t == t[..n] + [t[n]];
    }
  }

  lemma TopDigitUnique(a: nat, x: nat, b: nat, y: nat, w: nat)
    requires a < w && b < w && a + x * w == b + y * w
    ensures a == b && x == y
  {
    if x < y { MulMono(x + 1, y, w); Distribute(x + 1, 1, w); }
    if y < x { MulMono(y + 1, x, w); Distribute(y + 1, 1, w); }
  }

  // ---------------------------------------------------------------------------------------------
  // Comparison, addition and subtraction
  // ---------------------------------------------------------------------------------------------

  /** Compare from the most significant limb down. */
  method Ge(a: U256, b: U256) returns (r: bool)
    ensures r <==> Val(a) >= Val(b)
  {
    var i := 4;
    assert a[..4] == a && b[..4] == b;
    while i > 0
      invariant 0 <= i <= 4
      invariant Val(a) - Val(b) == Val(a[..i]) - Val(b[..i])
    {
      i := i - 1;
      ValSnoc(a, i);
      ValSnoc(b, i);
      if a[i] != b[i] {
        ValBound(a[..i]);
        ValBound(b[..i]);
        if a[i] > b[i] { MulMono(b[i] + 1, a[i], Pow64(i)); Distribute(b[i] + 1, 1, Pow64(i)); }
        else { MulMono(a[i] + 1, b[i], Pow64(i)); Distribute(a[i] + 1, 1, Pow64(i)); }
        return a[i] > b[i];
      }
    }
    return true;
  }

  /** Ripple-carry addition. */
  method Addc(a: U256, b: U256) returns (o: U256, carry: u64)
    ensures Val(o) + carry * Pow64(4) == Val(a) + Val(b)
    ensures carry <= 1
  {
    o := [0, 0, 0, 0];
    carry := 0;
    for i := 0 to 4
      invariant carry <= 1
      invariant Val(o[..i]) + carry * Pow64(i) == Val(a[..i]) + Val(b[..i])
    {
      var s: u128 := a[i] + b[i] + carry;
      ghost var o0, c0 := o, carry;
      o := o[i := s % BASE];
      carry := s / BASE;
      assert o[..i] == o0[..i];
      ValSnoc(o, i); ValSnoc(a, i); ValSnoc(b, i);
      CarryStep(a[i], b[i], c0, s % BASE, s / BASE, Pow64(i));
    }
    assert o[..4] == o && a[..4] == a && b[..4] == b;
  }

  lemma CarryStep(x: int, y: int, c: int, lo: int, hi: int, w: int)
    requires x + y + c == lo + hi * BASE
    ensures x * w + y * w + c * w == lo * w + hi * (BASE * w)
  {
    assert (x + y + c) * w == x * w + y * w + c * w;
    assert (lo + hi * BASE) * w == lo * w + hi * (BASE * w);
  }

  /** Ripple-borrow subtraction. */
  method SubBorrow(a: U256, b: U256) returns (o: U256, borrow: u64)
    ensures Val(o) == Val(a) - Val(b) + borrow * Pow64(4)
    ensures borrow == if Val(a) < Val(b) then 1 else 0
  {
    o := [0, 0, 0, 0];
    borrow := 0;
    for i := 0 to 4
      invariant borrow <= 1
      invariant Val(o[..i]) + Val(b[..i]) == Val(a[..i]) + borrow * Pow64(i)
    {
      ghost var o0, c0 := o, borrow;
      var bi: u128 := b[i] + borrow;
      if a[i] >= bi {
        o := o[i := a[i] - bi];
        borrow := 0;
      } else {
        o := o[i := a[i] + BASE - bi];
        borrow := 1;
      }
      assert o[..i] == o0[..i];
      ValSnoc(o, i); ValSnoc(a, i); ValSnoc(b, i);
      CarryStep(o[i], b[i], c0, a[i], borrow, Pow64(i));
    }
    assert o[..4] == o && a[..4] == a && b[..4] == b;
    ValBound(o);
    ValBound(a);
    ValBound(b);
  }

  // ---------------------------------------------------------------------------------------------
  // The 512-bit accumulator
  // ---------------------------------------------------------------------------------------------

  /** Add a 128-bit value at limb position i. The caller guarantees that the sum fits in the eight
      limbs, which is what the program asserts after its loop. */
  method AddWordAt(t: array<u64>, v: u128, i: nat)
    requires t.Length == 8 && i <= 8
    requires Val(t[..]) + v * Pow64(i) < Pow64(8)
    modifies t
    ensures Val(t[..]) == Val(old(t[..])) + v * Pow64(i)
  {
    var rest, k := v, i;
    while rest != 0 && k < 8
      invariant i <= k <= 8
      invariant 0 <= rest < BASE * BASE
      invariant Val(t[..]) + rest * Pow64(k) == Val(old(t[..])) + v * Pow64(i)
      decreases 8 - k
    {
      ghost var before := t[..];
      var sum: u128 := t[k] + rest % BASE;
      t[k] := sum % BASE;
      assert t[..] == before[k := sum % BASE];
      ValUpdate(before, k, sum % BASE);
      WordStep(before[k], rest, sum, Pow64(k));
      rest := sum / BASE + rest / BASE;
      k := k + 1;
    }
    if rest != 0 { MulMono(1, rest, Pow64(8)); }
  }

  lemma WordStep(x: int, rest: nat, sum: nat, w: int)
    requires sum == x + rest % BASE
    ensures (sum % BASE - x) * w + (sum / BASE + rest / BASE) * (BASE * w) == rest * w
  {
    var lo, hi := sum % BASE, sum / BASE + rest / BASE;
    assert (lo - x) + hi * BASE == rest;
    assert ((lo - x) + hi * BASE) * w == (lo - x) * w + hi * (BASE * w);
  }

  /** Schoolbook multiplication: no carry ever leaves the accumulator. */
  method MulFull(a: U256, b: U256) returns (t: array<u64>)
    ensures fresh(t) && t.Length == 8
    ensures Val(t[..]) == Val(a) * Val(b)
  {
    t := new u64[8](_ => 0);
    ValZeros(t[..]);
    assert a[..0] == [];
    for i := 0 to 4
      invariant Val(t[..]) == Val(a[..i]) * Val(b)
    {
      assert b[..0] == [];
      for j := 0 to 4
        invariant Val(t[..]) == Val(a[..i]) * Val(b) + (a[i] * Pow64(i)) * Val(b[..j])
      {
        MulSmall(a[i], b[j]);
        var prod: u128 := (a[i] as int) * (b[j] as int);
        ProductFits(a, b, i, j);
        AddWordAt(t, prod, i + j);
        ValSnoc(b, j);
      }
      assert b[..4] == b;
      ValSnoc(a, i);
      RowAlgebra(Val(a[..i]), a[i] * Pow64(i), Val(b));
    }
    assert a[..4] == a;
  }

  lemma RowAlgebra(x: int, y: int, z: int)
    ensures x * z + y * z == (x + y) * z
  {
  }

  lemma MulSmall(x: u64, y: u64)
    ensures 0 <= x * y <= (BASE - 1) * (BASE - 1)
  {
    MulMono(x, BASE - 1, y);
    MulMono(y, BASE - 1, BASE - 1);
  }

  /** One partial product moves the running sum from row i, column j to row i, column j + 1, and
      stays within the full product. */
  lemma ProductFits(a: U256, b: U256, i: nat, j: nat)
    requires i < 4 && j < 4
    ensures (a[i] * Pow64(i)) * Val(b[..j]) + (a[i] * b[j]) * Pow64(i + j) == (a[i] * Pow64(i)) * Val(b[..j + 1])
    ensures Val(a[..i]) * Val(b) + (a[i] * Pow64(i)) * Val(b[..j + 1]) < Pow64(8)
  {
    ValSnoc(b, j);
    Pow64Add(i, j);
    ColumnAlgebra(a[i], Pow64(i), Val(b[..j]), b[j], Pow64(j));
    RowFits(a, b, i, j);
  }

  lemma RowFits(a: U256, b: U256, i: nat, j: nat)
    requires i < 4 && j < 4
    ensures Val(a[..i]) * Val(b) + (a[i] * Pow64(i)) * Val(b[..j + 1]) < Pow64(8)
  {
    ValPrefix(b, j + 1);
    ValPrefix(a, i + 1);
    ValSnoc(a, i);
    ProductBound(a, b);
    RowBelow(Val(a[..i]), a[i], Pow64(i), Val(b[..j + 1]), Val(a), Val(b), Pow64(8));
  }

  lemma RowBelow(low: nat, x: nat, w: nat, part: nat, a: nat, b: nat, limit: int)
    requires low + x * w <= a && part <= b && a * b < limit
    ensures low * b + (x * w) * part < limit
  {
    MulMono(0, x, w);
    RowBound(low, x * w, part, a, b);
  }

  lemma RowBound(low: nat, x: nat, part: nat, a: nat, b: nat)
    requires low + x <= a && part <= b
    ensures low * b + x * part <= a * b
  {
    MulMono(part, b, x);
    RowAlgebra(low, x, b);
    MulMono(low + x, a, b);
  }

  lemma ColumnAlgebra(x: int, w: int, p: int, y: int, u: int)
    ensures (x * w) * p + (x * y) * (w * u) == (x * w) * (p + y * u)
  {
    assert (x * y) * (w * u) == (x * w) * (y * u);
  }

  lemma ValPrefix(s: seq<u64>, i: nat)
    requires i <= |s|
    ensures Val(s[..i]) <= Val(s)
  {
    ValSplit(s, i);
  }

  lemma ProductBound(a: U256, b: U256)
    ensures Val(a) * Val(b) < Pow64(8)
  {
    ValBound(a);
    ValBound(b);
    Pow64Add(4, 4);
    MulMono(Val(a), Pow64(4) - 1, Val(b));
    MulMono(Val(b), Pow64(4) - 1, Pow64(4) - 1);
  }
}
