/** 64-bit words as lanes, bit by bit: the permutation on words is that of FIPS 202. */
module KeccakWords {
  import opened Keccak
  import opened KeccakRounds
  import opened KeccakBits

  // Places in a word are counted in six bits, which is modulo 64.

  function Further(z: bv6, n: nat): bv6 {
    if n == 0 then z else Further(z, n - 1) + 1
  }

  predicate At(v: bv64, z: bv6) {
    (v >> z) & 1 == 1
  }

  /** Bit z of a word, counted from the least significant. */
  predicate Bit(v: bv64, z: nat) {
    At(v, Further(0, z))
  }

  lemma XorLow(a: bv64, b: bv64, z: bv6)
    requires z < 32
    ensures At(a ^ b, z) <==> At(a, z) != At(b, z)
  {
  }

  lemma XorHigh(a: bv64, b: bv64, z: bv6)
    requires z >= 32
    ensures At(a ^ b, z) <==> At(a, z) != At(b, z)
  {
  }

  lemma XorAt(a: bv64, b: bv64, z: bv6)
    ensures At(Xor64(a, b), z) <==> At(a, z) != At(b, z)
  {
    if z < 32 { XorLow(a, b, z); } else { XorHigh(a, b, z); }
  }

  lemma AndNotAt(a: bv64, b: bv64, z: bv6)
    ensures At(AndNot64(a, b), z) <==> !At(a, z) && At(b, z)
  {
  }

  lemma RotateOneAt(a: bv64, z: bv6)
    ensures At(a.RotateLeft(1), z + 1) == At(a, z)
  {
  }

  lemma {:induction false} RotateAt(a: bv64, n: nat, z: bv6)
    ensures At(Rotl64(a, n), Further(z, n)) == At(a, z)
  {
    if n > 0 {
      RotateAt(a, n - 1, z);
      RotateOneAt(Rotl64(a, n - 1), Further(z, n - 1));
    }
  }

  lemma {:induction false} FurtherAdds(z: bv6, m: nat, n: nat)
    ensures Further(z, m + n) == Further(Further(z, m), n)
  {
    if n > 0 { FurtherAdds(z, m, n - 1); }
  }

  lemma Further8(z: bv6)
    ensures Further(z, 8) == z + 8
  {
    assert Further(z, 1) == z + 1 && Further(z, 2) == z + 2 && Further(z, 3) == z + 3 && Further(z, 4) == z + 4;
    assert Further(z, 5) == z + 5 && Further(z, 6) == z + 6 && Further(z, 7) == z + 7;
  }

  lemma Further64(z: bv6)
    ensures Further(z, 64) == z
  {
    Further8(z);
    FurtherAdds(z, 8, 8);
    Further8(z + 8);
    FurtherAdds(z, 16, 16);
    FurtherAdds(z + 16, 8, 8);
    Further8(z + 16);
    Further8(z + 24);
    FurtherAdds(z, 32, 32);
    FurtherAdds(z + 32, 8, 24);
    FurtherAdds(z + 40, 8, 16);
    FurtherAdds(z + 48, 8, 8);
    Further8(z + 32);
    Further8(z + 40);
    Further8(z + 48);
    Further8(z + 56);
  }

  lemma {:induction false} FurtherMod(z: bv6, n: nat, m: nat)
    requires m == n % 64
    ensures Further(z, n) == Further(z, m)
  {
    if n >= 64 {
      FurtherMod(z, n - 64, m);
      FurtherAdds(z, n - 64, 64);
      Further64(Further(z, n - 64));
    }
  }

  lemma PlaceAfter(i: nat, n: nat, m: nat)
    requires m == (i + n) % 64
    ensures Further(0, m) == Further(Further(0, i), n)
  {
    FurtherAdds(0, i, n);
    FurtherMod(0, i + n, m);
  }

  lemma BitAtPlace(v: bv64, z: nat, w: bv6)
    requires w == Further(0, z)
    ensures Bit(v, z) == At(v, w)
  {
  }

  /** Rotating by n moves bit i to place i + n, modulo 64. */
  lemma RotatedBit(a: bv64, n: nat, i: nat, m: nat)
    requires m == (i + n) % 64
    ensures Bit(Rotl64(a, n), m) == Bit(a, i)
  {
    var w := Further(0, i);
    PlaceAfter(i, n, m);
    RotateAt(a, n, w);
    BitAtPlace(a, i, w);
    BitAtPlace(Rotl64(a, n), m, Further(w, n));
  }

  lemma XorBit(a: bv64, b: bv64, z: nat)
    ensures Bit(Xor64(a, b), z) == Odd(Bit(a, z), Bit(b, z))
  {
    XorAt(a, b, Further(0, z));
  }

  lemma AndNotBit(a: bv64, b: bv64, z: nat)
    ensures Bit(AndNot64(a, b), z) == (!Bit(a, z) && Bit(b, z))
  {
    AndNotAt(a, b, Further(0, z));
  }

  const VIEW: View<bv64> := View(WORDS, Bit)

  lemma WordsAreBitwise()
    ensures Bitwise(VIEW)
  {
    forall a: bv64, b: bv64, z: nat | z < 64 ensures XorRule(VIEW, a, b, z) && AndNotRule(VIEW, a, b, z) {
      XorBit(a, b, z);
      AndNotBit(a, b, z);
    }
    forall a: bv64, n: nat, z: nat | z < 64 ensures RotateRule(VIEW, a, n, z) {
      RotatedFrom(a, n, z, (z + (64 - n % 64)) % 64);
    }
  }

  lemma RotatedFrom(a: bv64, n: nat, z: nat, i: nat)
    requires z < 64 && i == (z + (64 - n % 64)) % 64
    ensures Bit(Rotl64(a, n), z) == Bit(a, i)
  {
    RoundTrip(z, n, i);
    RotatedBit(a, n, i, z);
  }

  lemma RoundTrip(z: nat, n: nat, i: nat)
    requires z < 64 && i == (z + (64 - n % 64)) % 64
    ensures z == (i + n) % 64
  {
  }

  // ---------------------------------------------------------------------------------------------
  // The round constants
  // ---------------------------------------------------------------------------------------------

  /** The shift register after t steps, from 1. */
  function RegisterAt(t: nat): bv8 {
    if t == 0 then 1 else Shift(RegisterAt(t - 1))
  }

  /** Its output. */
  predicate Output(t: nat) {
    RegisterAt(t) & 1 == 1
  }

  /** Bit 2^j - 1 of the constant of round t is output j + 7 t; all others are zero. */
  predicate ConstantBit(t: nat, z: nat) {
    if z == 0 then Output(7 * t)
    else if z == 1 then Output(7 * t + 1)
    else if z == 3 then Output(7 * t + 2)
    else if z == 7 then Output(7 * t + 3)
    else if z == 15 then Output(7 * t + 4)
    else if z == 31 then Output(7 * t + 5)
    else z == 63 && Output(7 * t + 6)
  }

  lemma SevenBitsAt(r: bv8, w: bv6)
    ensures At(SevenBits(r), w) ==
              if w == 0 then r & 1 == 1
              else if w == 1 then Shift(r) & 1 == 1
              else if w == 3 then Shift(Shift(r)) & 1 == 1
              else if w == 7 then Shift(Shift(Shift(r))) & 1 == 1
              else if w == 15 then Shift(Shift(Shift(Shift(r)))) & 1 == 1
              else if w == 31 then Shift(Shift(Shift(Shift(Shift(r))))) & 1 == 1
              else w == 63 && Shift(Shift(Shift(Shift(Shift(Shift(r)))))) & 1 == 1
  {
  }

  lemma RegisterNext(n: nat)
    ensures RegisterAt(n + 1) == Shift(RegisterAt(n))
  {
  }

  lemma SevenOutputs(n: nat)
    ensures SevenSteps(RegisterAt(n)) == RegisterAt(n + 7)
    ensures RegisterAt(n + 1) == Shift(RegisterAt(n)) && RegisterAt(n + 2) == Shift(RegisterAt(n + 1))
    ensures RegisterAt(n + 3) == Shift(RegisterAt(n + 2)) && RegisterAt(n + 4) == Shift(RegisterAt(n + 3))
    ensures RegisterAt(n + 5) == Shift(RegisterAt(n + 4)) && RegisterAt(n + 6) == Shift(RegisterAt(n + 5))
  {
    RegisterNext(n);
    RegisterNext(n + 1);
    RegisterNext(n + 2);
    RegisterNext(n + 3);
    RegisterNext(n + 4);
    RegisterNext(n + 5);
    RegisterNext(n + 6);
  }

  lemma {:induction false} RegisterIs(t: nat)
    ensures Register(t) == RegisterAt(7 * t)
  {
    if t > 0 {
      RegisterIs(t - 1);
      SevenOutputs(7 * (t - 1));
    }
  }

  /** The place r places after a multiple of eight is r after it. */
  function Unit(r: nat): bv6
    requires r < 8
  {
    match r case 0 => 0 case 1 => 1 case 2 => 2 case 3 => 3 case 4 => 4 case 5 => 5 case 6 => 6 case _ => 7
  }

  lemma Units(w: bv6, r: nat)
    requires r < 8
    ensures Further(w, r) == w + Unit(r)
  {
    assert Further(w, 1) == w + 1 && Further(w, 2) == w + 2 && Further(w, 3) == w + 3 && Further(w, 4) == w + 4;
    assert Further(w, 5) == w + 5 && Further(w, 6) == w + 6 && Further(w, 7) == w + 7;
  }

  /** The place at which byte q begins. */
  function Octet(q: nat): bv6
    requires q < 8
  {
    match q case 0 => 0 case 1 => 8 case 2 => 16 case 3 => 24 case 4 => 32 case 5 => 40 case 6 => 48 case _ => 56
  }

  lemma {:induction false} Octets(q: nat)
    requires q < 8
    ensures Further(0, 8 * q) == Octet(q)
  {
    if q > 0 {
      Octets(q - 1);
      FurtherAdds(0, 8 * (q - 1), 8);
      Further8(Octet(q - 1));
    }
  }

  /** A place is that of its byte and its bit in the byte. */
  lemma PlaceParts(z: nat, q: nat, r: nat)
    requires q < 8 && r < 8 && z == 8 * q + r
    ensures Further(0, z) == Further(Octet(q), r)
  {
    FurtherAdds(0, 8 * q, r);
    Octets(q);
  }

  lemma SumIs(o: bv6, u: bv6, w: bv6)
    requires o & 7 == 0 && u & 56 == 0
    ensures o + u == w <==> o == w & 56 && u == w & 7
  {
  }

  lemma OctetIs(q: nat, k: nat)
    requires q < 8 && k < 8
    ensures Octet(q) == Octet(k) <==> q == k
    ensures Octet(q) & 7 == 0
  {
  }

  lemma UnitIs(r: nat, k: nat)
    requires r < 8 && k < 8
    ensures Unit(r) == Unit(k) <==> r == k
    ensures Unit(r) & 56 == 0
  {
  }

  /** Different places are different numbers of six bits. */
  lemma PlaceIs(z: nat, q: nat, r: nat, w: bv6, i: nat, k: nat)
    requires q < 8 && r < 8 && z == 8 * q + r
    requires i < 8 && k < 8 && w & 56 == Octet(i) && w & 7 == Unit(k)
    ensures Further(0, z) == w <==> z == 8 * i + k
  {
    PlaceParts(z, q, r);
    Units(Octet(q), r);
    OctetIs(q, i);
    UnitIs(r, k);
    SumIs(Octet(q), Unit(r), w);
  }

  /** The constants of the program are those of section 3.2.5, bit by bit. */
  lemma ConstantBits(t: nat, z: nat)
    requires t < 24 && z < 64
    ensures Bit(RC[t], z) == ConstantBit(t, z)
  {
    RoundConstants(t);
    RegisterIs(t);
    SevenOutputs(7 * t);
    ConstantAt(RegisterAt(7 * t), t, z, Further(0, z));
  }

  lemma ConstantAt(r: bv8, t: nat, z: nat, w: bv6)
    requires z < 64 && w == Further(0, z) && r == RegisterAt(7 * t)
    ensures At(SevenBits(r), w) == ConstantBit(t, z)
  {
    SevenOutputs(7 * t);
    SevenBitsAt(r, w);
    PlaceIs(z, z / 8, z % 8, 0, 0, 0);
    PlaceIs(z, z / 8, z % 8, 1, 0, 1);
    PlaceIs(z, z / 8, z % 8, 3, 0, 3);
    PlaceIs(z, z / 8, z % 8, 7, 0, 7);
    PlaceIs(z, z / 8, z % 8, 15, 1, 7);
    PlaceIs(z, z / 8, z % 8, 31, 3, 7);
    PlaceIs(z, z / 8, z % 8, 63, 7, 7);
  }

  /** The offsets are those of the walk of section 3.2.2. */
  lemma OffsetsFollowWalk(t: nat, offsets: seq<nat>)
    requires t < 24 && offsets == OFFSETS
    ensures 0 < LaneAt(t) < 25 && offsets[LaneAt(t)] == (t + 1) * (t + 2) / 2 % 64
  {
    Keccak.Tables();
    LanesOfWalk(PILANE, ROT, STEP, offsets, t);
    assert TableRow(PILANE, ROT, STEP, offsets, t + 1);
  }

  /** The permutation on words is the 24 rounds of FIPS 202 on bits. */
  lemma KeccakFBits(s: seq<bv64>, b: Bits)
    requires Denotes(VIEW, s, b)
    ensures Denotes(VIEW, KeccakF(s), RoundsOf(b, OFFSETS, ConstantBit, |RC|))
    ensures |RC| == 24
  {
    WordsAreBitwise();
    forall t: nat, z: nat | t < |RC| && z < 64 ensures VIEW.bit(RC[t], z) == ConstantBit(t, z) { ConstantBits(t, z); }
    RoundsBits(VIEW, s, b, OFFSETS, RC, ConstantBit);
  }
}
