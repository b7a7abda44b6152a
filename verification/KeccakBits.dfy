/** Keccak-f bit by bit, as FIPS 202 defines it on the state array A[x, y, z], and that the mappings
    on lanes are these. */
module KeccakBits {
  import opened Keccak
  import opened KeccakRounds

  predicate Odd(a: bool, b: bool) {
    a != b
  }

  /** A state array. */
  type Bits = (nat, nat, nat) -> bool

  // ---------------------------------------------------------------------------------------------
  // The step mappings on bits: sections 3.2.1 to 3.2.5 of FIPS 202
  // ---------------------------------------------------------------------------------------------

  /** The parity of a column. */
  predicate Parity(b: Bits, x: nat, z: nat) {
    Odd(Odd(Odd(Odd(b(x, 0, z), b(x, 1, z)), b(x, 2, z)), b(x, 3, z)), b(x, 4, z))
  }

  /** A[x, y, z] and the parities of columns (x - 1, z) and (x + 1, z - 1). */
  predicate ThetaAt(b: Bits, x: nat, y: nat, z: nat) {
    Odd(b(x, y, z), Odd(Parity(b, (x + 4) % 5, z), Parity(b, (x + 1) % 5, (z + 63) % 64)))
  }

  function ThetaOf(b: Bits): Bits {
    (x: nat, y: nat, z: nat) => ThetaAt(b, x, y, z)
  }

  /** A[x, y, z - offset]. */
  function RhoOf(b: Bits, offsets: seq<nat>): Bits {
    (x: nat, y: nat, z: nat) => b(x, y, (z + (64 - OffsetOf(offsets, x, y))) % 64)
  }

  function OffsetOf(offsets: seq<nat>, x: nat, y: nat): (n: nat)
    ensures n < 64
  {
    if x + 5 * y < |offsets| then offsets[x + 5 * y] % 64 else 0
  }

  /** A[x + 3 y, x, z]. */
  predicate PiAt(b: Bits, x: nat, y: nat, z: nat) {
    b((x + 3 * y) % 5, x, z)
  }

  function PiOf(b: Bits): Bits {
    (x: nat, y: nat, z: nat) => PiAt(b, x, y, z)
  }

  /** A[x, y, z], and the product of A[x + 1, y, z] complemented with A[x + 2, y, z]. */
  function ChiOf(b: Bits): Bits {
    (x: nat, y: nat, z: nat) => Odd(b(x, y, z), !b((x + 1) % 5, y, z) && b((x + 2) % 5, y, z))
  }

  /** The bits of a round constant into lane (0, 0). */
  function IotaOf(b: Bits, constant: nat -> bool): Bits {
    (x: nat, y: nat, z: nat) => if x == 0 && y == 0 then Odd(b(x, y, z), constant(z)) else b(x, y, z)
  }

  function RoundOf(b: Bits, offsets: seq<nat>, constant: nat -> bool): Bits {
    IotaOf(ChiOf(PiOf(RhoOf(ThetaOf(b), offsets))), constant)
  }

  function RoundsOf(b: Bits, offsets: seq<nat>, constants: (nat, nat) -> bool, n: nat): Bits {
    if n == 0 then b else RoundOf(RoundsOf(b, offsets, constants, n - 1), offsets, (z: nat) => constants(n - 1, z))
  }

  // ---------------------------------------------------------------------------------------------
  // Lanes as bits
  // ---------------------------------------------------------------------------------------------

  /** Lanes with their operations, and how to look at their bits. */
  datatype View<!L> = View(o: Lanes<L>, bit: (L, nat) -> bool)

  ghost predicate XorRule<L>(v: View<L>, a: L, b: L, z: nat) {
    v.bit(v.o.xor(a, b), z) == Odd(v.bit(a, z), v.bit(b, z))
  }

  ghost predicate AndNotRule<L>(v: View<L>, a: L, b: L, z: nat) {
    v.bit(v.o.andNot(a, b), z) == (!v.bit(a, z) && v.bit(b, z))
  }

  /** Rotating to the left by n brings bit z - n to place z, modulo 64. */
  ghost predicate RotateRule<L>(v: View<L>, a: L, n: nat, z: nat) {
    v.bit(v.o.rotl(a, n), z) == v.bit(a, (z + (64 - n % 64)) % 64)
  }

  ghost predicate Bitwise<L(!new)>(v: View<L>) {
    && (forall a: L, b: L, z: nat | z < 64 :: XorRule(v, a, b, z) && AndNotRule(v, a, b, z))
    && (forall a: L, n: nat, z: nat | z < 64 :: RotateRule(v, a, n, z))
  }

  /** Lane (x, y) holds A[x, y, 0], ..., A[x, y, 63]. */
  ghost predicate LaneIs<L>(v: View<L>, lane: L, b: Bits, x: nat, y: nat, z: nat) {
    v.bit(lane, z) == b(x, y, z)
  }

  ghost predicate Denotes<L>(v: View<L>, s: seq<L>, b: Bits) {
    |s| == 25 && forall k: nat, z: nat | k < 25 && z < 64 :: LaneIs(v, s[k], b, k % 5, k / 5, z)
  }

  lemma Coordinates(x: nat, y: nat)
    requires x < 5 && y < 5
    ensures (x + 5 * y) % 5 == x && (x + 5 * y) / 5 == y && x + 5 * y < 25
  {
  }

  lemma Look<L>(v: View<L>, s: seq<L>, b: Bits, x: nat, y: nat, z: nat)
    requires Denotes(v, s, b) && x < 5 && y < 5 && z < 64
    ensures v.bit(s[x + 5 * y], z) == b(x, y, z)
  {
    Coordinates(x, y);
    assert LaneIs(v, s[x + 5 * y], b, (x + 5 * y) % 5, (x + 5 * y) / 5, z);
  }

  lemma ColumnBit<L(!new)>(v: View<L>, s: seq<L>, b: Bits, x: nat, z: nat)
    requires Bitwise(v) && Denotes(v, s, b) && x < 5 && z < 64
    ensures v.bit(Column(v.o, s, x), z) == Parity(b, x, z)
  {
    var c1 := v.o.xor(s[x], s[x + 5]);
    var c2 := v.o.xor(c1, s[x + 10]);
    var c3 := v.o.xor(c2, s[x + 15]);
    assert XorRule(v, s[x], s[x + 5], z) && XorRule(v, c1, s[x + 10], z);
    assert XorRule(v, c2, s[x + 15], z) && XorRule(v, c3, s[x + 20], z);
    Look(v, s, b, x, 0, z);
    Look(v, s, b, x, 1, z);
    Look(v, s, b, x, 2, z);
    Look(v, s, b, x, 3, z);
    Look(v, s, b, x, 4, z);
  }

  lemma MaskBit<L(!new)>(v: View<L>, s: seq<L>, b: Bits, x: nat, left: nat, right: nat, z: nat, below: nat)
    requires Bitwise(v) && Denotes(v, s, b) && x < 5 && z < 64
    requires left == (x + 4) % 5 && right == (x + 1) % 5 && below == (z + 63) % 64
    ensures v.bit(ThetaMask(v.o, s, x), z) == Odd(Parity(b, left, z), Parity(b, right, below))
  {
    ColumnBit(v, s, b, left, z);
    ColumnBit(v, s, b, right, below);
    var c, d := Column(v.o, s, left), Column(v.o, s, right);
    assert RotateRule(v, d, 1, z);
    assert XorRule(v, c, v.o.rotl(d, 1), z);
  }

  lemma ThetaBits<L(!new)>(v: View<L>, s: seq<L>, b: Bits)
    requires Bitwise(v) && Denotes(v, s, b)
    ensures Denotes(v, Theta(v.o, s), ThetaOf(b))
  {
    forall k: nat, z: nat | k < 25 && z < 64 ensures LaneIs(v, Theta(v.o, s)[k], ThetaOf(b), k % 5, k / 5, z) {
      ThetaBit(v, s, b, k, k % 5, k / 5, (k % 5 + 4) % 5, (k % 5 + 1) % 5, z, (z + 63) % 64);
    }
  }

  lemma ThetaBit<L(!new)>(v: View<L>, s: seq<L>, b: Bits, k: nat, x: nat, y: nat, left: nat, right: nat, z: nat, below: nat)
    requires Bitwise(v) && Denotes(v, s, b) && k < 25 && x == k % 5 && y == k / 5 && z < 64
    requires left == (x + 4) % 5 && right == (x + 1) % 5 && below == (z + 63) % 64
    ensures LaneIs(v, Theta(v.o, s)[k], ThetaOf(b), x, y, z)
  {
    MaskBit(v, s, b, x, left, right, z, below);
    assert LaneIs(v, s[k], b, k % 5, k / 5, z);
    ThetaLane(v.o, s, k, x);
    XorOne(v, s[k], ThetaMask(v.o, s, x), z);
    ThetaAtIs(b, x, y, z, left, right, below);
  }

  lemma ThetaLane<L>(o: Lanes<L>, s: seq<L>, k: nat, x: nat)
    requires |s| == 25 && k < 25 && x == k % 5
    ensures Theta(o, s)[k] == o.xor(s[k], ThetaMask(o, s, x))
  {
  }

  lemma XorOne<L(!new)>(v: View<L>, a: L, c: L, z: nat)
    requires Bitwise(v) && z < 64
    ensures v.bit(v.o.xor(a, c), z) == Odd(v.bit(a, z), v.bit(c, z))
  {
    assert XorRule(v, a, c, z);
  }

  lemma ThetaAtIs(b: Bits, x: nat, y: nat, z: nat, left: nat, right: nat, below: nat)
    requires left == (x + 4) % 5 && right == (x + 1) % 5 && below == (z + 63) % 64
    ensures ThetaOf(b)(x, y, z) == Odd(b(x, y, z), Odd(Parity(b, left, z), Parity(b, right, below)))
  {
  }

  /** Lane (0, 0) is not rotated, and its offset is zero. */
  lemma RhoBits<L(!new)>(v: View<L>, s: seq<L>, b: Bits, offsets: seq<nat>)
    requires Bitwise(v) && Denotes(v, s, b) && |offsets| == 25 && offsets[0] == 0
    ensures Denotes(v, Rho(v.o, s, offsets), RhoOf(b, offsets))
  {
    forall k: nat, z: nat | k < 25 && z < 64 ensures LaneIs(v, Rho(v.o, s, offsets)[k], RhoOf(b, offsets), k % 5, k / 5, z) {
      RhoBit(v, s, b, offsets, k, k % 5, k / 5, z);
    }
  }

  lemma RhoBit<L(!new)>(v: View<L>, s: seq<L>, b: Bits, offsets: seq<nat>, k: nat, x: nat, y: nat, z: nat)
    requires Bitwise(v) && Denotes(v, s, b) && |offsets| == 25 && offsets[0] == 0
    requires k < 25 && x == k % 5 && y == k / 5 && z < 64
    ensures LaneIs(v, Rho(v.o, s, offsets)[k], RhoOf(b, offsets), x, y, z)
  {
    var from := (z + (64 - offsets[k] % 64)) % 64;
    assert k == x + 5 * y && OffsetOf(offsets, x, y) == offsets[k] % 64;
    assert LaneIs(v, s[k], b, k % 5, k / 5, from);
    assert RotateRule(v, s[k], offsets[k], z);
  }

  lemma PiBits<L>(v: View<L>, s: seq<L>, b: Bits)
    requires Denotes(v, s, b)
    ensures Denotes(v, Pi(s), PiOf(b))
  {
    forall k: nat, z: nat | k < 25 && z < 64 ensures LaneIs(v, Pi(s)[k], PiOf(b), k % 5, k / 5, z) {
      PiBit(v, s, b, k, k % 5, k / 5, z);
    }
  }

  lemma PiBit<L>(v: View<L>, s: seq<L>, b: Bits, k: nat, x: nat, y: nat, z: nat)
    requires Denotes(v, s, b) && k < 25 && x == k % 5 && y == k / 5 && z < 64
    ensures LaneIs(v, Pi(s)[k], PiOf(b), x, y, z)
  {
    var from := (x + 3 * y) % 5;
    PiLane(s, k, x, y, from);
    Look(v, s, b, from, x, z);
    PiOfAt(b, x, y, z, from);
  }

  lemma PiLane<L>(s: seq<L>, k: nat, x: nat, y: nat, from: nat)
    requires |s| == 25 && k < 25 && x == k % 5 && y == k / 5 && from == (x + 3 * y) % 5
    ensures Pi(s)[k] == s[from + 5 * x]
  {
  }

  lemma PiOfAt(b: Bits, x: nat, y: nat, z: nat, from: nat)
    requires from == (x + 3 * y) % 5
    ensures PiOf(b)(x, y, z) == b(from, x, z)
  {
    assert PiAt(b, x, y, z) == b(from, x, z);
  }

  lemma ChiBits<L(!new)>(v: View<L>, s: seq<L>, b: Bits)
    requires Bitwise(v) && Denotes(v, s, b)
    ensures Denotes(v, Chi(v.o, s), ChiOf(b))
  {
    forall k: nat, z: nat | k < 25 && z < 64 ensures LaneIs(v, Chi(v.o, s)[k], ChiOf(b), k % 5, k / 5, z) {
      ChiBit(v, s, b, k, k % 5, k / 5, (k % 5 + 1) % 5, (k % 5 + 2) % 5, z);
    }
  }

  lemma ChiBit<L(!new)>(v: View<L>, s: seq<L>, b: Bits, k: nat, x: nat, y: nat, x1: nat, x2: nat, z: nat)
    requires Bitwise(v) && Denotes(v, s, b) && k < 25 && x == k % 5 && y == k / 5 && z < 64
    requires x1 == (x + 1) % 5 && x2 == (x + 2) % 5
    ensures LaneIs(v, Chi(v.o, s)[k], ChiOf(b), x, y, z)
  {
    var c, d, e := s[x + 5 * y], s[x1 + 5 * y], s[x2 + 5 * y];
    assert Chi(v.o, s)[k] == v.o.xor(c, v.o.andNot(d, e));
    Look(v, s, b, x, y, z);
    Look(v, s, b, x1, y, z);
    Look(v, s, b, x2, y, z);
    ChiOne(v, c, d, e, z);
  }

  lemma ChiOne<L(!new)>(v: View<L>, c: L, d: L, e: L, z: nat)
    requires Bitwise(v) && z < 64
    ensures v.bit(v.o.xor(c, v.o.andNot(d, e)), z) == Odd(v.bit(c, z), !v.bit(d, z) && v.bit(e, z))
  {
    assert AndNotRule(v, d, e, z) && XorRule(v, c, v.o.andNot(d, e), z);
  }

  lemma IotaBits<L(!new)>(v: View<L>, s: seq<L>, b: Bits, c: L, constant: nat -> bool)
    requires Bitwise(v) && Denotes(v, s, b) && forall z: nat | z < 64 :: v.bit(c, z) == constant(z)
    ensures Denotes(v, Iota(v.o, s, c), IotaOf(b, constant))
  {
    forall k: nat, z: nat | k < 25 && z < 64 ensures LaneIs(v, Iota(v.o, s, c)[k], IotaOf(b, constant), k % 5, k / 5, z) {
      assert LaneIs(v, s[k], b, k % 5, k / 5, z);
      assert XorRule(v, s[0], c, z);
    }
  }

  lemma RoundBits<L(!new)>(v: View<L>, s: seq<L>, b: Bits, offsets: seq<nat>, c: L, constant: nat -> bool)
    requires Bitwise(v) && Denotes(v, s, b) && |offsets| == 25 && offsets[0] == 0
    requires forall z: nat | z < 64 :: v.bit(c, z) == constant(z)
    ensures Denotes(v, Round(v.o, s, offsets, c), RoundOf(b, offsets, constant))
  {
    var s1 := Theta(v.o, s);
    var s2 := Rho(v.o, s1, offsets);
    var b2 := RhoOf(ThetaOf(b), offsets);
    ThetaBits(v, s, b);
    RhoBits(v, s1, ThetaOf(b), offsets);
    PiBits(v, s2, b2);
    ChiBits(v, Pi(s2), PiOf(b2));
    IotaBits(v, Chi(v.o, Pi(s2)), ChiOf(PiOf(b2)), c, constant);
  }

  lemma {:induction false} RoundsBits<L(!new)>(v: View<L>, s: seq<L>, b: Bits, offsets: seq<nat>, rc: seq<L>, constants: (nat, nat) -> bool)
    requires Bitwise(v) && Denotes(v, s, b) && |offsets| == 25 && offsets[0] == 0
    requires forall t: nat, z: nat | t < |rc| && z < 64 :: v.bit(rc[t], z) == constants(t, z)
    ensures Denotes(v, Rounds(v.o, s, offsets, rc), RoundsOf(b, offsets, constants, |rc|))
    decreases |rc|
  {
    if rc != [] {
      var n := |rc| - 1;
      assert forall t: nat, z: nat | t < n && z < 64 :: rc[..n][t] == rc[t] && v.bit(rc[t], z) == constants(t, z);
      RoundsBits(v, s, b, offsets, rc[..n], constants);
      RoundBits(v, Rounds(v.o, s, offsets, rc[..n]), RoundsOf(b, offsets, constants, n), offsets, rc[n], (z: nat) => constants(n, z));
    }
  }
}
