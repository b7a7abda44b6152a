/** The step mappings of Keccak-f (FIPS 202) and the tables of a 64-bit program for them. */
module Keccak {
  /** The operations on lanes. The mappings only move and combine lanes, so they are stated for any
      lane type. */
  datatype Lanes<!L> = Lanes(
    zero: L,
    xor: (L, L) -> L,
    andNot: (L, L) -> L,     // the second where the first is not set
    rotl: (L, nat) -> L)

  function Xor64(a: bv64, b: bv64): bv64 {
    a ^ b
  }

  function AndNot64(a: bv64, b: bv64): bv64 {
    !a & b
  }

  /** Rotate to the left by n places, one at a time. */
  function Rotl64(a: bv64, n: nat): bv64 {
    if n == 0 then a else Rotl64(a, n - 1).RotateLeft(1)
  }

  const WORDS: Lanes<bv64> := Lanes(0, Xor64, AndNot64, Rotl64)

  const RC: seq<bv64> := [
    0x0000000000000001, 0x0000000000008082, 0x800000000000808a, 0x8000000080008000,
    0x000000000000808b, 0x0000000080000001, 0x8000000080008081, 0x8000000000008009,
    0x000000000000008a, 0x0000000000000088, 0x0000000080008009, 0x000000008000000a,
    0x000000008000808b, 0x800000000000008b, 0x8000000000008089, 0x8000000000008003,
    0x8000000000008002, 0x8000000000000080, 0x000000000000800a, 0x800000008000000a,
    0x8000000080008081, 0x8000000000008080, 0x0000000080000001, 0x8000000080008008]

  const ROT: seq<nat> := [1, 3, 6, 10, 15, 21, 28, 36, 45, 55, 2, 14, 27, 41, 56, 8, 25, 43, 62, 18, 39, 61, 20, 44]

  const PILANE: seq<nat> := [10, 7, 11, 17, 18, 3, 5, 16, 8, 21, 24, 4, 15, 23, 19, 13, 12, 2, 20, 14, 22, 9, 6, 1]

  // ---------------------------------------------------------------------------------------------
  // The step mappings: sections 3.2.1 to 3.2.5 of FIPS 202
  // ---------------------------------------------------------------------------------------------

  // Lane (x, y) of the state is at index x + 5 * y.

  /** The parity of a column. */
  function Column<L>(o: Lanes<L>, s: seq<L>, x: nat): L
    requires |s| == 25 && x < 5
  {
    o.xor(o.xor(o.xor(o.xor(s[x], s[x + 5]), s[x + 10]), s[x + 15]), s[x + 20])
  }

  function ThetaMask<L>(o: Lanes<L>, s: seq<L>, x: nat): L
    requires |s| == 25 && x < 5
  {
    o.xor(Column(o, s, (x + 4) % 5), o.rotl(Column(o, s, (x + 1) % 5), 1))
  }

  function Theta<L>(o: Lanes<L>, s: seq<L>): (r: seq<L>)
    requires |s| == 25
    ensures |r| == 25
  {
    seq(25, k requires 0 <= k < 25 => o.xor(s[k], ThetaMask(o, s, k % 5)))
  }

  /** From lane (x, y) to lane (y, 2x + 3y). */
  function Next(k: nat): (l: nat)
    requires k < 25
    ensures l < 25
  {
    k / 5 + 5 * ((2 * (k % 5) + 3 * (k / 5)) % 5)
  }

  /** The walk over the lanes other than (0, 0), starting at (1, 0). */
  function LaneAt(t: nat): (k: nat)
    ensures k < 25
  {
    if t == 0 then 1 else Next(LaneAt(t - 1))
  }

  /** The offset of the lane that the walk reaches after t steps. */
  function Offset(t: nat): nat {
    (t + 1) * (t + 2) / 2 % 64
  }

  /** Rotate every lane but (0, 0) by its offset. */
  function Rho<L>(o: Lanes<L>, s: seq<L>, offsets: seq<nat>): (r: seq<L>)
    requires |s| == |offsets| == 25
    ensures |r| == 25
  {
    seq(25, k requires 0 <= k < 25 => if k == 0 then s[0] else o.rotl(s[k], offsets[k]))
  }

  function Pi<L>(s: seq<L>): (r: seq<L>)
    requires |s| == 25
    ensures |r| == 25
  {
    seq(25, k requires 0 <= k < 25 => s[(k % 5 + 3 * (k / 5)) % 5 + 5 * (k % 5)])
  }

  function ChiLane<L>(o: Lanes<L>, s: seq<L>, x: nat, y: nat): L
    requires |s| == 25 && x < 5 && y < 5
  {
    o.xor(s[x + 5 * y], o.andNot(s[(x + 1) % 5 + 5 * y], s[(x + 2) % 5 + 5 * y]))
  }

  function Chi<L>(o: Lanes<L>, s: seq<L>): (r: seq<L>)
    requires |s| == 25
    ensures |r| == 25
  {
    seq(25, k requires 0 <= k < 25 => ChiLane(o, s, k % 5, k / 5))
  }

  function Iota<L>(o: Lanes<L>, s: seq<L>, c: L): (r: seq<L>)
    requires |s| == 25
    ensures |r| == 25
  {
    s[0 := o.xor(s[0], c)]
  }

  // ---------------------------------------------------------------------------------------------
  // The tables
  // ---------------------------------------------------------------------------------------------

  /** The offset of every lane. */
  const OFFSETS: seq<nat> := [0, 1, 62, 28, 27, 36, 44, 6, 55, 20, 3, 10, 43, 25, 39, 41, 45, 15, 21, 8, 18, 2, 61, 56, 14]

  /** For every lane but (0, 0), the step between 1 and 24 at which the walk reaches it. */
  const STEP: seq<nat> := [0, 24, 18, 6, 12, 7, 23, 2, 9, 22, 1, 3, 17, 16, 20, 13, 8, 4, 5, 15, 19, 10, 21, 14, 11]

  /** The lane from which step t leads on. */
  function Before(pilane: seq<nat>, t: nat): nat
    requires 1 <= t <= |pilane| + 1
  {
    if t == 1 then 1 else pilane[t - 2]
  }

  /** What the tables say at step t. */
  ghost predicate TableRow(pilane: seq<nat>, rot: seq<nat>, step: seq<nat>, offsets: seq<nat>, t: nat)
    requires |pilane| == |rot| == 24 && |step| == |offsets| == 25 && 1 <= t <= 24
  {
    && 0 < Before(pilane, t) < 25 && 0 < pilane[t - 1] < 25 && pilane[t - 1] == Next(Before(pilane, t))
    && rot[t - 1] == Offset(t - 1) == offsets[Before(pilane, t)] && step[pilane[t - 1]] == t
    && 1 <= step[t] <= 24 && pilane[step[t] - 1] == t
  }

  ghost predicate Row(t: nat) {
    1 <= t <= 24 && TableRow(PILANE, ROT, STEP, OFFSETS, t)
  }

  lemma Rows1()
    ensures Row(1) && Row(2) && Row(3)
  {
  }

  lemma Rows4()
    ensures Row(4) && Row(5) && Row(6)
  {
  }

  lemma Rows7()
    ensures Row(7) && Row(8) && Row(9)
  {
  }

  lemma Rows10()
    ensures Row(10) && Row(11) && Row(12)
  {
  }

  lemma Rows13()
    ensures Row(13) && Row(14) && Row(15)
  {
  }

  lemma Rows16()
    ensures Row(16) && Row(17) && Row(18)
  {
  }

  lemma Rows19()
    ensures Row(19) && Row(20) && Row(21)
  {
  }

  lemma Rows22()
    ensures Row(22) && Row(23) && Row(24)
  {
  }

  lemma EveryRow(t: nat)
    requires 1 <= t < 25
    ensures Row(t)
  {
    if t < 4 { Rows1(); }
    else if t < 7 { Rows4(); }
    else if t < 10 { Rows7(); }
    else if t < 13 { Rows10(); }
    else if t < 16 { Rows13(); }
    else if t < 19 { Rows16(); }
    else if t < 22 { Rows19(); }
    else { Rows22(); }
  }

  /** The tables follow the walk, which visits every lane but (0, 0) once in 24 steps and then is back
      at its start. */
  ghost predicate WalkTables(pilane: seq<nat>, rot: seq<nat>, step: seq<nat>, offsets: seq<nat>) {
    && |pilane| == |rot| == 24 && |step| == |offsets| == 25 && pilane[23] == 1
    && forall t :: 1 <= t <= 24 ==> TableRow(pilane, rot, step, offsets, t)
  }

  /** The tables of the program are the walk's. */
  lemma Tables()
    ensures WalkTables(PILANE, ROT, STEP, OFFSETS)
  {
    forall t | 1 <= t <= 24 ensures TableRow(PILANE, ROT, STEP, OFFSETS, t) { EveryRow(t); }
  }

  lemma {:induction false} LanesOfWalk(pilane: seq<nat>, rot: seq<nat>, step: seq<nat>, offsets: seq<nat>, t: nat)
    requires WalkTables(pilane, rot, step, offsets) && t < 24
    ensures LaneAt(t) == Before(pilane, t + 1) && offsets[LaneAt(t)] == Offset(t)
  {
    assert TableRow(pilane, rot, step, offsets, t + 1);
    if t > 0 {
      LanesOfWalk(pilane, rot, step, offsets, t - 1);
      assert TableRow(pilane, rot, step, offsets, t);
    }
  }

  /** Rho with the program's offsets is the mapping of section 3.2.2: the lane that the walk reaches
      after t steps is rotated by (t + 1)(t + 2) / 2. */
  lemma RhoFollowsWalk<L>(o: Lanes<L>, s: seq<L>, offsets: seq<nat>, t: nat)
    requires |s| == 25 && offsets == OFFSETS && t < 24
    ensures LaneAt(t) > 0 && Rho(o, s, offsets)[LaneAt(t)] == o.rotl(s[LaneAt(t)], Offset(t))
  {
    Tables();
    LanesOfWalk(PILANE, ROT, STEP, offsets, t);
    assert TableRow(PILANE, ROT, STEP, offsets, t + 1);
  }

  lemma ModAdd(x: nat, m: int)
    requires x < 5
    ensures (x + 5 * m) % 5 == x && (x + 5 * m) / 5 == m
  {
  }

  lemma BackStep(x: nat, y: nat)
    requires x < 5 && y < 5
    ensures (y + 3 * ((2 * x + 3 * y) % 5)) % 5 == x
  {
    var q := (2 * x + 3 * y) / 5;
    assert y + 3 * ((2 * x + 3 * y) % 5) == x + 5 * (x + 2 * y - 3 * q);
    ModAdd(x, x + 2 * y - 3 * q);
  }

  lemma NextParts(k: nat)
    requires k < 25
    ensures Next(k) % 5 == k / 5 && Next(k) / 5 == (2 * (k % 5) + 3 * (k / 5)) % 5
  {
    ModAdd(k / 5, (2 * (k % 5) + 3 * (k / 5)) % 5);
  }

  /** Pi moves the lane of one step of the walk to the lane of the next. */
  lemma PiFollowsWalk<L>(s: seq<L>, k: nat)
    requires |s| == 25 && k < 25
    ensures Pi(s)[Next(k)] == s[k]
  {
    NextParts(k);
    BackStep(k % 5, k / 5);
  }

  // ---------------------------------------------------------------------------------------------
  // The round constants
  // ---------------------------------------------------------------------------------------------

  /** One step of the shift register of section 3.2.5: x^8 + x^6 + x^5 + x^4 + 1. */
  function Shift(r: bv8): bv8 {
    if r & 0x80 == 0 then r << 1 else (r << 1) ^ 0x71
  }

  function Bit(r: bv8, at: bv64): bv64 {
    if r & 1 == 1 then at else 0
  }

  /** The register after seven steps. */
  function SevenSteps(r: bv8): bv8 {
    Shift(Shift(Shift(Shift(Shift(Shift(Shift(r)))))))
  }

  /** Seven successive outputs of the register, the j-th at bit 2^j - 1. */
  function SevenBits(r: bv8): bv64 {
    var r1 := Shift(r);
    var r2 := Shift(r1);
    var r3 := Shift(r2);
    var r4 := Shift(r3);
    var r5 := Shift(r4);
    Bit(r, 0x1) | Bit(r1, 0x2) | Bit(r2, 0x8) | Bit(r3, 0x80) | Bit(r4, 0x8000) | Bit(r5, 0x80000000)
    | Bit(Shift(r5), 0x8000000000000000)
  }

  /** The register before round t. */
  function Register(t: nat): bv8 {
    if t == 0 then 1 else SevenSteps(Register(t - 1))
  }

  const REGISTER: seq<bv8> := [
    0x1, 0x80, 0xd8, 0x1a, 0xdf, 0x9, 0x35, 0x4f, 0xca, 0x70, 0x41, 0xec, 0xd5, 0xcd, 0x63, 0xab, 0xaa, 0x2a, 0xf2, 0xe8,
    0x37, 0x3e, 0xb, 0x44, 0x8e]

  predicate Constant(t: nat) {
    t < 24 && SevenBits(REGISTER[t]) == RC[t] && SevenSteps(REGISTER[t]) == REGISTER[t + 1]
  }

  lemma Constants0()
    ensures Constant(0) && Constant(1)
  {
  }

  lemma Constants2()
    ensures Constant(2) && Constant(3)
  {
  }

  lemma Constants4()
    ensures Constant(4) && Constant(5)
  {
  }

  lemma Constants6()
    ensures Constant(6) && Constant(7)
  {
  }

  lemma Constants8()
    ensures Constant(8) && Constant(9)
  {
  }

  lemma Constants10()
    ensures Constant(10) && Constant(11)
  {
  }

  lemma Constants12()
    ensures Constant(12) && Constant(13)
  {
  }

  lemma Constants14()
    ensures Constant(14) && Constant(15)
  {
  }

  lemma Constants16()
    ensures Constant(16) && Constant(17)
  {
  }

  lemma Constants18()
    ensures Constant(18) && Constant(19)
  {
  }

  lemma Constants20()
    ensures Constant(20) && Constant(21)
  {
  }

  lemma Constants22()
    ensures Constant(22) && Constant(23)
  {
  }

  lemma EveryConstant(t: nat)
    requires t < 24
    ensures Constant(t)
  {
    if t < 2 { Constants0(); }
    else if t < 4 { Constants2(); }
    else if t < 6 { Constants4(); }
    else if t < 8 { Constants6(); }
    else if t < 10 { Constants8(); }
    else if t < 12 { Constants10(); }
    else if t < 14 { Constants12(); }
    else if t < 16 { Constants14(); }
    else if t < 18 { Constants16(); }
    else if t < 20 { Constants18(); }
    else if t < 22 { Constants20(); }
    else { Constants22(); }
  }

  lemma NextRegister(t: nat, r: bv8)
    requires t < 24 && r == REGISTER[t]
    ensures SevenSteps(r) == REGISTER[t + 1]
  {
    EveryConstant(t);
  }

  lemma RegisterAfter(t: nat, r: bv8)
    requires t > 0 && SevenSteps(Register(t - 1)) == r
    ensures Register(t) == r
  {
  }

  lemma FirstRegister()
    ensures Register(0) == REGISTER[0]
  {
  }

  lemma {:induction false} RegisterTable(t: nat)
    requires t < 24
    ensures Register(t) == REGISTER[t]
  {
    if t == 0 {
      FirstRegister();
    } else {
      RegisterTable(t - 1);
      NextRegister(t - 1, Register(t - 1));
      RegisterAfter(t, REGISTER[t]);
    }
  }

  /** The round constants of the program are the outputs of the register. */
  lemma RoundConstants(t: nat)
    requires t < 24
    ensures RC[t] == SevenBits(Register(t))
  {
    EveryConstant(t);
    RegisterTable(t);
  }
}
