/** Keccak-f in place: the lane walk and the row buffer compute the step mappings. */
module KeccakRounds {
  import opened Keccak

  /** The tables that drive rho and pi. */
  datatype Tables = Tables(pilane: seq<nat>, rot: seq<nat>, step: seq<nat>, offsets: seq<nat>)

  ghost predicate Ok(w: Tables) {
    WalkTables(w.pilane, w.rot, w.step, w.offsets)
  }

  // ---------------------------------------------------------------------------------------------
  // The walk
  // ---------------------------------------------------------------------------------------------

  /** Place u of the walk holds the rotated lane of the place before. */
  ghost predicate Filled<L>(o: Lanes<L>, w: Tables, s: seq<L>, a: seq<L>, u: nat)
    requires Ok(w) && |s| == |a| == 25 && 1 <= u <= 24
  {
    && 0 < w.pilane[u - 1] < 25 && 0 < Before(w.pilane, u) < 25
    && a[w.pilane[u - 1]] == o.rotl(s[Before(w.pilane, u)], w.rot[u - 1])
  }

  /** Place u of the walk is as it was. */
  ghost predicate Kept<L>(w: Tables, s: seq<L>, a: seq<L>, u: nat)
    requires Ok(w) && |s| == |a| == 25 && 1 <= u <= 24
  {
    0 < w.pilane[u - 1] < 25 && a[w.pilane[u - 1]] == s[w.pilane[u - 1]]
  }

  /** The lanes when the first i places of the walk have been filled. */
  ghost predicate Walked<L>(o: Lanes<L>, w: Tables, s: seq<L>, a: seq<L>, i: nat)
    requires Ok(w) && |s| == 25 && i <= 24
  {
    && |a| == 25 && a[0] == s[0]
    && (forall u :: 1 <= u <= i ==> Filled(o, w, s, a, u))
    && (forall u :: i < u <= 24 ==> Kept(w, s, a, u))
  }

  lemma Places(w: Tables, u: nat)
    requires Ok(w) && 1 <= u <= 24
    ensures 0 < w.pilane[u - 1] < 25 && 0 < Before(w.pilane, u) < 25 && w.step[w.pilane[u - 1]] == u
    ensures 1 <= w.step[u] <= 24 && w.pilane[w.step[u] - 1] == u
  {
    assert TableRow(w.pilane, w.rot, w.step, w.offsets, u);
  }

  lemma WalkStarts<L>(o: Lanes<L>, w: Tables, s: seq<L>)
    requires Ok(w) && |s| == 25
    ensures Walked(o, w, s, s, 0)
  {
    forall u | 0 < u <= 24 ensures Kept(w, s, s, u) { Places(w, u); }
  }

  lemma WalkAdvances<L>(o: Lanes<L>, w: Tables, s: seq<L>, a: seq<L>, i: nat)
    requires Ok(w) && |s| == 25 && i < 24 && Walked(o, w, s, a, i)
    ensures 0 < w.pilane[i] < 25 && 0 < Before(w.pilane, i + 1) < 25 && a[w.pilane[i]] == s[w.pilane[i]]
    ensures Walked(o, w, s, a[w.pilane[i] := o.rotl(s[Before(w.pilane, i + 1)], w.rot[i])], i + 1)
  {
    Places(w, i + 1);
    assert Kept(w, s, a, i + 1);
    var b := a[w.pilane[i] := o.rotl(s[Before(w.pilane, i + 1)], w.rot[i])];
    forall u | 1 <= u <= i + 1 ensures Filled(o, w, s, b, u) {
      Places(w, u);
      if u <= i { assert Filled(o, w, s, a, u); }
    }
    forall u | i + 1 < u <= 24 ensures Kept(w, s, b, u) {
      Places(w, u);
      assert Kept(w, s, a, u);
    }
  }

  /** A lane after rho and pi is the rotated lane of the walk's place before. */
  lemma RhoPiAt<L>(o: Lanes<L>, w: Tables, s: seq<L>, u: nat)
    requires Ok(w) && |s| == 25 && 1 <= u <= 24
    ensures Filled(o, w, s, Pi(Rho(o, s, w.offsets)), u)
  {
    Places(w, u);
    assert TableRow(w.pilane, w.rot, w.step, w.offsets, u);
    PiFollowsWalk(Rho(o, s, w.offsets), Before(w.pilane, u));
  }

  lemma WalkEnds<L>(o: Lanes<L>, w: Tables, s: seq<L>, a: seq<L>)
    requires Ok(w) && |s| == 25 && Walked(o, w, s, a, 24)
    ensures a == Pi(Rho(o, s, w.offsets))
  {
    var r := Pi(Rho(o, s, w.offsets));
    forall k | 0 <= k < 25 ensures a[k] == r[k] {
      if k > 0 {
        Places(w, k);
        RhoPiAt(o, w, s, w.step[k]);
        assert Filled(o, w, s, a, w.step[k]);
      }
    }
  }

  // ---------------------------------------------------------------------------------------------
  // Rounds
  // ---------------------------------------------------------------------------------------------

  function Round<L>(o: Lanes<L>, s: seq<L>, offsets: seq<nat>, c: L): (r: seq<L>)
    requires |s| == |offsets| == 25
    ensures |r| == 25
  {
    Iota(o, Chi(o, Pi(Rho(o, Theta(o, s), offsets))), c)
  }

  function Rounds<L>(o: Lanes<L>, s: seq<L>, offsets: seq<nat>, rc: seq<L>): (r: seq<L>)
    requires |s| == |offsets| == 25
    ensures |r| == 25
  {
    if rc == [] then s else Round(o, Rounds(o, s, offsets, rc[..|rc| - 1]), offsets, rc[|rc| - 1])
  }

  /** The permutation on 64-bit lanes: 24 rounds, with the offsets of section 3.2.2 and the constants
      of section 3.2.5. */
  function KeccakF(s: seq<bv64>): (r: seq<bv64>)
    requires |s| == 25
    ensures |r| == 25
  {
    Rounds(WORDS, s, OFFSETS, RC)
  }

  // ---------------------------------------------------------------------------------------------
  // In place
  // ---------------------------------------------------------------------------------------------

  method Columns<L>(o: Lanes<L>, a: array<L>, bc: array<L>)
    requires a.Length == 25 && bc.Length == 5 && a != bc
    modifies bc
    ensures forall x :: 0 <= x < 5 ==> bc[x] == Column(o, a[..], x)
  {
    for i := 0 to 5
      invariant forall x :: 0 <= x < i ==> bc[x] == Column(o, a[..], x)
    {
      bc[i] := o.xor(o.xor(o.xor(o.xor(a[i], a[i + 5]), a[i + 10]), a[i + 15]), a[i + 20]);
    }
  }

  method XorColumn<L>(o: Lanes<L>, a: array<L>, i: nat, t: L)
    requires a.Length == 25 && i < 5
    modifies a
    ensures forall k :: 0 <= k < 25 ==> a[k] == if k % 5 == i then o.xor(old(a[k]), t) else old(a[k])
  {
    for y := 0 to 5
      invariant forall k :: 0 <= k < 25 ==> a[k] == if k % 5 == i && k / 5 < y then o.xor(old(a[k]), t) else old(a[k])
    {
      ModAdd(i, y);
      a[5 * y + i] := o.xor(a[5 * y + i], t);
    }
  }

  method ThetaInPlace<L>(o: Lanes<L>, a: array<L>, bc: array<L>)
    requires a.Length == 25 && bc.Length == 5 && a != bc
    modifies a, bc
    ensures a[..] == Theta(o, old(a[..]))
  {
    ghost var s := a[..];
    Columns(o, a, bc);
    for i := 0 to 5
      invariant forall x :: 0 <= x < 5 ==> bc[x] == Column(o, s, x)
      invariant forall k :: 0 <= k < 25 ==> a[k] == if k % 5 < i then o.xor(s[k], ThetaMask(o, s, k % 5)) else s[k]
    {
      var t := o.xor(bc[(i + 4) % 5], o.rotl(bc[(i + 1) % 5], 1));
      assert t == ThetaMask(o, s, i);
      XorColumn(o, a, i, t);
    }
    assert a[..] == Theta(o, s);
  }

  /** Each lane goes to the next place of the walk, and the lane found there is carried on. */
  method RhoPiInPlace<L>(o: Lanes<L>, a: array<L>, pilane: seq<nat>, rot: seq<nat>, ghost w: Tables)
    requires a.Length == 25 && Ok(w) && pilane == w.pilane && rot == w.rot
    modifies a
    ensures a[..] == Pi(Rho(o, old(a[..]), w.offsets))
  {
    ghost var s := a[..];
    WalkStarts(o, w, s);
    var t := a[1];
    for i := 0 to 24
      invariant Walked(o, w, s, a[..], i)
      invariant Before(w.pilane, i + 1) < 25 && t == s[Before(w.pilane, i + 1)]
    {
      WalkAdvances(o, w, s, a[..], i);
      var j := pilane[i];
      var next := a[j];
      a[j] := o.rotl(t, rot[i]);
      t := next;
    }
    WalkEnds(o, w, s, a[..]);
  }

  method CopyRow<L>(a: array<L>, bc: array<L>, y: nat)
    requires a.Length == 25 && bc.Length == 5 && a != bc && y < 5
    modifies bc
    ensures forall x :: 0 <= x < 5 ==> bc[x] == a[x + 5 * y]
  {
    for i := 0 to 5
      invariant forall x :: 0 <= x < i ==> bc[x] == a[x + 5 * y]
    {
      bc[i] := a[5 * y + i];
    }
  }

  /** Lane x of a row after chi. */
  function Combine<L>(o: Lanes<L>, row: seq<L>, x: nat): L
    requires |row| == 5 && x < 5
  {
    o.xor(row[x], o.andNot(row[(x + 1) % 5], row[(x + 2) % 5]))
  }

  lemma CombineIsChi<L>(o: Lanes<L>, s: seq<L>, row: seq<L>, k: nat)
    requires |s| == 25 && |row| == 5 && k < 25 && forall x :: 0 <= x < 5 ==> row[x] == s[x + 5 * (k / 5)]
    ensures Combine(o, row, k % 5) == Chi(o, s)[k]
  {
  }

  method FillRow<L>(o: Lanes<L>, a: array<L>, bc: array<L>, y: nat)
    requires a.Length == 25 && bc.Length == 5 && a != bc && y < 5
    modifies a
    ensures forall k :: 0 <= k < 25 ==> a[k] == if k / 5 == y then Combine(o, bc[..], k % 5) else old(a[k])
  {
    ghost var row := bc[..];
    for i := 0 to 5
      invariant bc[..] == row
      invariant forall k :: 0 <= k < 25 ==> a[k] == if k / 5 == y && k % 5 < i then Combine(o, row, k % 5) else old(a[k])
    {
      ModAdd(i, y);
      a[5 * y + i] := o.xor(bc[i], o.andNot(bc[(i + 1) % 5], bc[(i + 2) % 5]));
    }
  }

  /** One row: copy it to the buffer, then combine from the buffer. */
  method ChiRow<L>(o: Lanes<L>, a: array<L>, bc: array<L>, y: nat)
    requires a.Length == 25 && bc.Length == 5 && a != bc && y < 5
    modifies a, bc
    ensures var s := old(a[..]); forall k :: 0 <= k < 25 ==> a[k] == if k / 5 == y then Chi(o, s)[k] else s[k]
  {
    ghost var s := a[..];
    CopyRow(a, bc, y);
    ghost var row := bc[..];
    FillRow(o, a, bc, y);
    forall k | 0 <= k < 25 && k / 5 == y ensures Combine(o, row, k % 5) == Chi(o, s)[k] { CombineIsChi(o, s, row, k); }
  }

  lemma ChiOfRow<L>(o: Lanes<L>, s: seq<L>, r: seq<L>, k: nat)
    requires |s| == |r| == 25 && k < 25 && forall l :: 0 <= l < 25 && l / 5 == k / 5 ==> r[l] == s[l]
    ensures Chi(o, r)[k] == Chi(o, s)[k]
  {
    ModAdd((k % 5 + 1) % 5, k / 5);
    ModAdd((k % 5 + 2) % 5, k / 5);
  }

  method ChiInPlace<L>(o: Lanes<L>, a: array<L>, bc: array<L>)
    requires a.Length == 25 && bc.Length == 5 && a != bc
    modifies a, bc
    ensures a[..] == Chi(o, old(a[..]))
  {
    ghost var s := a[..];
    ghost var target := Chi(o, s);
    for y := 0 to 5
      invariant forall k :: 0 <= k < 25 ==> a[k] == if k / 5 < y then target[k] else s[k]
    {
      ghost var r := a[..];
      forall k | 0 <= k < 25 && k / 5 == y ensures Chi(o, r)[k] == target[k] { ChiOfRow(o, s, r, k); }
      ChiRow(o, a, bc, y);
    }
    assert a[..] == target;
  }

  method IotaInPlace<L>(o: Lanes<L>, a: array<L>, c: L)
    requires a.Length == 25
    modifies a
    ensures a[..] == Iota(o, old(a[..]), c)
  {
    a[0] := o.xor(a[0], c);
    assert a[..] == Iota(o, old(a[..]), c);
  }

  lemma RoundSteps<L>(o: Lanes<L>, s: seq<L>, offsets: seq<nat>, c: L, theta: seq<L>, pi: seq<L>, chi: seq<L>)
    requires |s| == |offsets| == 25 && theta == Theta(o, s) && pi == Pi(Rho(o, theta, offsets)) && chi == Chi(o, pi)
    ensures Round(o, s, offsets, c) == Iota(o, chi, c)
  {
  }

  method OneRound<L>(o: Lanes<L>, a: array<L>, bc: array<L>, c: L, pilane: seq<nat>, rot: seq<nat>, ghost w: Tables)
    requires a.Length == 25 && bc.Length == 5 && a != bc && Ok(w) && pilane == w.pilane && rot == w.rot
    modifies a, bc
    ensures a[..] == Round(o, old(a[..]), w.offsets, c)
  {
    ghost var s := a[..];
    ThetaInPlace(o, a, bc);
    ghost var theta := a[..];
    RhoPiInPlace(o, a, pilane, rot, w);
    ghost var pi := a[..];
    ChiInPlace(o, a, bc);
    ghost var chi := a[..];
    IotaInPlace(o, a, c);
    RoundSteps(o, s, w.offsets, c, theta, pi, chi);
  }

  lemma RoundsPush<L>(o: Lanes<L>, s: seq<L>, offsets: seq<nat>, rc: seq<L>, n: nat)
    requires |s| == |offsets| == 25 && n < |rc|
    ensures Rounds(o, s, offsets, rc[..n + 1]) == Round(o, Rounds(o, s, offsets, rc[..n]), offsets, rc[n])
  {
    assert rc[..n + 1][..n] == rc[..n];
  }

  /** One round after the other; the first lane takes the round constant. */
  method RoundsInPlace<L>(o: Lanes<L>, a: array<L>, rc: seq<L>, pilane: seq<nat>, rot: seq<nat>, ghost w: Tables)
    requires a.Length == 25 && Ok(w) && pilane == w.pilane && rot == w.rot
    modifies a
    ensures a[..] == Rounds(o, old(a[..]), w.offsets, rc)
  {
    var bc := new L[5](_ => o.zero);
    for round := 0 to |rc|
      invariant a[..] == Rounds(o, old(a[..]), w.offsets, rc[..round])
    {
      RoundsPush(o, old(a[..]), w.offsets, rc, round);
      OneRound(o, a, bc, rc[round], pilane, rot, w);
    }
    assert rc[..|rc|] == rc;
  }

  method KeccakFInPlace(a: array<bv64>)
    requires a.Length == 25
    modifies a
    ensures a[..] == KeccakF(old(a[..]))
  {
    Keccak.Tables();
    RoundsInPlace(WORDS, a, RC, PILANE, ROT, Tables.Tables(PILANE, ROT, STEP, OFFSETS));
  }
}
