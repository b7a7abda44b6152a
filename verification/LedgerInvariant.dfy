/** Every call on the ledger keeps the invariant, and what the invariant implies for whole runs. */
module LedgerInvariant {
  import opened Ledger

  // ---------------------------------------------------------------------------------------------
  // Sums
  // ---------------------------------------------------------------------------------------------

  lemma {:induction false} TotalNonNegative(rs: seq<Reservation>, f: Filter)
    requires forall i :: 0 <= i < |rs| ==> rs[i].amount > 0
    ensures Total(rs, f) >= 0
  {
    if rs != [] { TotalNonNegative(rs[..|rs| - 1], f); }
  }

  lemma {:induction false} TotalNoMatch(rs: seq<Reservation>, f: Filter)
    requires forall i :: 0 <= i < |rs| ==> !Matches(f, rs[i])
    ensures Total(rs, f) == 0
  {
    if rs != [] { TotalNoMatch(rs[..|rs| - 1], f); }
  }

  lemma {:induction false} ScopeSumNoMatch(scopes: seq<Scope>, jobId: string, w: Weight)
    requires forall i :: 0 <= i < |scopes| ==> Weigh(scopes[i], jobId, w) == 0
    ensures ScopeSum(scopes, jobId, w) == 0
  {
    if scopes != [] { ScopeSumNoMatch(scopes[..|scopes| - 1], jobId, w); }
  }

  lemma {:induction false} ScopeSumNonNegative(scopes: seq<Scope>, jobId: string, w: Weight)
    requires forall i :: 0 <= i < |scopes| ==> Weigh(scopes[i], jobId, w) >= 0
    ensures ScopeSum(scopes, jobId, w) >= 0
  {
    if scopes != [] { ScopeSumNonNegative(scopes[..|scopes| - 1], jobId, w); }
  }

  /** Under the invariant no counter is negative. */
  lemma CountersNonNegative(b: Book, jobId: string)
    requires Inv(b) && jobId in b.jobs
    ensures Direct(b, jobId, RESERVED) >= 0 && Direct(b, jobId, COMMITTED) >= 0
    ensures ScopeSum(b.scopes, jobId, ReservedIn) >= 0 && ScopeSum(b.scopes, jobId, CommittedIn) >= 0
    ensures b.jobs[jobId].reserved >= 0 && b.jobs[jobId].committed >= 0
    ensures b.jobs[jobId].childShares >= 0
  {
    AmountsPositive(b);
    TotalNonNegative(b.reservations, Filter(jobId, Only(None), RESERVED));
    TotalNonNegative(b.reservations, Filter(jobId, Only(None), COMMITTED));
    TotalNonNegative(b.reservations, Filter(jobId, AnyScope, RESERVED));
    TotalNonNegative(b.reservations, Filter(jobId, AnyScope, COMMITTED));
    forall i | 0 <= i < |b.scopes|
      ensures Weigh(b.scopes[i], jobId, ReservedIn) >= 0 && Weigh(b.scopes[i], jobId, CommittedIn) >= 0
      ensures Weigh(b.scopes[i], jobId, ShareUnder(None)) >= 0
    {
      ScopeNonNegative(b, i);
    }
    ScopeSumNonNegative(b.scopes, jobId, ReservedIn);
    ScopeSumNonNegative(b.scopes, jobId, CommittedIn);
    ScopeSumNonNegative(b.scopes, jobId, ShareUnder(None));
  }

  lemma AmountsPositive(b: Book)
    requires Inv(b)
    ensures forall i :: 0 <= i < |b.reservations| ==> b.reservations[i].amount > 0
  {
    forall i | 0 <= i < |b.reservations| ensures b.reservations[i].amount > 0 {
      assert ReservationOk(b, b.reservations[i]);
    }
  }

  lemma ScopeNonNegative(b: Book, i: nat)
    requires Inv(b) && i < |b.scopes|
    ensures b.scopes[i].reserved >= 0 && b.scopes[i].committed >= 0 && b.scopes[i].share > 0
  {
    assert ScopeOk(b, i);
    AmountsPositive(b);
    TotalNonNegative(b.reservations, ScopeFilter(b.scopes[i], RESERVED));
    TotalNonNegative(b.reservations, ScopeFilter(b.scopes[i], COMMITTED));
  }

  // ---------------------------------------------------------------------------------------------
  // Looking up scopes in a changed list
  // ---------------------------------------------------------------------------------------------

  predicate SameKey(s: Scope, t: Scope) {
    s.jobId == t.jobId && s.scopeId == t.scopeId
  }

  lemma {:induction false} FindAfterUpdate(scopes: seq<Scope>, k: nat, s: Scope, jobId: string, scopeId: string)
    requires k < |scopes| && SameKey(s, scopes[k])
    ensures FindScope(scopes[k := s], jobId, scopeId) == FindScope(scopes, jobId, scopeId)
  {
    var n := |scopes| - 1;
    if k < n {
      assert scopes[k := s][..n] == scopes[..n][k := s];
      FindAfterUpdate(scopes[..n], k, s, jobId, scopeId);
    } else {
      assert scopes[k := s][..n] == scopes[..n];
    }
  }

  lemma FindAfterAppend(scopes: seq<Scope>, s: Scope, jobId: string, scopeId: string)
    ensures FindScope(scopes + [s], jobId, scopeId)
         == if s.jobId == jobId && s.scopeId == scopeId then |scopes| else FindScope(scopes, jobId, scopeId)
  {
    assert (scopes + [s])[..|scopes|] == scopes;
  }

  lemma FindUnique(scopes: seq<Scope>, i: nat)
    requires UniqueScopes(scopes) && i < |scopes|
    ensures FindScope(scopes, scopes[i].jobId, scopes[i].scopeId) == i
  {
    var k := FindScope(scopes, scopes[i].jobId, scopes[i].scopeId);
  }

  // ---------------------------------------------------------------------------------------------
  // Opening
  // ---------------------------------------------------------------------------------------------

  lemma OpenJobKeepsInv(b: Book, jobId: string, ceiling: Amount)
    requires Inv(b)
    ensures Inv(OpenJobStep(b, jobId, ceiling).0)
  {
    var b' := OpenJobStep(b, jobId, ceiling).0;
    if b' != b {
      forall i | 0 <= i < |b.scopes| ensures ScopeOk(b', i) && b.scopes[i].jobId != jobId {
        assert ScopeOk(b, i);
      }
      forall i | 0 <= i < |b.reservations| ensures ReservationOk(b', b.reservations[i]) && b.reservations[i].jobId != jobId {
        assert ReservationOk(b, b.reservations[i]);
      }
      forall j | j in b'.jobs ensures JobOk(b', j) {
        if j == jobId { EmptyJob(b, jobId); } else { assert JobOk(b, j); }
      }
    }
  }

  lemma EmptyJob(b: Book, jobId: string)
    requires forall i :: 0 <= i < |b.scopes| ==> b.scopes[i].jobId != jobId
    requires forall i :: 0 <= i < |b.reservations| ==> b.reservations[i].jobId != jobId
    ensures forall w, st :: Total(b.reservations, Filter(jobId, w, st)) == 0
    ensures forall w :: ScopeSum(b.scopes, jobId, w) == 0
  {
    forall w, st ensures Total(b.reservations, Filter(jobId, w, st)) == 0 {
      TotalNoMatch(b.reservations, Filter(jobId, w, st));
    }
    forall w ensures ScopeSum(b.scopes, jobId, w) == 0 {
      ScopeSumNoMatch(b.scopes, jobId, w);
    }
  }

  /** Appending a fresh scope: nothing refers to it yet. */
  lemma FreshScope(b: Book, s: Scope)
    requires Inv(b) && FindScope(b.scopes, s.jobId, s.scopeId) < 0
    ensures forall st :: Total(b.reservations, ScopeFilter(s, st)) == 0
    ensures ScopeSum(b.scopes, s.jobId, ShareUnder(Some(s.scopeId))) == 0
  {
    forall st ensures Total(b.reservations, ScopeFilter(s, st)) == 0 {
      forall i | 0 <= i < |b.reservations| ensures !Matches(ScopeFilter(s, st), b.reservations[i]) {
        assert ReservationOk(b, b.reservations[i]);
      }
      TotalNoMatch(b.reservations, ScopeFilter(s, st));
    }
    forall i | 0 <= i < |b.scopes| ensures Weigh(b.scopes[i], s.jobId, ShareUnder(Some(s.scopeId))) == 0 {
      assert ScopeOk(b, i);
    }
    ScopeSumNoMatch(b.scopes, s.jobId, ShareUnder(Some(s.scopeId)));
  }

  /** Appending a scope to a list in which only the shares of its parent were adjusted. */
  lemma OpenScopeKeepsInv(b: Book, jobId: string, scopeId: string, parent: Option<string>, share: Amount)
    requires Inv(b)
    ensures Inv(OpenScopeStep(b, jobId, scopeId, parent, share).0)
  {
    var b' := OpenScopeStep(b, jobId, scopeId, parent, share).0;
    if b' != b {
      var s0 := Scope(jobId, scopeId, parent, share.n, 0, 0, 0, true);
      var n := |b.scopes|;
      FreshScope(b, s0);
      assert b'.reservations == b.reservations && b'.scopes[n] == s0 && |b'.scopes| == n + 1;
      forall i, j | 0 <= i < j < n + 1
        ensures b'.scopes[i].jobId != b'.scopes[j].jobId || b'.scopes[i].scopeId != b'.scopes[j].scopeId
      {
        assert SameKey(b'.scopes[i], b.scopes[i]);
        if j < n { assert SameKey(b'.scopes[j], b.scopes[j]); }
      }
      forall i | 0 <= i < n + 1 ensures ScopeOk(b', i) {
        OpenScopeScopeOk(b, jobId, scopeId, parent, share, i);
      }
      forall j | j in b'.jobs ensures JobOk(b', j) {
        OpenScopeJobOk(b, jobId, scopeId, parent, share, j);
      }
      forall i | 0 <= i < |b.reservations| ensures ReservationOk(b', b.reservations[i]) {
        var r := b.reservations[i];
        assert ReservationOk(b, r);
        if r.scopeId.Some? { OpenScopeFind(b, jobId, scopeId, parent, share, r.jobId, r.scopeId.value); }
      }
    }
  }

  /** Scopes after carving an amount out of scope k, or out of the job when k is -1. */
  function Grown(scopes: seq<Scope>, k: int, amount: int, s0: Scope): seq<Scope>
    requires k < |scopes|
  {
    (if k < 0 then scopes else scopes[k := scopes[k].(childShares := scopes[k].childShares + amount)]) + [s0]
  }

  lemma OpenScopeGrows(b: Book, jobId: string, scopeId: string, parent: Option<string>, share: Amount) returns (k: int)
    requires OpenScopeStep(b, jobId, scopeId, parent, share).0 != b
    ensures k == if parent.Some? then FindScope(b.scopes, jobId, parent.value) else -1
    ensures parent.Some? ==> k >= 0
    ensures OpenScopeStep(b, jobId, scopeId, parent, share).0.scopes
         == Grown(b.scopes, k, share.n, Scope(jobId, scopeId, parent, share.n, 0, 0, 0, true))
  {
    k := if parent.Some? then FindScope(b.scopes, jobId, parent.value) else -1;
  }

  lemma GrownFind(scopes: seq<Scope>, k: int, amount: int, s0: Scope, j: string, id: string)
    requires k < |scopes|
    ensures FindScope(Grown(scopes, k, amount, s0), j, id)
         == if s0.jobId == j && s0.scopeId == id then |scopes| else FindScope(scopes, j, id)
  {
    if k >= 0 {
      var s' := scopes[k].(childShares := scopes[k].childShares + amount);
      FindAfterUpdate(scopes, k, s', j, id);
      FindAfterAppend(scopes[k := s'], s0, j, id);
    } else {
      FindAfterAppend(scopes, s0, j, id);
    }
  }

  lemma GrownSum(scopes: seq<Scope>, k: int, amount: int, s0: Scope, j: string, w: Weight)
    requires k < |scopes|
    ensures ScopeSum(Grown(scopes, k, amount, s0), j, w) == ScopeSum(scopes, j, w) + Weigh(s0, j, w)
  {
    if k >= 0 {
      var s' := scopes[k].(childShares := scopes[k].childShares + amount);
      ScopeSumUpdate(scopes, k, s', j, w);
      ScopeSumAppend(scopes[k := s'], s0, j, w);
    } else {
      ScopeSumAppend(scopes, s0, j, w);
    }
  }

  lemma OpenScopeFind(b: Book, jobId: string, scopeId: string, parent: Option<string>, share: Amount, j: string, id: string)
    requires Inv(b) && OpenScopeStep(b, jobId, scopeId, parent, share).0 != b
    ensures FindScope(OpenScopeStep(b, jobId, scopeId, parent, share).0.scopes, j, id)
         == if j == jobId && id == scopeId then |b.scopes| else FindScope(b.scopes, j, id)
  {
    var k := OpenScopeGrows(b, jobId, scopeId, parent, share);
    GrownFind(b.scopes, k, share.n, Scope(jobId, scopeId, parent, share.n, 0, 0, 0, true), j, id);
  }

  lemma OpenScopeSum(b: Book, jobId: string, scopeId: string, parent: Option<string>, share: Amount, j: string, w: Weight)
    requires Inv(b) && OpenScopeStep(b, jobId, scopeId, parent, share).0 != b
    ensures ScopeSum(OpenScopeStep(b, jobId, scopeId, parent, share).0.scopes, j, w)
         == ScopeSum(b.scopes, j, w) + if j == jobId && w == ShareUnder(parent) then share.n else 0
  {
    var k := OpenScopeGrows(b, jobId, scopeId, parent, share);
    GrownSum(b.scopes, k, share.n, Scope(jobId, scopeId, parent, share.n, 0, 0, 0, true), j, w);
  }

  lemma OpenScopeScopeOk(b: Book, jobId: string, scopeId: string, parent: Option<string>, share: Amount, i: nat)
    requires Inv(b) && OpenScopeStep(b, jobId, scopeId, parent, share).0 != b && i <= |b.scopes|
    ensures ScopeOk(OpenScopeStep(b, jobId, scopeId, parent, share).0, i)
  {
    if i == |b.scopes| {
      OpenScopeNewScopeOk(b, jobId, scopeId, parent, share);
    } else {
      OpenScopeOldScopeOk(b, jobId, scopeId, parent, share, i);
    }
  }

  lemma OpenScopeNewScopeOk(b: Book, jobId: string, scopeId: string, parent: Option<string>, share: Amount)
    requires Inv(b) && OpenScopeStep(b, jobId, scopeId, parent, share).0 != b
    ensures ScopeOk(OpenScopeStep(b, jobId, scopeId, parent, share).0, |b.scopes|)
  {
    var s := OpenScopeStep(b, jobId, scopeId, parent, share).0.scopes[|b.scopes|];
    OpenScopeSum(b, jobId, scopeId, parent, share, s.jobId, ShareUnder(Some(s.scopeId)));
    if s.parent.Some? { OpenScopeFind(b, jobId, scopeId, parent, share, s.jobId, s.parent.value); }
    FreshScope(b, s);
  }

  lemma OpenScopeOldScopeOk(b: Book, jobId: string, scopeId: string, parent: Option<string>, share: Amount, i: nat)
    requires Inv(b) && OpenScopeStep(b, jobId, scopeId, parent, share).0 != b && i < |b.scopes|
    ensures ScopeOk(OpenScopeStep(b, jobId, scopeId, parent, share).0, i)
  {
    var b' := OpenScopeStep(b, jobId, scopeId, parent, share).0;
    var s := b'.scopes[i];
    OpenScopeSum(b, jobId, scopeId, parent, share, s.jobId, ShareUnder(Some(s.scopeId)));
    if s.parent.Some? { OpenScopeFind(b, jobId, scopeId, parent, share, s.jobId, s.parent.value); }
    OpenScopeOldScope(b, jobId, scopeId, parent, share, i);
    SharesKeepScopeOk(b, b', i, if s.jobId == jobId && Some(s.scopeId) == parent then share.n else 0);
  }

  lemma SharesKeepScopeOk(b: Book, b': Book, i: nat, extra: int)
    requires i < |b.scopes| && i < |b'.scopes| && ScopeOk(b, i) && b'.reservations == b.reservations
    requires b.jobs.Keys <= b'.jobs.Keys && extra <= ScopeAvailable(b.scopes[i])
    requires var s := b.scopes[i]; b'.scopes[i] == s.(childShares := s.childShares + extra)
    requires var s := b.scopes[i];
             ScopeSum(b'.scopes, s.jobId, ShareUnder(Some(s.scopeId))) == ScopeSum(b.scopes, s.jobId, ShareUnder(Some(s.scopeId))) + extra
    requires var s := b.scopes[i];
             s.parent.Some? ==> FindScope(b'.scopes, s.jobId, s.parent.value) == FindScope(b.scopes, s.jobId, s.parent.value)
    ensures ScopeOk(b', i)
  {
    assert ScopeFilter(b'.scopes[i], RESERVED) == ScopeFilter(b.scopes[i], RESERVED);
    assert ScopeFilter(b'.scopes[i], COMMITTED) == ScopeFilter(b.scopes[i], COMMITTED);
  }

  /** An old scope keeps everything but, if it is the parent, the shares below it. */
  lemma OpenScopeOldScope(b: Book, jobId: string, scopeId: string, parent: Option<string>, share: Amount, i: nat)
    requires Inv(b) && OpenScopeStep(b, jobId, scopeId, parent, share).0 != b && i < |b.scopes|
    ensures ScopeOk(b, i)
    ensures var s, s' := b.scopes[i], OpenScopeStep(b, jobId, scopeId, parent, share).0.scopes[i];
            var extra := if s.jobId == jobId && Some(s.scopeId) == parent then share.n else 0;
            s' == s.(childShares := s.childShares + extra) && extra <= ScopeAvailable(s)
  {
    assert ScopeOk(b, i);
    FindUnique(b.scopes, i);
  }

  lemma OpenScopeJobOk(b: Book, jobId: string, scopeId: string, parent: Option<string>, share: Amount, j: string)
    requires Inv(b) && OpenScopeStep(b, jobId, scopeId, parent, share).0 != b && j in b.jobs
    ensures JobOk(OpenScopeStep(b, jobId, scopeId, parent, share).0, j)
  {
    CountersNonNegative(b, j);
    OpenScopeSum(b, jobId, scopeId, parent, share, j, ReservedIn);
    OpenScopeSum(b, jobId, scopeId, parent, share, j, CommittedIn);
    OpenScopeSum(b, jobId, scopeId, parent, share, j, ShareUnder(None));
    OpenScopeOldJob(b, jobId, scopeId, parent, share, j);
    SharesKeepJobOk(b, OpenScopeStep(b, jobId, scopeId, parent, share).0, j, if j == jobId && parent == None then share.n else 0);
  }

  /** A job keeps everything but, if the scope is a root, the shares carved out of it. */
  lemma OpenScopeOldJob(b: Book, jobId: string, scopeId: string, parent: Option<string>, share: Amount, j: string)
    requires Inv(b) && OpenScopeStep(b, jobId, scopeId, parent, share).0 != b && j in b.jobs
    ensures var b' := OpenScopeStep(b, jobId, scopeId, parent, share).0;
            var extra := if j == jobId && parent == None then share.n else 0;
            && b'.reservations == b.reservations && j in b'.jobs
            && b'.jobs[j] == b.jobs[j].(childShares := b.jobs[j].childShares + extra)
            && extra >= 0 && (extra > 0 ==> extra <= JobAvailable(b.jobs[j]))
  {
  }

  lemma SharesKeepJobOk(b: Book, b': Book, j: string, extra: int)
    requires j in b.jobs && JobOk(b, j) && j in b'.jobs && b'.reservations == b.reservations
    requires b'.jobs[j] == b.jobs[j].(childShares := b.jobs[j].childShares + extra)
    requires extra >= 0 && (extra > 0 ==> extra <= JobAvailable(b.jobs[j]))
    requires ScopeSum(b'.scopes, j, ReservedIn) == ScopeSum(b.scopes, j, ReservedIn) >= 0
    requires ScopeSum(b'.scopes, j, CommittedIn) == ScopeSum(b.scopes, j, CommittedIn) >= 0
    requires ScopeSum(b'.scopes, j, ShareUnder(None)) == ScopeSum(b.scopes, j, ShareUnder(None)) + extra
    ensures JobOk(b', j)
  {
  }

  // ---------------------------------------------------------------------------------------------
  // Moving money: one reservation and the counters it is drawn on
  // ---------------------------------------------------------------------------------------------

  /** b' differs from b in one reservation, new or changed, and in the counters of its job and of
      its scope, by the same amounts. */
  ghost predicate Moved(b: Book, b': Book, r: Reservation, k: int, dReserved: int, dCommitted: int) {
    && r.jobId in b.jobs && b'.jobs == b.jobs[r.jobId := b.jobs[r.jobId].(
         reserved := b.jobs[r.jobId].reserved + dReserved, committed := b.jobs[r.jobId].committed + dCommitted)]
    && k == (if r.scopeId.Some? then FindScope(b.scopes, r.jobId, r.scopeId.value) else -1)
    && (r.scopeId.Some? ==> k >= 0)
    && b'.scopes == (if k < 0 then b.scopes else b.scopes[k := b.scopes[k].(
         reserved := b.scopes[k].reserved + dReserved, committed := b.scopes[k].committed + dCommitted)])
  }

  /** The filter looks at the reservation whatever its state. */
  predicate Covers(f: Filter, r: Reservation) {
    f.jobId == r.jobId && (f.which.Only? ==> f.which.scopeId == r.scopeId)
  }

  /** The reserved and committed totals change by the moved amounts, where the filter covers the
      moved reservation. */
  ghost predicate TotalsMoved(b: Book, b': Book, r: Reservation, dReserved: int, dCommitted: int) {
    forall f: Filter | f.state != RELEASED ::
      Total(b'.reservations, f) == Total(b.reservations, f)
        + if !Covers(f, r) then 0 else if f.state == RESERVED then dReserved else dCommitted
  }

  /** What is added fits where it is added, and every reservation names a job and scope of the book. */
  ghost predicate Afforded(b: Book, b': Book, r: Reservation, k: int, extra: int) {
    && (0 <= k < |b.scopes| ==> extra <= ScopeAvailable(b.scopes[k]))
    && (k < 0 && extra > 0 ==> r.jobId in b.jobs && extra <= JobAvailable(b.jobs[r.jobId]))
    && forall i :: 0 <= i < |b'.reservations| ==> ReservationOk(b, b'.reservations[i])
  }

  lemma MoveSum(b: Book, b': Book, r: Reservation, k: int, dReserved: int, dCommitted: int, j: string, w: Weight)
    requires Moved(b, b', r, k, dReserved, dCommitted)
    ensures ScopeSum(b'.scopes, j, w) == ScopeSum(b.scopes, j, w)
         + if j != r.jobId || k < 0 then 0
           else match w case ShareUnder(_) => 0 case ReservedIn => dReserved case CommittedIn => dCommitted
  {
    if k >= 0 { ScopeSumUpdate(b.scopes, k, b'.scopes[k], j, w); }
  }

  lemma MoveFind(b: Book, b': Book, r: Reservation, k: int, dReserved: int, dCommitted: int, j: string, id: string)
    requires Moved(b, b', r, k, dReserved, dCommitted)
    ensures FindScope(b'.scopes, j, id) == FindScope(b.scopes, j, id)
  {
    if k >= 0 { FindAfterUpdate(b.scopes, k, b'.scopes[k], j, id); }
  }

  lemma MoveScopeOk(b: Book, b': Book, r: Reservation, k: int, dReserved: int, dCommitted: int, i: nat)
    requires Inv(b) && Moved(b, b', r, k, dReserved, dCommitted) && TotalsMoved(b, b', r, dReserved, dCommitted)
    requires k >= 0 ==> dReserved + dCommitted <= ScopeAvailable(b.scopes[k])
    requires i < |b.scopes|
    ensures ScopeOk(b', i)
  {
    assert ScopeOk(b, i);
    var s := b.scopes[i];
    FindUnique(b.scopes, i);
    assert SameKey(b'.scopes[i], s);
    MoveSum(b, b', r, k, dReserved, dCommitted, s.jobId, ShareUnder(Some(s.scopeId)));
    if s.parent.Some? { MoveFind(b, b', r, k, dReserved, dCommitted, s.jobId, s.parent.value); }
    assert ScopeFilter(b'.scopes[i], RESERVED) == ScopeFilter(s, RESERVED);
    assert ScopeFilter(b'.scopes[i], COMMITTED) == ScopeFilter(s, COMMITTED);
  }

  lemma MoveJobOk(b: Book, b': Book, r: Reservation, k: int, dReserved: int, dCommitted: int, j: string)
    requires Inv(b) && Moved(b, b', r, k, dReserved, dCommitted) && TotalsMoved(b, b', r, dReserved, dCommitted)
    requires k < 0 && dReserved + dCommitted > 0 ==> dReserved + dCommitted <= JobAvailable(b.jobs[r.jobId])
    requires j in b.jobs
    ensures JobOk(b', j)
  {
    CountersNonNegative(b, j);
    assert JobOk(b, j);
    MoveSum(b, b', r, k, dReserved, dCommitted, j, ReservedIn);
    MoveSum(b, b', r, k, dReserved, dCommitted, j, CommittedIn);
    MoveSum(b, b', r, k, dReserved, dCommitted, j, ShareUnder(None));
    MoveTotals(b, b', r, k, dReserved, dCommitted, j, RESERVED);
    MoveTotals(b, b', r, k, dReserved, dCommitted, j, COMMITTED);
  }

  lemma MoveTotals(b: Book, b': Book, r: Reservation, k: int, dReserved: int, dCommitted: int, j: string, state: ReservationState)
    requires Moved(b, b', r, k, dReserved, dCommitted) && TotalsMoved(b, b', r, dReserved, dCommitted) && state != RELEASED
    ensures var d := if state == RESERVED then dReserved else dCommitted;
            && Total(b'.reservations, Filter(j, AnyScope, state))
               == Total(b.reservations, Filter(j, AnyScope, state)) + (if j == r.jobId then d else 0)
            && Direct(b', j, state) == Direct(b, j, state) + if j == r.jobId && k < 0 then d else 0
  {
  }

  lemma MoveKeepsInv(b: Book, b': Book, r: Reservation, k: int, dReserved: int, dCommitted: int)
    requires Inv(b) && Moved(b, b', r, k, dReserved, dCommitted) && TotalsMoved(b, b', r, dReserved, dCommitted)
    requires Afforded(b, b', r, k, dReserved + dCommitted)
    ensures Inv(b')
  {
    forall i, j | 0 <= i < j < |b'.scopes|
      ensures b'.scopes[i].jobId != b'.scopes[j].jobId || b'.scopes[i].scopeId != b'.scopes[j].scopeId
    {
      assert SameKey(b'.scopes[i], b.scopes[i]) && SameKey(b'.scopes[j], b.scopes[j]);
    }
    forall i | 0 <= i < |b'.scopes| ensures ScopeOk(b', i) { MoveScopeOk(b, b', r, k, dReserved, dCommitted, i); }
    forall j | j in b'.jobs ensures JobOk(b', j) { MoveJobOk(b, b', r, k, dReserved, dCommitted, j); }
    forall i | 0 <= i < |b'.reservations| ensures ReservationOk(b', b'.reservations[i]) {
      var x := b'.reservations[i];
      assert ReservationOk(b, x);
      if x.scopeId.Some? { MoveFind(b, b', r, k, dReserved, dCommitted, x.jobId, x.scopeId.value); }
    }
  }

  lemma ReserveKeepsInv(b: Book, jobId: string, scopeId: Option<string>, amount: Amount, source: Source)
    requires Inv(b)
    ensures Inv(ReserveStep(b, jobId, scopeId, amount, source).0)
  {
    var (b', o) := ReserveStep(b, jobId, scopeId, amount, source);
    if o.Reserved? {
      var r := Reservation(jobId, scopeId, amount.n, source, RESERVED);
      var k := ReserveMoves(b, r, amount);
      ReserveTotals(b, b', r);
      MoveKeepsInv(b, b', r, k, amount.n, 0);
    }
  }

  lemma ReserveTotals(b: Book, b': Book, r: Reservation)
    requires b'.reservations == b.reservations + [r] && r.state == RESERVED
    ensures TotalsMoved(b, b', r, r.amount, 0)
  {
    forall f: Filter | f.state != RELEASED
      ensures Total(b'.reservations, f) == Total(b.reservations, f) + Contribution(f, r)
    {
      TotalAppend(b.reservations, r, f);
    }
  }

  lemma ReserveMoves(b: Book, r: Reservation, amount: Amount) returns (k: int)
    requires Inv(b) && amount == Cents(r.amount) && r.state == RESERVED
    requires ReserveStep(b, r.jobId, r.scopeId, amount, r.source).1.Reserved?
    ensures var b' := ReserveStep(b, r.jobId, r.scopeId, amount, r.source).0;
            && Moved(b, b', r, k, r.amount, 0)
            && b'.reservations == b.reservations + [r]
            && Afforded(b, b', r, k, r.amount)
  {
    k := if r.scopeId.Some? then FindScope(b.scopes, r.jobId, r.scopeId.value) else -1;
    var b' := ReserveStep(b, r.jobId, r.scopeId, amount, r.source).0;
    forall i | 0 <= i < |b'.reservations| ensures ReservationOk(b, b'.reservations[i]) {
      if i < |b.reservations| { assert ReservationOk(b, b.reservations[i]); }
    }
  }

  lemma SettleTotals(b: Book, b': Book, id: nat, to: ReservationState)
    requires 0 < id <= |b.reservations| && b.reservations[id - 1].state == RESERVED && to != RESERVED
    requires b'.reservations == b.reservations[id - 1 := b.reservations[id - 1].(state := to)]
    ensures var r := b.reservations[id - 1];
            TotalsMoved(b, b', r, -r.amount, if to == COMMITTED then r.amount else 0)
  {
    var r := b.reservations[id - 1];
    forall f: Filter | f.state != RELEASED
      ensures Total(b'.reservations, f) == Total(b.reservations, f)
           + if !Covers(f, r) then 0 else if f.state == RESERVED then -r.amount
             else if to == COMMITTED then r.amount else 0
    {
      TotalUpdate(b.reservations, id - 1, r.(state := to), f);
    }
  }

  lemma SettleKeepsInv(b: Book, id: nat, to: ReservationState)
    requires Inv(b) && 0 < id <= |b.reservations| && b.reservations[id - 1].state == RESERVED
    requires b.reservations[id - 1].jobId in b.jobs && to != RESERVED
    ensures Inv(Settle(b, id, to, if to == COMMITTED then b.reservations[id - 1].amount else 0))
  {
    var r := b.reservations[id - 1];
    var spent := if to == COMMITTED then r.amount else 0;
    assert ReservationOk(b, r);
    var k := SettleIsGoodMove(b, id, to, spent);
    MovedKeepsInv(b, Settle(b, id, to, spent), r, k, -r.amount, spent);
  }

  lemma SettleIsGoodMove(b: Book, id: nat, to: ReservationState, spent: int) returns (k: int)
    requires Inv(b) && 0 < id <= |b.reservations| && b.reservations[id - 1].state == RESERVED
    requires b.reservations[id - 1].jobId in b.jobs && to != RESERVED && spent <= b.reservations[id - 1].amount
    requires spent == if to == COMMITTED then b.reservations[id - 1].amount else 0
    ensures var r := b.reservations[id - 1]; GoodMove(b, Settle(b, id, to, spent), r, k, -r.amount, spent)
  {
    k := SettleMoves(b, id, to, spent);
    SettledTotals(b, Settle(b, id, to, spent), id, to, spent);
  }

  /** A move that is accounted for and afforded. */
  ghost predicate GoodMove(b: Book, b': Book, r: Reservation, k: int, dReserved: int, dCommitted: int) {
    Moved(b, b', r, k, dReserved, dCommitted) && TotalsMoved(b, b', r, dReserved, dCommitted)
    && Afforded(b, b', r, k, dReserved + dCommitted)
  }

  lemma MovedKeepsInv(b: Book, b': Book, r: Reservation, k: int, dReserved: int, dCommitted: int)
    requires Inv(b)
    ensures GoodMove(b, b', r, k, dReserved, dCommitted) ==> Inv(b')
  {
    if GoodMove(b, b', r, k, dReserved, dCommitted) { MoveKeepsInv(b, b', r, k, dReserved, dCommitted); }
  }

  lemma SettleUpdates(b: Book, id: nat, to: ReservationState, spent: int)
    requires 0 < id <= |b.reservations| && b.reservations[id - 1].jobId in b.jobs
    ensures Settle(b, id, to, spent).reservations == b.reservations[id - 1 := b.reservations[id - 1].(state := to)]
  {
  }

  lemma SettledTotals(b: Book, b': Book, id: nat, to: ReservationState, spent: int)
    requires 0 < id <= |b.reservations| && b.reservations[id - 1].state == RESERVED
    requires b.reservations[id - 1].jobId in b.jobs && to != RESERVED
    requires spent == (if to == COMMITTED then b.reservations[id - 1].amount else 0) && b' == Settle(b, id, to, spent)
    ensures TotalsMoved(b, b', b.reservations[id - 1], -b.reservations[id - 1].amount, spent)
  {
    SettleUpdates(b, id, to, spent);
    SettleTotals(b, b', id, to);
  }

  lemma SettleMoves(b: Book, id: nat, to: ReservationState, spent: int) returns (k: int)
    requires Inv(b) && 0 < id <= |b.reservations| && b.reservations[id - 1].jobId in b.jobs
    requires spent <= b.reservations[id - 1].amount
    ensures var r, b' := b.reservations[id - 1], Settle(b, id, to, spent);
            && Moved(b, b', r, k, -r.amount, spent)
            && Afforded(b, b', r, k, -r.amount + spent)
  {
    var r := b.reservations[id - 1];
    k := if r.scopeId.Some? then FindScope(b.scopes, r.jobId, r.scopeId.value) else -1;
    assert ReservationOk(b, r);
    if k >= 0 { assert ScopeOk(b, k); }
    SettleUpdates(b, id, to, spent);
    SameParties(b, b.reservations[id - 1 := r.(state := to)]);
  }

  lemma SameParties(b: Book, rs: seq<Reservation>)
    requires Inv(b) && |rs| == |b.reservations|
    requires forall i :: 0 <= i < |rs| ==> rs[i] == b.reservations[i].(state := rs[i].state)
    ensures forall i :: 0 <= i < |rs| ==> ReservationOk(b, rs[i])
  {
    forall i | 0 <= i < |rs| ensures ReservationOk(b, rs[i]) { assert ReservationOk(b, b.reservations[i]); }
  }

  // ---------------------------------------------------------------------------------------------
  // All calls
  // ---------------------------------------------------------------------------------------------

  /** Changing only the escrow fields of a job keeps the invariant. */
  lemma EscrowKeepsInv(b: Book, jobId: string, j': Job)
    requires Inv(b) && jobId in b.jobs
    requires j'.held >= 0 && j'.released >= 0 && j'.refunded >= 0
    requires var j := b.jobs[jobId];
             j' == j.(held := j'.held, released := j'.released, refunded := j'.refunded, state := j'.state)
    ensures Inv(b.(jobs := b.jobs[jobId := j']))
  {
    var b' := b.(jobs := b.jobs[jobId := j']);
    forall i | 0 <= i < |b.scopes| ensures ScopeOk(b', i) { assert ScopeOk(b, i); }
    forall x | x in b'.jobs ensures JobOk(b', x) { assert JobOk(b, x); }
    forall i | 0 <= i < |b.reservations| ensures ReservationOk(b', b.reservations[i]) {
      assert ReservationOk(b, b.reservations[i]);
    }
  }

  lemma CommitKeepsInv(b: Book, jobId: string, id: nat)
    requires Inv(b)
    ensures Inv(CommitStep(b, jobId, id).0)
  {
    if Pending(b, jobId, id) == None { SettleKeepsInv(b, id, COMMITTED); }
  }

  lemma ReleaseKeepsInv(b: Book, jobId: string, id: nat)
    requires Inv(b)
    ensures Inv(ReleaseStep(b, jobId, id).0)
  {
    if Pending(b, jobId, id) == None { SettleKeepsInv(b, id, RELEASED); }
  }

  lemma MeterKeepsInv(b: Book, jobId: string, scopeId: Option<string>, amount: Amount, source: Source)
    requires Inv(b)
    ensures Inv(MeterStep(b, jobId, scopeId, amount, source).0)
  {
    ReserveKeepsInv(b, jobId, scopeId, amount, source);
    var (b', o) := ReserveStep(b, jobId, scopeId, amount, source);
    if o.Reserved? { CommitKeepsInv(b', jobId, o.id); }
  }

  lemma HoldKeepsInv(b: Book, jobId: string, amount: Amount)
    requires Inv(b)
    ensures Inv(HoldStep(b, jobId, amount).0)
  {
    var (b', o) := HoldStep(b, jobId, amount);
    if o.Held? {
      assert JobOk(b, jobId);
      EscrowKeepsInv(b, jobId, b'.jobs[jobId]);
    }
  }

  lemma DispositionKeepsInv(b: Book, jobId: string, to: Target, amount: Amount)
    requires Inv(b)
    ensures Inv(DispositionStep(b, jobId, to, amount).0)
  {
    var (b', o) := DispositionStep(b, jobId, to, amount);
    if o.Disposed? && to != ToHeld {
      assert JobOk(b, jobId);
      EscrowKeepsInv(b, jobId, b'.jobs[jobId]);
    }
  }

  /** Every call keeps the invariant. */
  lemma StepKeepsInv(b: Book, op: Op)
    requires Inv(b)
    ensures Inv(Step(b, op).0)
  {
    match op
    case OpenJob(j, c) => OpenJobKeepsInv(b, j, c);
    case OpenScope(j, s, p, a) => OpenScopeKeepsInv(b, j, s, p, a);
    case Reserve(j, s, a, src) => ReserveKeepsInv(b, j, s, a, src);
    case Commit(j, id) => CommitKeepsInv(b, j, id);
    case Release(j, id) => ReleaseKeepsInv(b, j, id);
    case Meter(j, s, a, src) => MeterKeepsInv(b, j, s, a, src);
    case Hold(j, a) => HoldKeepsInv(b, j, a);
    case Disposition(j, to, a) => DispositionKeepsInv(b, j, to, a);
  }

  /** The invariant holds after every sequence of calls. */
  lemma {:induction false} RunInv(ops: seq<Op>)
    ensures Inv(Run(ops))
  {
    if ops != [] {
      RunInv(ops[..|ops| - 1]);
      StepKeepsInv(Run(ops[..|ops| - 1]), ops[|ops| - 1]);
    }
  }
}
