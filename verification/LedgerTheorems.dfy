/** What holds of the ledger over whole runs: no subtree of scopes spends more than its share, no
    job more than its ceiling, refusals change nothing, and settled money stays settled. */
module LedgerTheorems {
  import opened Ledger
  import opened LedgerInvariant

  // ---------------------------------------------------------------------------------------------
  // A forest whose nodes spend within their share spends within the shares of its tops
  // ---------------------------------------------------------------------------------------------

  /** A node of a forest in creation order: its parent's position (or -1), its share, what it spends
      itself, whether it is selected, and whether it is a top of the selection. */
  datatype Node = Node(parent: int, share: int, own: int, selected: bool, top: bool)

  function OwnOf(ns: seq<Node>): int {
    if ns == [] then 0 else OwnOf(ns[..|ns| - 1]) + if ns[|ns| - 1].selected then ns[|ns| - 1].own else 0
  }

  function TopShares(ns: seq<Node>): int {
    if ns == [] then 0
    else TopShares(ns[..|ns| - 1]) + if ns[|ns| - 1].selected && ns[|ns| - 1].top then ns[|ns| - 1].share else 0
  }

  /** The shares of the selected children of node i that are not tops themselves. */
  function ChildShares(ns: seq<Node>, i: int): int {
    if ns == [] then 0
    else
      var c := ns[|ns| - 1];
      ChildShares(ns[..|ns| - 1], i) + if c.selected && !c.top && c.parent == i then c.share else 0
  }

  ghost predicate Forest(ns: seq<Node>) {
    && (forall i :: 0 <= i < |ns| && ns[i].selected && !ns[i].top ==> 0 <= ns[i].parent < i && ns[ns[i].parent].selected)
    && (forall i :: 0 <= i < |ns| && ns[i].selected ==> ns[i].own + ChildShares(ns, i) <= ns[i].share)
  }

  lemma {:induction false} OwnUpdate(ns: seq<Node>, k: nat, own: int)
    requires k < |ns| && ns[k].selected
    ensures OwnOf(ns[k := ns[k].(own := own)]) == OwnOf(ns) - ns[k].own + own
    ensures TopShares(ns[k := ns[k].(own := own)]) == TopShares(ns)
    ensures forall i :: ChildShares(ns[k := ns[k].(own := own)], i) == ChildShares(ns, i)
  {
    var n := |ns| - 1;
    var ns' := ns[k := ns[k].(own := own)];
    if k == n {
      assert ns'[..n] == ns[..n];
    } else {
      assert ns'[..n] == ns[..n][k := ns[k].(own := own)];
      OwnUpdate(ns[..n], k, own);
    }
  }

  lemma {:induction false} NoLaterChildren(ns: seq<Node>, i: int)
    requires forall c :: 0 <= c < |ns| && ns[c].selected && !ns[c].top ==> ns[c].parent < c
    requires i >= |ns| - 1
    ensures ChildShares(ns, i) == 0
  {
    if ns != [] { NoLaterChildren(ns[..|ns| - 1], i); }
  }

  /** Peel the last node off: it has no children, so what it spends can be charged to its parent
      in place of its share. */
  lemma {:induction false} ForestSpend(ns: seq<Node>)
    requires Forest(ns)
    ensures OwnOf(ns) <= TopShares(ns)
    decreases |ns|
  {
    if ns != [] {
      var n := |ns| - 1;
      var last := ns[n];
      var front := ns[..n];
      NoLaterChildren(ns, n);
      if !last.selected || last.top {
        FrontForest(ns);
        ForestSpend(front);
      } else {
        var p := last.parent;
        var charged := front[p := front[p].(own := front[p].own + last.own)];
        OwnUpdate(front, p, front[p].own + last.own);
        forall i | 0 <= i < n && charged[i].selected ensures charged[i].own + ChildShares(charged, i) <= charged[i].share {
          assert ns[i].own + ChildShares(ns, i) <= ns[i].share;
          assert last.own + ChildShares(ns, n) <= last.share;
        }
        ForestSpend(charged);
      }
    }
  }

  lemma FrontForest(ns: seq<Node>)
    requires Forest(ns) && ns != [] && (!ns[|ns| - 1].selected || ns[|ns| - 1].top)
    ensures Forest(ns[..|ns| - 1])
  {
    var front := ns[..|ns| - 1];
    forall i | 0 <= i < |front| && front[i].selected ensures front[i].own + ChildShares(front, i) <= front[i].share {
      assert ns[i].own + ChildShares(ns, i) <= ns[i].share;
    }
  }

  // ---------------------------------------------------------------------------------------------
  // The scopes of a book as such a forest
  // ---------------------------------------------------------------------------------------------

  /** The position of the parent of scope i, or -1. */
  function ParentOf(b: Book, i: nat): int
    requires i < |b.scopes|
  {
    if b.scopes[i].parent.None? then -1 else FindScope(b.scopes, b.scopes[i].jobId, b.scopes[i].parent.value)
  }

  /** Scope i is scope k or lies below it. */
  predicate Below(b: Book, i: nat, k: nat)
    requires i < |b.scopes|
    decreases i
  {
    i == k || (0 <= ParentOf(b, i) < i && Below(b, ParentOf(b, i), k))
  }

  function Spent(s: Scope): int {
    s.reserved + s.committed
  }

  /** Reserved plus committed in scope k and everything below it, over the first n scopes. */
  function SubtreeSpend(b: Book, k: nat, n: nat): int
    requires n <= |b.scopes|
  {
    if n == 0 then 0 else SubtreeSpend(b, k, n - 1) + if Below(b, n - 1, k) then Spent(b.scopes[n - 1]) else 0
  }

  datatype Selection = SubtreeOf(k: nat) | JobOf(jobId: string)

  function NodeAt(b: Book, sel: Selection, i: nat): Node
    requires i < |b.scopes|
  {
    var s := b.scopes[i];
    match sel
    case SubtreeOf(k) => Node(ParentOf(b, i), s.share, Spent(s), Below(b, i, k), i == k)
    case JobOf(j) => Node(ParentOf(b, i), s.share, Spent(s), s.jobId == j, s.parent.None?)
  }

  function Nodes(b: Book, sel: Selection, n: nat): (ns: seq<Node>)
    requires n <= |b.scopes|
    ensures |ns| == n && forall i :: 0 <= i < n ==> ns[i] == NodeAt(b, sel, i)
  {
    seq(n, i requires 0 <= i < n => NodeAt(b, sel, i))
  }

  /** The selected children of scope i are among the scopes whose shares i has given out. */
  lemma {:induction false} ChildSharesWithin(b: Book, sel: Selection, i: nat, n: nat)
    requires Inv(b) && n <= |b.scopes| && i < |b.scopes|
    ensures ChildShares(Nodes(b, sel, n), i) <= ScopeSum(b.scopes[..n], b.scopes[i].jobId, ShareUnder(Some(b.scopes[i].scopeId)))
  {
    if n > 0 {
      ChildSharesWithin(b, sel, i, n - 1);
      assert Nodes(b, sel, n)[..n - 1] == Nodes(b, sel, n - 1);
      assert b.scopes[..n][..n - 1] == b.scopes[..n - 1];
      assert ScopeOk(b, n - 1);
    }
  }

  lemma ScopesAreForest(b: Book, sel: Selection)
    requires Inv(b)
    ensures Forest(Nodes(b, sel, |b.scopes|))
  {
    var ns := Nodes(b, sel, |b.scopes|);
    forall i | 0 <= i < |ns| && ns[i].selected
      ensures !ns[i].top ==> 0 <= ns[i].parent < i && ns[ns[i].parent].selected
      ensures ns[i].own + ChildShares(ns, i) <= ns[i].share
    {
      assert ScopeOk(b, i);
      ChildSharesWithin(b, sel, i, |b.scopes|);
      assert b.scopes[..|b.scopes|] == b.scopes;
    }
  }

  lemma {:induction false} SubtreeNodes(b: Book, k: nat, n: nat)
    requires n <= |b.scopes|
    ensures OwnOf(Nodes(b, SubtreeOf(k), n)) == SubtreeSpend(b, k, n)
    ensures TopShares(Nodes(b, SubtreeOf(k), n)) == if k < n then b.scopes[k].share else 0
  {
    if n > 0 {
      SubtreeNodes(b, k, n - 1);
      assert Nodes(b, SubtreeOf(k), n)[..n - 1] == Nodes(b, SubtreeOf(k), n - 1);
    }
  }

  lemma {:induction false} JobNodes(b: Book, j: string, n: nat)
    requires n <= |b.scopes|
    ensures OwnOf(Nodes(b, JobOf(j), n)) == ScopeSum(b.scopes[..n], j, ReservedIn) + ScopeSum(b.scopes[..n], j, CommittedIn)
    ensures TopShares(Nodes(b, JobOf(j), n)) == ScopeSum(b.scopes[..n], j, ShareUnder(None))
  {
    if n > 0 {
      JobNodes(b, j, n - 1);
      assert Nodes(b, JobOf(j), n)[..n - 1] == Nodes(b, JobOf(j), n - 1);
      assert b.scopes[..n][..n - 1] == b.scopes[..n - 1];
    }
  }

  // ---------------------------------------------------------------------------------------------
  // No overspending
  // ---------------------------------------------------------------------------------------------

  /** After every run, a scope and everything below it together hold no more than its share. */
  lemma SubtreeWithinShare(ops: seq<Op>, k: nat)
    requires k < |Run(ops).scopes|
    ensures SubtreeSpend(Run(ops), k, |Run(ops).scopes|) <= Run(ops).scopes[k].share
  {
    var b := Run(ops);
    RunInv(ops);
    ScopesAreForest(b, SubtreeOf(k));
    ForestSpend(Nodes(b, SubtreeOf(k), |b.scopes|));
    SubtreeNodes(b, k, |b.scopes|);
  }

  lemma JobWithinCeilingInv(b: Book, jobId: string)
    requires Inv(b) && jobId in b.jobs
    ensures 0 <= b.jobs[jobId].committed && 0 <= b.jobs[jobId].reserved
    ensures b.jobs[jobId].reserved + b.jobs[jobId].committed <= b.jobs[jobId].ceiling
  {
    CountersNonNegative(b, jobId);
    assert JobOk(b, jobId);
    ScopesAreForest(b, JobOf(jobId));
    ForestSpend(Nodes(b, JobOf(jobId), |b.scopes|));
    JobNodes(b, jobId, |b.scopes|);
    assert b.scopes[..|b.scopes|] == b.scopes;
  }

  /** After every run, the reservations of a job that are reserved or committed add up to its
      counters, and these fit in its ceiling. */
  lemma JobWithinCeiling(ops: seq<Op>, jobId: string)
    requires jobId in Run(ops).jobs
    ensures var b := Run(ops);
            Total(b.reservations, Filter(jobId, AnyScope, RESERVED)) == b.jobs[jobId].reserved
            && Total(b.reservations, Filter(jobId, AnyScope, COMMITTED)) == b.jobs[jobId].committed
            && b.jobs[jobId].reserved + b.jobs[jobId].committed <= b.jobs[jobId].ceiling
  {
    RunInv(ops);
    JobWithinCeilingInv(Run(ops), jobId);
    assert JobOk(Run(ops), jobId);
  }

  // ---------------------------------------------------------------------------------------------
  // Refusals and settlements
  // ---------------------------------------------------------------------------------------------

  /** A reservation that was just made can be committed, so metering cannot stop half way. */
  lemma MeterIsAtomic(b: Book, jobId: string, scopeId: Option<string>, amount: Amount, source: Source)
    ensures var (b', o) := ReserveStep(b, jobId, scopeId, amount, source);
            MeterStep(b, jobId, scopeId, amount, source).1.Charged? <==> o.Reserved?
    ensures var (b', o) := MeterStep(b, jobId, scopeId, amount, source);
            if o.Charged? then b'.reservations == b.reservations + [Reservation(jobId, scopeId, amount.n, source, COMMITTED)]
            else b' == b
  {
    var (b', o) := ReserveStep(b, jobId, scopeId, amount, source);
    if o.Reserved? {
      var r := Reservation(jobId, scopeId, amount.n, source, RESERVED);
      assert b'.reservations == b.reservations + [r] && o.id == |b.reservations| + 1;
      assert b'.reservations[o.id - 1] == r && Pending(b', jobId, o.id) == None;
      assert (b.reservations + [r])[o.id - 1 := r.(state := COMMITTED)] == b.reservations + [r.(state := COMMITTED)];
    }
  }

  /** A call that is refused or throws leaves the state unchanged. */
  lemma RefusalChangesNothing(b: Book, op: Op)
    requires Failed(Step(b, op).1)
    ensures Step(b, op).0 == b
  {
    if op.Meter? { MeterIsAtomic(b, op.jobId, op.scope, op.amount, op.source); }
  }

  /** A cost is accepted exactly when it is a positive integer that fits in what its scope, or its
      job, has left; otherwise the call fails. */
  lemma ReserveAcceptedIff(ops: seq<Op>, jobId: string, scopeId: Option<string>, amount: Amount, source: Source)
    ensures var b := Run(ops);
            ReserveStep(b, jobId, scopeId, amount, source).1.Reserved? <==>
              && jobId in b.jobs && source != OtherSource && Positive(amount)
              && (scopeId.None? ==> amount.n <= JobAvailable(b.jobs[jobId]))
              && (scopeId.Some? ==>
                    exists k :: 0 <= k < |b.scopes| && b.scopes[k].jobId == jobId && b.scopes[k].scopeId == scopeId.value
                                && amount.n <= ScopeAvailable(b.scopes[k]))
    ensures ReserveStep(Run(ops), jobId, scopeId, amount, source).1 != Refused(ScopeClosed)
  {
    RunInv(ops);
    if scopeId.Some? { ScopeLookup(Run(ops), jobId, scopeId.value, amount); }
  }

  lemma ScopeLookup(b: Book, jobId: string, scopeId: string, amount: Amount)
    requires Inv(b)
    ensures var k := FindScope(b.scopes, jobId, scopeId);
            && (k >= 0 ==> b.scopes[k].open)
            && (amount.Cents? ==>
                  ((k >= 0 && amount.n <= ScopeAvailable(b.scopes[k])) <==>
                   exists i :: 0 <= i < |b.scopes| && b.scopes[i].jobId == jobId && b.scopes[i].scopeId == scopeId
                               && amount.n <= ScopeAvailable(b.scopes[i])))
  {
    var k := FindScope(b.scopes, jobId, scopeId);
    if k >= 0 {
      assert ScopeOk(b, k);
      assert forall i :: 0 <= i < |b.scopes| && b.scopes[i].jobId == jobId && b.scopes[i].scopeId == scopeId ==> i == k;
    }
  }

  /** A reservation once made keeps its job, scope, amount and source, and once committed or
      released it stays so, whatever is called afterwards. */
  ghost predicate Continues(r: Reservation, r': Reservation) {
    && r' == r.(state := r'.state)
    && (r.state != RESERVED ==> r'.state == r.state)
  }

  ghost predicate Extends(b: Book, b': Book) {
    && |b.reservations| <= |b'.reservations|
    && forall i :: 0 <= i < |b.reservations| ==> Continues(b.reservations[i], b'.reservations[i])
  }

  lemma SettleExtends(b: Book, id: nat, to: ReservationState, spent: int)
    requires 0 < id <= |b.reservations| && b.reservations[id - 1].jobId in b.jobs
    requires b.reservations[id - 1].state == RESERVED
    ensures Extends(b, Settle(b, id, to, spent))
  {
  }

  lemma StepExtends(b: Book, op: Op)
    ensures Extends(b, Step(b, op).0)
  {
    match op
    case Commit(j, id) => if Pending(b, j, id) == None { SettleExtends(b, id, COMMITTED, b.reservations[id - 1].amount); }
    case Release(j, id) => if Pending(b, j, id) == None { SettleExtends(b, id, RELEASED, 0); }
    case Meter(j, s, a, src) => MeterIsAtomic(b, j, s, a, src);
    case _ =>
  }

  lemma {:induction false} SettledStaysSettled(ops: seq<Op>, more: seq<Op>)
    ensures Extends(Run(ops), Run(ops + more))
  {
    if more == [] {
      assert ops + more == ops;
    } else {
      var n := |more| - 1;
      assert (ops + more)[..|ops| + n] == ops + more[..n];
      SettledStaysSettled(ops, more[..n]);
      StepExtends(Run(ops + more[..n]), more[n]);
    }
  }

  // ---------------------------------------------------------------------------------------------
  // Escrow
  // ---------------------------------------------------------------------------------------------

  /** The amounts that successful holds have locked for a job over a run. */
  function HoldSum(ops: seq<Op>, jobId: string): int {
    if ops == [] then 0
    else
      var before := ops[..|ops| - 1];
      var op := ops[|ops| - 1];
      HoldSum(before, jobId) + if op.Hold? && op.jobId == jobId && Step(Run(before), op).1.Held? then op.amount.n else 0
  }

  function Escrow(j: Job): int {
    j.held + j.released + j.refunded
  }

  /** No job appears or loses escrow. */
  ghost predicate SameEscrow(b: Book, b': Book) {
    b'.jobs.Keys == b.jobs.Keys && forall j | j in b.jobs :: Escrow(b'.jobs[j]) == Escrow(b.jobs[j])
  }

  lemma SettleEscrow(b: Book, id: nat, to: ReservationState, spent: int)
    requires 0 < id <= |b.reservations| && b.reservations[id - 1].jobId in b.jobs
    ensures SameEscrow(b, Settle(b, id, to, spent))
  {
  }

  lemma ReserveEscrow(b: Book, j: string, s: Option<string>, a: Amount, src: Source)
    ensures SameEscrow(b, ReserveStep(b, j, s, a, src).0)
  {
  }

  lemma CommitEscrow(b: Book, j: string, id: nat)
    ensures SameEscrow(b, CommitStep(b, j, id).0)
  {
    if Pending(b, j, id) == None { SettleEscrow(b, id, COMMITTED, b.reservations[id - 1].amount); }
  }

  lemma OpenScopeEscrow(b: Book, j: string, s: string, p: Option<string>, a: Amount)
    ensures SameEscrow(b, OpenScopeStep(b, j, s, p, a).0)
  {
  }

  lemma DispositionEscrow(b: Book, j: string, to: Target, a: Amount)
    ensures SameEscrow(b, DispositionStep(b, j, to, a).0)
  {
  }

  /** Only a successful hold changes the sum of what a job holds, released and refunded. */
  lemma EscrowStep(b: Book, op: Op)
    requires !op.Hold? && !op.OpenJob?
    ensures SameEscrow(b, Step(b, op).0)
  {
    match op
    case OpenScope(j, s, p, a) => OpenScopeEscrow(b, j, s, p, a);
    case Reserve(j, s, a, src) => ReserveEscrow(b, j, s, a, src);
    case Commit(j, id) => CommitEscrow(b, j, id);
    case Release(j, id) =>
      if Pending(b, j, id) == None { SettleEscrow(b, id, RELEASED, 0); }
    case Meter(j, s, a, src) =>
      ReserveEscrow(b, j, s, a, src);
      var (b', o) := ReserveStep(b, j, s, a, src);
      if o.Reserved? { CommitEscrow(b', j, o.id); }
    case Disposition(j, to, a) => DispositionEscrow(b, j, to, a);
  }

  lemma HoldEscrow(b: Book, j: string, a: Amount, jobId: string)
    requires Inv(b) && jobId in b.jobs
    ensures var (b', o) := HoldStep(b, j, a);
            jobId in b'.jobs && Escrow(b'.jobs[jobId]) == Escrow(b.jobs[jobId]) + if j == jobId && o.Held? then a.n else 0
  {
    assert JobOk(b, jobId);
  }

  /** After every run, what a job has locked in escrow over time is what it still holds plus what
      was released plus what was refunded. */
  lemma {:induction false} EscrowConserved(ops: seq<Op>, jobId: string)
    ensures jobId in Run(ops).jobs ==>
              Escrow(Run(ops).jobs[jobId]) == HoldSum(ops, jobId)
    ensures jobId !in Run(ops).jobs ==> HoldSum(ops, jobId) == 0
  {
    if ops != [] {
      var before := ops[..|ops| - 1];
      RunInv(before);
      EscrowConserved(before, jobId);
      var b, op := Run(before), ops[|ops| - 1];
      match op
      case Hold(j, a) => if jobId in b.jobs { HoldEscrow(b, j, a, jobId); }
      case OpenJob(j, c) =>
      case _ => EscrowStep(b, op);
    }
  }

  // ---------------------------------------------------------------------------------------------
  // Where the ledger is stricter than its description
  // ---------------------------------------------------------------------------------------------

  /** What is spent inside scopes counts once in their shares and once more in the job's own
      counters, so the amount the job reports as available differs from what is left of the ceiling
      beside the root shares by exactly the scopes' spending. */
  lemma AvailableCountsScopesTwice(ops: seq<Op>, jobId: string)
    requires jobId in Run(ops).jobs
    ensures var b := Run(ops);
            JobAvailable(b.jobs[jobId])
              == b.jobs[jobId].ceiling - b.jobs[jobId].childShares - Direct(b, jobId, RESERVED) - Direct(b, jobId, COMMITTED)
                 - (ScopeSum(b.scopes, jobId, ReservedIn) + ScopeSum(b.scopes, jobId, CommittedIn))
  {
    RunInv(ops);
    assert JobOk(Run(ops), jobId);
  }

  /** A family of runs: a job of ceiling c, a scope of share a, and r reserved in the scope. The job
      then reports c - a - r as available, which is negative whenever a + r exceeds c although
      nothing was overspent. */
  lemma AvailableAfterScopeSpend(j: string, s: string, c: int, a: int, r: int)
    requires j != "" && s != "" && 0 < r <= a <= c
    ensures var b := Run([OpenJob(j, Cents(c)), OpenScope(j, s, None, Cents(a)), Reserve(j, Some(s), Cents(r), Settlement)]);
            j in b.jobs && JobAvailable(b.jobs[j]) == c - a - r
  {
    var j1 := Job(c, JobOpen, 0, 0, 0, 0, 0, 0);
    RunThree(OpenJob(j, Cents(c)), OpenScope(j, s, None, Cents(a)), Reserve(j, Some(s), Cents(r), Settlement));
    assert Step(EMPTY, OpenJob(j, Cents(c))).0 == Book(map[j := j1], [], []);
    FirstScope(j, s, j1, a);
    FirstReserve(j, s, j1.(childShares := a), a, r);
  }

  lemma FirstScope(j: string, s: string, job: Job, a: int)
    requires s != "" && 0 < a <= job.ceiling && job == Job(job.ceiling, JobOpen, 0, 0, 0, 0, 0, 0)
    ensures Step(Book(map[j := job], [], []), OpenScope(j, s, None, Cents(a))).0
         == Book(map[j := job.(childShares := a)], [Scope(j, s, None, a, 0, 0, 0, true)], [])
  {
    assert FindScope([], j, s) == -1;
    assert map[j := job][j := job.(childShares := a)] == map[j := job.(childShares := a)];
  }

  lemma FirstReserve(j: string, s: string, job: Job, a: int, r: int)
    requires 0 < r <= a && job.reserved == 0 && job.committed == 0
    ensures var b := Step(Book(map[j := job], [Scope(j, s, None, a, 0, 0, 0, true)], []), Reserve(j, Some(s), Cents(r), Settlement)).0;
            j in b.jobs && JobAvailable(b.jobs[j]) == job.ceiling - job.childShares - r
  {
    assert FindScope([Scope(j, s, None, a, 0, 0, 0, true)], j, s) == 0;
  }

  lemma RunThree(o1: Op, o2: Op, o3: Op)
    ensures Run([o1, o2, o3]) == Step(Step(Step(EMPTY, o1).0, o2).0, o3).0
  {
    assert [o1][..0] == [] && [o1, o2][..1] == [o1] && [o1, o2, o3][..2] == [o1, o2];
    assert Run([o1]) == Step(EMPTY, o1).0;
    assert Run([o1, o2]) == Step(Run([o1]), o2).0;
  }

  /** An amount is held exactly when the job exists, nothing is held, and the amount is a positive integer
      that fits in the ceiling beside what is committed and reserved; it is then held in full, and nothing
      else changes. Each refusal has its own condition. */
  lemma HoldAcceptedIff(b: Book, jobId: string, amount: Amount)
    ensures var (b', o) := HoldStep(b, jobId, amount);
            && (o == Refused(NoSuchJob) <==> jobId !in b.jobs)
            && (o == Refused(UnknownAmount) <==> jobId in b.jobs && !(amount.Cents? && amount.n > 0))
            && (o == Refused(InvalidDisposition) <==> jobId in b.jobs && amount.Cents? && amount.n > 0 && b.jobs[jobId].held > 0)
            && (o == Refused(ExceedsJobCeiling) <==>
                  && jobId in b.jobs && amount.Cents? && amount.n > 0 && b.jobs[jobId].held <= 0
                  && b.jobs[jobId].committed + b.jobs[jobId].reserved + amount.n > b.jobs[jobId].ceiling)
            && (o.Held? <==>
                  && jobId in b.jobs && amount.Cents? && amount.n > 0 && b.jobs[jobId].held <= 0
                  && b.jobs[jobId].committed + b.jobs[jobId].reserved + amount.n <= b.jobs[jobId].ceiling)
            && (o.Held? ==> o.held == amount.n && b' == b.(jobs := b.jobs[jobId := b.jobs[jobId].(held := amount.n, state := JobHeld)]))
  {
  }

  /** A part of what is held is released or refunded exactly when it is a positive integer within what is
      held; without an amount it is all of it. Refusals come in this order. */
  lemma DispositionAcceptedIff(b: Book, jobId: string, to: Target, amount: Amount, part: int)
    requires jobId in b.jobs && part == (if amount.Cents? then amount.n else b.jobs[jobId].held)
    ensures var o, held := DispositionStep(b, jobId, to, amount).1, b.jobs[jobId].held;
            && (o.Disposed? <==> to != ToOther && held != 0 && amount != NotInteger && 0 < part <= held)
            && (o == Refused(NothingHeld) <==> to != ToOther && held == 0)
            && (o.Disposed? ==> o.held == (if to == ToHeld then held else held - part))
    ensures var b', o := DispositionStep(b, jobId, to, amount).0, DispositionStep(b, jobId, to, amount).1;
            o.Disposed? && to != ToHeld ==>
              && b'.jobs[jobId].held == b.jobs[jobId].held - part
              && b'.jobs[jobId].released == b.jobs[jobId].released + (if to == ToReleased then part else 0)
              && b'.jobs[jobId].refunded == b.jobs[jobId].refunded + (if to == ToRefunded then part else 0)
  {
  }

  /** A scope is opened exactly when its name is new and not empty, its parent is there, and its share is a
      positive integer that fits in what the job, or the parent, has left. */
  lemma OpenScopeAcceptedIff(ops: seq<Op>, jobId: string, scopeId: string, parent: Option<string>, share: Amount)
    ensures var b := Run(ops);
            OpenScopeStep(b, jobId, scopeId, parent, share).1.Opened? <==>
              && jobId in b.jobs && scopeId != "" && share.Cents? && share.n > 0
              && (forall k :: 0 <= k < |b.scopes| ==> !(b.scopes[k].jobId == jobId && b.scopes[k].scopeId == scopeId))
              && (parent.None? ==>
                    var j := b.jobs[jobId]; share.n + j.childShares + j.reserved + j.committed <= j.ceiling)
              && (parent.Some? ==>
                    exists k :: 0 <= k < |b.scopes| && b.scopes[k].jobId == jobId && b.scopes[k].scopeId == parent.value
                                && share.n <= ScopeAvailable(b.scopes[k]))
  {
    RunInv(ops);
    if parent.Some? { ScopeLookup(Run(ops), jobId, parent.value, share); }
  }
}
