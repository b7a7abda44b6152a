/** The job budget ledger: jobs with a ceiling, nested scopes carved out of a job or of another
    scope, and reservations that are committed or released. */
module Ledger {
  datatype Option<+T> = None | Some(value: T)

  /** An amount as a caller may pass it. */
  datatype Amount = Absent | Cents(n: int) | NotInteger

  datatype JobState = JobOpen | JobHeld | JobReleased | JobRefunded
  datatype ReservationState = RESERVED | COMMITTED | RELEASED
  datatype Source = Settlement | Metered | OtherSource
  datatype Target = ToReleased | ToRefunded | ToHeld | ToOther

  datatype Job = Job(
    ceiling: int, state: JobState,
    held: int, released: int, refunded: int,
    committed: int, reserved: int, childShares: int)

  /** A scope; `parent` is None when the share comes from the job itself. */
  datatype Scope = Scope(
    jobId: string, scopeId: string, parent: Option<string>,
    share: int, childShares: int, reserved: int, committed: int, open: bool)

  datatype Reservation = Reservation(
    jobId: string, scopeId: Option<string>, amount: int, source: Source, state: ReservationState)

  /** The whole state. Scopes and reservations are kept in insertion order; reservation number n,
      counting from one, is the n-th reservation. */
  datatype Book = Book(jobs: map<string, Job>, scopes: seq<Scope>, reservations: seq<Reservation>)

  datatype Code =
    | NoSuchJob | NoSuchScope | ScopeClosed | UnknownAmount | ExceedsScopeShare | ExceedsJobCeiling
    | NoSuchReservation | ReservationClosed | NothingHeld | InvalidDisposition

  datatype Outcome =
    | Thrown
    | Refused(code: Code)
    | Opened(available: int)
    | Reserved(id: nat, available: int)
    | Committed(id: nat, amount: int, committed: int)
    | Released(id: nat, amount: int, reserved: int)
    | Charged(id: nat, amount: int, committed: int, source: Source, available: int)
    | Held(held: int)
    | Disposed(held: int, released: int, refunded: int)

  predicate Failed(o: Outcome) {
    o.Thrown? || o.Refused?
  }

  predicate Positive(a: Amount) {
    a.Cents? && a.n > 0
  }

  /** The position of a scope, or -1. */
  function FindScope(scopes: seq<Scope>, jobId: string, scopeId: string): (k: int)
    ensures -1 <= k < |scopes|
    ensures k >= 0 ==> scopes[k].jobId == jobId && scopes[k].scopeId == scopeId
    ensures k < 0 ==> forall i :: 0 <= i < |scopes| ==> !(scopes[i].jobId == jobId && scopes[i].scopeId == scopeId)
  {
    if scopes == [] then -1
    else
      var n := |scopes| - 1;
      if scopes[n].jobId == jobId && scopes[n].scopeId == scopeId then n else FindScope(scopes[..n], jobId, scopeId)
  }

  function ScopeAvailable(s: Scope): int {
    s.share - s.childShares - s.reserved - s.committed
  }

  function JobAvailable(j: Job): int {
    j.ceiling - j.childShares - j.reserved - j.committed
  }

  // ---------------------------------------------------------------------------------------------
  // The transitions
  // ---------------------------------------------------------------------------------------------

  function OpenJobStep(b: Book, jobId: string, ceiling: Amount): (Book, Outcome) {
    if jobId == "" || !Positive(ceiling) || jobId in b.jobs then (b, Thrown)
    else (b.(jobs := b.jobs[jobId := Job(ceiling.n, JobOpen, 0, 0, 0, 0, 0, 0)]), Opened(ceiling.n))
  }

  function OpenScopeStep(b: Book, jobId: string, scopeId: string, parent: Option<string>, share: Amount): (Book, Outcome) {
    if jobId !in b.jobs then (b, Refused(NoSuchJob))
    else if scopeId == "" || !Positive(share) || FindScope(b.scopes, jobId, scopeId) >= 0 then (b, Thrown)
    else
      var s0 := Scope(jobId, scopeId, parent, share.n, 0, 0, 0, true);
      match parent
      case None =>
        var j := b.jobs[jobId];
        if share.n > JobAvailable(j) then (b, Refused(ExceedsJobCeiling))
        else (b.(jobs := b.jobs[jobId := j.(childShares := j.childShares + share.n)], scopes := b.scopes + [s0]),
              Opened(share.n))
      case Some(p) =>
        var k := FindScope(b.scopes, jobId, p);
        if k < 0 then (b, Refused(NoSuchScope))
        else if !b.scopes[k].open then (b, Refused(ScopeClosed))
        else if share.n > ScopeAvailable(b.scopes[k]) then (b, Refused(ExceedsJobCeiling))
        else
          var s := b.scopes[k];
          (b.(scopes := b.scopes[k := s.(childShares := s.childShares + share.n)] + [s0]), Opened(share.n))
  }

  function ReserveStep(b: Book, jobId: string, scopeId: Option<string>, amount: Amount, source: Source): (Book, Outcome) {
    if jobId !in b.jobs then (b, Refused(NoSuchJob))
    else if source == OtherSource then (b, Thrown)
    else if !Positive(amount) then (b, Refused(UnknownAmount))
    else
      var j := b.jobs[jobId];
      var j' := j.(reserved := j.reserved + amount.n);
      var rs := b.reservations + [Reservation(jobId, scopeId, amount.n, source, RESERVED)];
      match scopeId
      case None =>
        if amount.n > JobAvailable(j) then (b, Refused(ExceedsJobCeiling))
        else (Book(b.jobs[jobId := j'], b.scopes, rs), Reserved(|rs|, JobAvailable(j')))
      case Some(id) =>
        var k := FindScope(b.scopes, jobId, id);
        if k < 0 then (b, Refused(NoSuchScope))
        else if !b.scopes[k].open then (b, Refused(ScopeClosed))
        else if amount.n > ScopeAvailable(b.scopes[k]) then (b, Refused(ExceedsScopeShare))
        else
          var s := b.scopes[k];
          var s' := s.(reserved := s.reserved + amount.n);
          (Book(b.jobs[jobId := j'], b.scopes[k := s'], rs), Reserved(|rs|, ScopeAvailable(s')))
  }

  /** The checks that commit and release share. */
  function Pending(b: Book, jobId: string, id: nat): Option<Code> {
    if jobId !in b.jobs then Some(NoSuchJob)
    else if id == 0 || id > |b.reservations| || b.reservations[id - 1].jobId != jobId then Some(NoSuchReservation)
    else if b.reservations[id - 1].state != RESERVED then Some(ReservationClosed)
    else None
  }

  /** Take a pending reservation out of the reserved amounts, adding `spent` to the committed ones. */
  function Settle(b: Book, id: nat, to: ReservationState, spent: int): Book
    requires 0 < id <= |b.reservations| && b.reservations[id - 1].jobId in b.jobs
  {
    var r := b.reservations[id - 1];
    var j := b.jobs[r.jobId];
    var jobs' := b.jobs[r.jobId := j.(reserved := j.reserved - r.amount, committed := j.committed + spent)];
    var k := if r.scopeId.Some? then FindScope(b.scopes, r.jobId, r.scopeId.value) else -1;
    var scopes' :=
      if k < 0 then b.scopes
      else b.scopes[k := b.scopes[k].(reserved := b.scopes[k].reserved - r.amount,
                                      committed := b.scopes[k].committed + spent)];
    Book(jobs', scopes', b.reservations[id - 1 := r.(state := to)])
  }

  function CommitStep(b: Book, jobId: string, id: nat): (Book, Outcome) {
    match Pending(b, jobId, id)
    case Some(code) => (b, Refused(code))
    case None =>
      var r := b.reservations[id - 1];
      var b' := Settle(b, id, COMMITTED, r.amount);
      (b', Committed(id, r.amount, b'.jobs[jobId].committed))
  }

  function ReleaseStep(b: Book, jobId: string, id: nat): (Book, Outcome) {
    match Pending(b, jobId, id)
    case Some(code) => (b, Refused(code))
    case None =>
      var r := b.reservations[id - 1];
      var b' := Settle(b, id, RELEASED, 0);
      (b', Released(id, r.amount, b'.jobs[jobId].reserved))
  }

  function MeterStep(b: Book, jobId: string, scopeId: Option<string>, amount: Amount, source: Source): (Book, Outcome) {
    var (b', o) := ReserveStep(b, jobId, scopeId, amount, source);
    if !o.Reserved? then (b', o)
    else
      var (b'', done) := CommitStep(b', jobId, o.id);
      if !done.Committed? then (b'', done)
      else (b'', Charged(done.id, done.amount, done.committed, source, JobAvailable(b''.jobs[jobId])))
  }

  function HoldStep(b: Book, jobId: string, amount: Amount): (Book, Outcome) {
    if jobId !in b.jobs then (b, Refused(NoSuchJob))
    else
      var j := b.jobs[jobId];
      if !Positive(amount) then (b, Refused(UnknownAmount))
      else if j.held > 0 then (b, Refused(InvalidDisposition))
      else if amount.n > j.ceiling - j.committed - j.reserved then (b, Refused(ExceedsJobCeiling))
      else (b.(jobs := b.jobs[jobId := j.(held := amount.n, state := JobHeld)]), Held(amount.n))
  }

  function DispositionStep(b: Book, jobId: string, to: Target, amount: Amount): (Book, Outcome) {
    if jobId !in b.jobs then (b, Refused(NoSuchJob))
    else if to == ToOther then (b, Refused(InvalidDisposition))
    else
      var j := b.jobs[jobId];
      if j.held == 0 then (b, Refused(NothingHeld))
      else
        var a := if amount.Absent? then Cents(j.held) else amount;
        if !Positive(a) || a.n > j.held then (b, Refused(InvalidDisposition))
        else if to == ToHeld then (b, Disposed(j.held, 0, 0))
        else
          var rest := j.held - a.n;
          var j' :=
            if to == ToReleased then
              j.(held := rest, released := j.released + a.n, state := if rest == 0 then JobReleased else j.state)
            else
              j.(held := rest, refunded := j.refunded + a.n, state := if rest == 0 then JobRefunded else j.state);
          (b.(jobs := b.jobs[jobId := j']), Disposed(j'.held, j'.released, j'.refunded))
  }

  datatype Op =
    | OpenJob(jobId: string, ceiling: Amount)
    | OpenScope(jobId: string, scopeId: string, parent: Option<string>, share: Amount)
    | Reserve(jobId: string, scope: Option<string>, amount: Amount, source: Source)
    | Commit(jobId: string, id: nat)
    | Release(jobId: string, id: nat)
    | Meter(jobId: string, scope: Option<string>, amount: Amount, source: Source)
    | Hold(jobId: string, amount: Amount)
    | Disposition(jobId: string, to: Target, amount: Amount)

  function Step(b: Book, op: Op): (Book, Outcome) {
    match op
    case OpenJob(j, c) => OpenJobStep(b, j, c)
    case OpenScope(j, s, p, a) => OpenScopeStep(b, j, s, p, a)
    case Reserve(j, s, a, src) => ReserveStep(b, j, s, a, src)
    case Commit(j, id) => CommitStep(b, j, id)
    case Release(j, id) => ReleaseStep(b, j, id)
    case Meter(j, s, a, src) => MeterStep(b, j, s, a, src)
    case Hold(j, a) => HoldStep(b, j, a)
    case Disposition(j, to, a) => DispositionStep(b, j, to, a)
  }

  const EMPTY := Book(map[], [], [])

  /** The state after a sequence of calls on a new ledger. */
  function Run(ops: seq<Op>): Book {
    if ops == [] then EMPTY else Step(Run(ops[..|ops| - 1]), ops[|ops| - 1]).0
  }

  lemma RunPush(ops: seq<Op>, op: Op)
    ensures Run(ops + [op]) == Step(Run(ops), op).0
  {
    assert (ops + [op])[..|ops|] == ops;
  }

  // ---------------------------------------------------------------------------------------------
  // Sums over reservations and scopes
  // ---------------------------------------------------------------------------------------------

  datatype Which = AnyScope | Only(scopeId: Option<string>)
  datatype Filter = Filter(jobId: string, which: Which, state: ReservationState)

  predicate Matches(f: Filter, r: Reservation) {
    r.jobId == f.jobId && r.state == f.state && (f.which.Only? ==> r.scopeId == f.which.scopeId)
  }

  function Contribution(f: Filter, r: Reservation): int {
    if Matches(f, r) then r.amount else 0
  }

  /** The amounts of the matching reservations. */
  function Total(rs: seq<Reservation>, f: Filter): int {
    if rs == [] then 0 else Total(rs[..|rs| - 1], f) + Contribution(f, rs[|rs| - 1])
  }

  lemma TotalAppend(rs: seq<Reservation>, r: Reservation, f: Filter)
    ensures Total(rs + [r], f) == Total(rs, f) + Contribution(f, r)
  {
    assert (rs + [r])[..|rs|] == rs;
  }

  lemma {:induction false} TotalUpdate(rs: seq<Reservation>, k: nat, r: Reservation, f: Filter)
    requires k < |rs|
    ensures Total(rs[k := r], f) == Total(rs, f) - Contribution(f, rs[k]) + Contribution(f, r)
  {
    var n := |rs| - 1;
    if k == n {
      assert rs[k := r][..n] == rs[..n];
    } else {
      assert rs[k := r][..n] == rs[..n][k := r];
      TotalUpdate(rs[..n], k, r, f);
    }
  }

  datatype Weight = ShareUnder(parent: Option<string>) | ReservedIn | CommittedIn

  function Weigh(s: Scope, jobId: string, w: Weight): int {
    if s.jobId != jobId then 0
    else match w
      case ShareUnder(p) => if s.parent == p then s.share else 0
      case ReservedIn => s.reserved
      case CommittedIn => s.committed
  }

  /** A weight of a job's scopes, summed. */
  function ScopeSum(scopes: seq<Scope>, jobId: string, w: Weight): int {
    if scopes == [] then 0 else ScopeSum(scopes[..|scopes| - 1], jobId, w) + Weigh(scopes[|scopes| - 1], jobId, w)
  }

  lemma ScopeSumAppend(scopes: seq<Scope>, s: Scope, jobId: string, w: Weight)
    ensures ScopeSum(scopes + [s], jobId, w) == ScopeSum(scopes, jobId, w) + Weigh(s, jobId, w)
  {
    assert (scopes + [s])[..|scopes|] == scopes;
  }

  lemma {:induction false} ScopeSumUpdate(scopes: seq<Scope>, k: nat, s: Scope, jobId: string, w: Weight)
    requires k < |scopes|
    ensures ScopeSum(scopes[k := s], jobId, w) == ScopeSum(scopes, jobId, w) - Weigh(scopes[k], jobId, w) + Weigh(s, jobId, w)
  {
    var n := |scopes| - 1;
    if k == n {
      assert scopes[k := s][..n] == scopes[..n];
    } else {
      assert scopes[k := s][..n] == scopes[..n][k := s];
      ScopeSumUpdate(scopes[..n], k, s, jobId, w);
    }
  }

  // ---------------------------------------------------------------------------------------------
  // The invariant
  // ---------------------------------------------------------------------------------------------

  function ScopeFilter(s: Scope, state: ReservationState): Filter {
    Filter(s.jobId, Only(Some(s.scopeId)), state)
  }

  /** The counters of a scope are the sums of its reservations and of its children's shares, and
      together they fit in its share. */
  ghost predicate ScopeOk(b: Book, i: nat)
    requires i < |b.scopes|
  {
    var s := b.scopes[i];
    && s.jobId in b.jobs && s.open && s.share > 0
    && s.reserved == Total(b.reservations, ScopeFilter(s, RESERVED))
    && s.committed == Total(b.reservations, ScopeFilter(s, COMMITTED))
    && s.childShares == ScopeSum(b.scopes, s.jobId, ShareUnder(Some(s.scopeId)))
    && ScopeAvailable(s) >= 0
    && (s.parent.Some? ==> 0 <= FindScope(b.scopes, s.jobId, s.parent.value) < i)
  }

  /** What is drawn on the job itself rather than on a scope. */
  function Direct(b: Book, jobId: string, state: ReservationState): int {
    Total(b.reservations, Filter(jobId, Only(None), state))
  }

  /** The counters of a job are the sums of its reservations; they split into the direct ones and
      those of its scopes; and the direct ones fit in the ceiling beside the root shares. */
  ghost predicate JobOk(b: Book, jobId: string)
    requires jobId in b.jobs
  {
    var j := b.jobs[jobId];
    && j.ceiling > 0
    && j.reserved == Total(b.reservations, Filter(jobId, AnyScope, RESERVED))
    && j.committed == Total(b.reservations, Filter(jobId, AnyScope, COMMITTED))
    && j.reserved == Direct(b, jobId, RESERVED) + ScopeSum(b.scopes, jobId, ReservedIn)
    && j.committed == Direct(b, jobId, COMMITTED) + ScopeSum(b.scopes, jobId, CommittedIn)
    && j.childShares == ScopeSum(b.scopes, jobId, ShareUnder(None))
    && j.childShares + Direct(b, jobId, RESERVED) + Direct(b, jobId, COMMITTED) <= j.ceiling
    && j.held >= 0 && j.released >= 0 && j.refunded >= 0
  }

  ghost predicate ReservationOk(b: Book, r: Reservation) {
    && r.amount > 0 && r.jobId in b.jobs
    && (r.scopeId.Some? ==> FindScope(b.scopes, r.jobId, r.scopeId.value) >= 0)
  }

  ghost predicate UniqueScopes(scopes: seq<Scope>) {
    forall i, j :: 0 <= i < j < |scopes| ==> scopes[i].jobId != scopes[j].jobId || scopes[i].scopeId != scopes[j].scopeId
  }

  ghost predicate Inv(b: Book) {
    && UniqueScopes(b.scopes)
    && (forall i :: 0 <= i < |b.scopes| ==> ScopeOk(b, i))
    && (forall j | j in b.jobs :: JobOk(b, j))
    && (forall i :: 0 <= i < |b.reservations| ==> ReservationOk(b, b.reservations[i]))
  }
}
