/** The payment harness: a challenge is signed only after its amount is reserved in the ledger, and
    settling commits or releases that reservation. */
module X402 {
  import opened Ledger
  import opened LedgerInvariant
  import opened LedgerTheorems
  import opened LedgerObject

  /** A challenge with an id. `printable` says whether it has a canonical text, which is what is signed. */
  datatype Challenge = Challenge(id: string, amount: Amount, printable: bool)

  /** A signature can be computed: the secret is a non-empty text and the challenge has a canonical text. */
  predicate CanSign(secret: Option<string>, c: Challenge) {
    secret.Some? && secret.value != "" && c.printable
  }

  datatype SignOutcome =
    | NoChallenge
    | NoSigningSecret
    | AlreadyReserved(id: nat)
    | CostRefused(outcome: Outcome)
    | Signed(id: nat)
    | SigningThrew(id: nat)

  /** What the injected settlement adapter answers. */
  datatype Settler = SettlerThrew | NoSettlementId | SettlementId

  /** The envelope that comes with a settlement: none, one without a signature text, or one whose
      signature is that of the challenge or not. */
  datatype Envelope = NoEnvelope | Unsigned | Signature(genuine: bool)

  datatype SettleOutcome = NotPerformed | MissingChallenge | CheckThrew | BadSignature | Unknown | Settled

  /** The harness beside its ledger: which reservation each outstanding signed challenge holds. */
  datatype Desk = Desk(book: Book, held: map<string, nat>)

  /** Only a missing secret is refused before the amount is reserved. */
  function SignStep(d: Desk, jobId: string, scopeId: Option<string>, secret: Option<string>, c: Option<Challenge>): (Desk, SignOutcome) {
    if c.None? then (d, NoChallenge)
    else if secret.None? then (d, NoSigningSecret)
    else if c.value.id in d.held then (d, AlreadyReserved(d.held[c.value.id]))
    else
      var (b, o) := ReserveStep(d.book, jobId, scopeId, c.value.amount, Settlement);
      if !o.Reserved? then (Desk(b, d.held), CostRefused(o))
      else (Desk(b, d.held[c.value.id := o.id]), if CanSign(secret, c.value) then Signed(o.id) else SigningThrew(o.id))
  }

  /** Commit or release the reservation of a challenge, if it holds one. */
  function SettleReservationStep(d: Desk, jobId: string, id: string, commit: bool): Desk {
    if id !in d.held then d
    else
      var (b, o) := if commit then CommitStep(d.book, jobId, d.held[id]) else ReleaseStep(d.book, jobId, d.held[id]);
      Desk(b, if Failed(o) then d.held else d.held - {id})
  }

  /** Checking a signature computes the right one first, so it throws where signing throws. */
  function CheckEnvelope(secret: Option<string>, c: Challenge, envelope: Envelope): Option<SettleOutcome> {
    if envelope == NoEnvelope || secret.None? then None
    else if envelope == Unsigned then Some(BadSignature)
    else if !CanSign(secret, c) then Some(CheckThrew)
    else if !envelope.genuine then Some(BadSignature)
    else None
  }

  /** Whether settling ends in a settlement, and what it answers. */
  function SettleVerdict(live: bool, secret: Option<string>, c: Option<Challenge>, envelope: Envelope, settler: Settler): SettleOutcome {
    if !live then NotPerformed
    else if c.None? then MissingChallenge
    else
      var refused := CheckEnvelope(secret, c.value, envelope);
      if refused.Some? then refused.value
      else if settler == SettlementId then Settled
      else Unknown
  }

  function SettleStep(d: Desk, jobId: string, live: bool, secret: Option<string>, c: Option<Challenge>, envelope: Envelope, settler: Settler): (Desk, SettleOutcome) {
    var verdict := SettleVerdict(live, secret, c, envelope, settler);
    if c.None? || verdict == CheckThrew then (d, verdict)
    else (SettleReservationStep(d, jobId, c.value.id, verdict == Settled), verdict)
  }

  // ---------------------------------------------------------------------------------------------
  // Outstanding challenges and reservations
  // ---------------------------------------------------------------------------------------------

  /** The reservation numbers of a job that are reserved and not yet settled. */
  ghost predicate Open(b: Book, jobId: string, id: nat) {
    0 < id <= |b.reservations| && b.reservations[id - 1].jobId == jobId && b.reservations[id - 1].state == RESERVED
  }

  /** Outstanding challenges and open reservations of the job correspond one to one. */
  ghost predicate Bijection(d: Desk, jobId: string) {
    && jobId in d.book.jobs
    && (forall c | c in d.held :: Open(d.book, jobId, d.held[c]))
    && (forall c, c' | c in d.held && c' in d.held :: d.held[c] == d.held[c'] ==> c == c')
    && (forall id | Open(d.book, jobId, id) :: exists c :: c in d.held && d.held[c] == id)
  }

  ghost predicate DeskOk(d: Desk, jobId: string) {
    Inv(d.book) && Bijection(d, jobId)
  }

  /** A harness created on a ledger whose job has no open reservation starts in order. */
  lemma DeskStarts(ops: seq<Op>, jobId: string)
    requires jobId in Run(ops).jobs && forall id :: !Open(Run(ops), jobId, id)
    ensures DeskOk(Desk(Run(ops), map[]), jobId)
  {
    RunInv(ops);
  }

  lemma SignKeeps(d: Desk, jobId: string, scopeId: Option<string>, secret: Option<string>, c: Option<Challenge>)
    requires DeskOk(d, jobId)
    ensures DeskOk(SignStep(d, jobId, scopeId, secret, c).0, jobId)
  {
    if c.Some? && secret.Some? && c.value.id !in d.held {
      ReserveKeepsInv(d.book, jobId, scopeId, c.value.amount, Settlement);
      var (b, o) := ReserveStep(d.book, jobId, scopeId, c.value.amount, Settlement);
      if o.Reserved? {
        ReserveOpens(d.book, jobId, scopeId, c.value.amount);
        AddOutstanding(d, b, jobId, c.value.id, o.id);
      }
    }
  }

  lemma ReserveOpens(b: Book, jobId: string, scopeId: Option<string>, amount: Amount)
    requires ReserveStep(b, jobId, scopeId, amount, Settlement).1.Reserved?
    ensures var (b', o) := ReserveStep(b, jobId, scopeId, amount, Settlement);
            && o.id == |b.reservations| + 1 && b'.jobs.Keys == b.jobs.Keys
            && forall id :: Open(b', jobId, id) <==> Open(b, jobId, id) || id == o.id
  {
    var (b', o) := ReserveStep(b, jobId, scopeId, amount, Settlement);
    assert b'.reservations == b.reservations + [Reservation(jobId, scopeId, amount.n, Settlement, RESERVED)];
  }

  lemma AddOutstanding(d: Desk, b: Book, jobId: string, c: string, n: nat)
    requires Bijection(d, jobId) && jobId in b.jobs && c !in d.held && !Open(d.book, jobId, n)
    requires forall id :: Open(b, jobId, id) <==> Open(d.book, jobId, id) || id == n
    ensures Bijection(Desk(b, d.held[c := n]), jobId)
  {
    var held' := d.held[c := n];
    forall id | Open(b, jobId, id) ensures exists x :: x in held' && held'[x] == id {
      if id == n {
        assert held'[c] == id;
      } else {
        var x :| x in d.held && d.held[x] == id;
        assert held'[x] == id;
      }
    }
  }

  lemma SettleReservationKeeps(d: Desk, jobId: string, id: string, commit: bool)
    requires DeskOk(d, jobId)
    ensures DeskOk(SettleReservationStep(d, jobId, id, commit), jobId)
    ensures SettleReservationStep(d, jobId, id, commit).held == d.held - {id}
  {
    if id in d.held {
      var n := d.held[id];
      assert Open(d.book, jobId, n) && Pending(d.book, jobId, n) == None;
      CommitKeepsInv(d.book, jobId, n);
      ReleaseKeepsInv(d.book, jobId, n);
      SettledBijection(d, SettleReservationStep(d, jobId, id, commit), jobId, id);
    } else {
      assert d.held - {id} == d.held;
    }
  }

  /** Closing the reservation of one challenge leaves the others paired. */
  lemma SettledBijection(d: Desk, d': Desk, jobId: string, id: string)
    requires Bijection(d, jobId) && id in d.held && d'.held == d.held - {id} && jobId in d'.book.jobs
    requires forall k :: Open(d'.book, jobId, k) <==> Open(d.book, jobId, k) && k != d.held[id]
    ensures Bijection(d', jobId)
  {
    forall x | x in d'.held ensures Open(d'.book, jobId, d'.held[x]) {
      assert Open(d.book, jobId, d.held[x]);
    }
    forall k | Open(d'.book, jobId, k) ensures exists x :: x in d'.held && d'.held[x] == k {
      var x :| x in d.held && d.held[x] == k;
      assert x in d'.held && d'.held[x] == k;
    }
  }

  /** A ledger call that another client may make without disturbing the harness: anything that does
      not reserve, commit or release on the harness's job. */
  predicate Foreign(op: Op, jobId: string) {
    !((op.Reserve? || op.Commit? || op.Release?) && op.jobId == jobId)
  }

  lemma ForeignKeeps(d: Desk, op: Op, jobId: string)
    requires DeskOk(d, jobId) && Foreign(op, jobId)
    ensures DeskOk(d.(book := Step(d.book, op).0), jobId)
  {
    var b' := Step(d.book, op).0;
    StepKeepsInv(d.book, op);
    StepExtends(d.book, op);
    StepOpen(d.book, op, jobId);
  }

  lemma StepOpen(b: Book, op: Op, jobId: string)
    requires Foreign(op, jobId) && jobId in b.jobs
    ensures jobId in Step(b, op).0.jobs
    ensures forall id :: Open(Step(b, op).0, jobId, id) <==> Open(b, jobId, id)
  {
    match op
    case Meter(j, s, a, src) => MeterIsAtomic(b, j, s, a, src);
    case Commit(j, id) => if Pending(b, j, id) == None { assert b.reservations[id - 1].jobId == j; }
    case Release(j, id) => if Pending(b, j, id) == None { assert b.reservations[id - 1].jobId == j; }
    case _ =>
  }

  /** What may happen at the desk. */
  datatype Event =
    | Sign(secret: Option<string>, scopeId: Option<string>, c: Option<Challenge>)
    | Settle(live: bool, secret: Option<string>, c: Option<Challenge>, envelope: Envelope, settler: Settler)
    | Other(op: Op)

  function EventStep(d: Desk, jobId: string, e: Event): Desk {
    match e
    case Sign(secret, s, c) => SignStep(d, jobId, s, secret, c).0
    case Settle(live, secret, c, envelope, settler) => SettleStep(d, jobId, live, secret, c, envelope, settler).0
    case Other(op) => d.(book := Step(d.book, op).0)
  }

  function Play(d: Desk, jobId: string, es: seq<Event>): Desk {
    if es == [] then d else EventStep(Play(d, jobId, es[..|es| - 1]), jobId, es[|es| - 1])
  }

  /** Through every run of signing, settling and foreign calls, challenges that were accepted and not
      settled and open reservations correspond one to one, and what they reserve plus what was committed stays
      within the job's ceiling. */
  lemma {:induction false} PlayKeepsBijection(d: Desk, jobId: string, es: seq<Event>)
    requires DeskOk(d, jobId)
    requires forall i :: 0 <= i < |es| && es[i].Other? ==> Foreign(es[i].op, jobId)
    ensures DeskOk(Play(d, jobId, es), jobId)
    ensures var j := Play(d, jobId, es).book.jobs[jobId]; j.reserved + j.committed <= j.ceiling
    decreases |es|
  {
    if es != [] {
      PlayKeepsBijection(d, jobId, es[..|es| - 1]);
      EventKeeps(Play(d, jobId, es[..|es| - 1]), jobId, es[|es| - 1]);
    }
    JobWithinCeilingInv(Play(d, jobId, es).book, jobId);
  }

  lemma EventKeeps(d: Desk, jobId: string, e: Event)
    requires DeskOk(d, jobId) && (e.Other? ==> Foreign(e.op, jobId))
    ensures DeskOk(EventStep(d, jobId, e), jobId)
  {
    match e
    case Sign(secret, s, c) => SignKeeps(d, jobId, s, secret, c);
    case Settle(live, secret, c, envelope, settler) =>
      if c.Some? { SettleReservationKeeps(d, jobId, c.value.id, SettleVerdict(live, secret, c, envelope, settler) == Settled); }
    case Other(op) => ForeignKeeps(d, op, jobId);
  }

  /** What signing does: it reserves exactly when the ledger accepts the cost of a challenge that
      holds no reservation yet, under any secret but a missing one; it returns a signature exactly
      when, besides, one can be computed; and in every other case nothing changes. */
  lemma SignedIffReserved(d: Desk, jobId: string, scopeId: Option<string>, secret: Option<string>, c: Option<Challenge>)
    ensures var (d', o) := SignStep(d, jobId, scopeId, secret, c);
            if c.Some? && secret.Some? && c.value.id !in d.held
               && ReserveStep(d.book, jobId, scopeId, c.value.amount, Settlement).1.Reserved?
            then (o.Signed? || o.SigningThrew?) && (o.Signed? <==> CanSign(secret, c.value)) && d'.held == d.held[c.value.id := o.id]
                 && d'.book.reservations == d.book.reservations + [Reservation(jobId, scopeId, c.value.amount.n, Settlement, RESERVED)]
            else !o.Signed? && !o.SigningThrew? && d' == d
  {
    if c.Some? {
      var op := Op.Reserve(jobId, scopeId, c.value.amount, Settlement);
      if Failed(Step(d.book, op).1) { RefusalChangesNothing(d.book, op); }
    }
  }

  /** A job that can just pay the challenge. */
  function Funded(amount: Amount): Desk
    requires Positive(amount)
  {
    Desk(Run([Op.OpenJob("job", amount)]), map[])
  }

  lemma FundedDesk(amount: Amount)
    requires Positive(amount)
    ensures Funded(amount) == Desk(Book(map["job" := Job(amount.n, JobOpen, 0, 0, 0, 0, 0, 0)], [], []), map[])
    ensures DeskOk(Funded(amount), "job")
  {
    var op := Op.OpenJob("job", amount);
    assert [] + [op] == [op];
    RunPush([], op);
    DeskStarts([op], "job");
  }

  lemma FundedReserves(secret: Option<string>, c: Challenge)
    requires Positive(c.amount) && secret.Some?
    ensures var d := Funded(c.amount);
            var (d', o) := SignStep(d, "job", None, secret, Some(c));
            && DeskOk(d, "job") && d' != d
            && d'.book.reservations == [Reservation("job", None, c.amount.n, Settlement, RESERVED)]
            && o == (if CanSign(secret, c) then Signed(1) else SigningThrew(1)) && d'.held == map[c.id := 1]
  {
    FundedDesk(c.amount);
    var d := Funded(c.amount);
    var rs: seq<Reservation> := [];
    assert rs + [Reservation("job", None, c.amount.n, Settlement, RESERVED)] == [Reservation("job", None, c.amount.n, Settlement, RESERVED)];
    assert JobAvailable(d.book.jobs["job"]) == c.amount.n;
  }

  /** Whatever changes the ledger has produced a signature, at every desk in order, exactly when the
      secret is missing, or a signature can be computed, or the amount is one that no ledger accepts. */
  lemma NothingReservedUnsignedIff(secret: Option<string>, c: Challenge)
    ensures (forall d, jobId, scopeId :: DeskOk(d, jobId) && SignStep(d, jobId, scopeId, secret, Some(c)).0 != d ==>
               SignStep(d, jobId, scopeId, secret, Some(c)).1.Signed?)
            <==> secret.None? || CanSign(secret, c) || !Positive(c.amount)
  {
    if secret.None? || CanSign(secret, c) || !Positive(c.amount) {
      forall d, jobId, scopeId | SignStep(d, jobId, scopeId, secret, Some(c)).0 != d
        ensures SignStep(d, jobId, scopeId, secret, Some(c)).1.Signed?
      {
        SignedIffReserved(d, jobId, scopeId, secret, Some(c));
      }
    } else {
      FundedReserves(secret, c);
    }
  }

  /** An empty secret is not refused: the amount is reserved, and no signature is returned. */
  lemma EmptySecretReserves()
    ensures var c := Challenge("c", Cents(5), true);
            var (d', o) := SignStep(Funded(c.amount), "job", None, Some(""), Some(c));
            o == SigningThrew(1) && |d'.book.reservations| == 1 && d'.held == map["c" := 1]
  {
    FundedReserves(Some(""), Challenge("c", Cents(5), true));
  }

  /** Settling a challenge that holds a reservation closes that reservation, as committed when the
      settlement went through and as released otherwise, unless checking the signature throws. */
  lemma SettleCloses(d: Desk, jobId: string, live: bool, secret: Option<string>, c: Challenge, envelope: Envelope, settler: Settler)
    requires DeskOk(d, jobId) && c.id in d.held
    ensures var (d', o) := SettleStep(d, jobId, live, secret, Some(c), envelope, settler);
            if live && secret.Some? && envelope.Signature? && !CanSign(secret, c) then o == CheckThrew && d' == d
            else
              && c.id !in d'.held
              && d'.book.reservations == d.book.reservations[d.held[c.id] - 1 :=
                   d.book.reservations[d.held[c.id] - 1].(state := if o == Settled then COMMITTED else RELEASED)]
  {
    assert Open(d.book, jobId, d.held[c.id]) && Pending(d.book, jobId, d.held[c.id]) == None;
  }

  // ---------------------------------------------------------------------------------------------
  // The harness object
  // ---------------------------------------------------------------------------------------------

  datatype Metrics = Metrics(signed: nat, refused: nat, rejected: nat, settled: nat)

  class Harness {
    const ledger: BudgetLedger
    const jobId: string
    const scopeId: Option<string>
    const secret: Option<string>
    const live: bool
    var reservations: map<string, nat>
    var metrics: Metrics

    ghost function TheDesk(): Desk
      reads this, ledger
    {
      Desk(ledger.TheBook(), reservations)
    }

    constructor (ledger: BudgetLedger, jobId: string, scopeId: Option<string>, secret: Option<string>, live: bool)
      ensures this.ledger == ledger && this.jobId == jobId && this.scopeId == scopeId
      ensures this.secret == secret && this.live == live
      ensures reservations == map[] && metrics == Metrics(0, 0, 0, 0)
    {
      this.ledger, this.jobId, this.scopeId, this.secret, this.live := ledger, jobId, scopeId, secret, live;
      reservations, metrics := map[], Metrics(0, 0, 0, 0);
    }

    method Sign(c: Option<Challenge>) returns (o: SignOutcome)
      requires ledger.Valid()
      modifies this, ledger
      ensures ledger.Valid() && (TheDesk(), o) == SignStep(old(TheDesk()), jobId, scopeId, secret, c)
      ensures metrics == old(metrics).(
                signed := old(metrics.signed) + if o.Signed? || o.SigningThrew? then 1 else 0,
                refused := old(metrics.refused) + if o.AlreadyReserved? || o.CostRefused? then 1 else 0)
    {
      if c.None? { return NoChallenge; }
      if secret.None? { return NoSigningSecret; }
      if c.value.id in reservations {
        metrics := metrics.(refused := metrics.refused + 1);
        return AlreadyReserved(reservations[c.value.id]);
      }
      var held := ledger.Reserve(jobId, scopeId, c.value.amount, Settlement);
      if Failed(held) {
        metrics := metrics.(refused := metrics.refused + 1);
        return CostRefused(held);
      }
      reservations := reservations[c.value.id := held.id];
      metrics := metrics.(signed := metrics.signed + 1);
      return if CanSign(secret, c.value) then Signed(held.id) else SigningThrew(held.id);
    }

    method SettleReservation(id: string, commit: bool)
      requires ledger.Valid()
      modifies this`reservations, ledger
      ensures ledger.Valid() && TheDesk() == SettleReservationStep(old(TheDesk()), jobId, id, commit)
    {
      if id in reservations {
        var o;
        if commit { o := ledger.Commit(jobId, reservations[id]); } else { o := ledger.Release(jobId, reservations[id]); }
        if !Failed(o) { reservations := reservations - {id}; }
      }
    }

    method Settle(c: Option<Challenge>, envelope: Envelope, settler: Settler) returns (o: SettleOutcome)
      requires ledger.Valid()
      modifies this, ledger
      ensures ledger.Valid() && (TheDesk(), o) == SettleStep(old(TheDesk()), jobId, live, secret, c, envelope, settler)
      ensures metrics == old(metrics).(
                rejected := old(metrics.rejected) + if o.BadSignature? then 1 else 0,
                settled := old(metrics.settled) + if o.Settled? then 1 else 0)
    {
      if !live {
        if c.Some? { SettleReservation(c.value.id, false); }
        return NotPerformed;
      }
      if c.None? { return MissingChallenge; }
      var refused := CheckEnvelope(secret, c.value, envelope);
      if refused == Some(CheckThrew) { return CheckThrew; }
      if refused.Some? {
        metrics := metrics.(rejected := metrics.rejected + 1);
        SettleReservation(c.value.id, false);
        return BadSignature;
      }
      if settler == SettlerThrew {
        SettleReservation(c.value.id, false);
        return Unknown;
      }
      if settler == NoSettlementId {
        SettleReservation(c.value.id, false);
        return Unknown;
      }
      metrics := metrics.(settled := metrics.settled + 1);
      SettleReservation(c.value.id, true);
      return Settled;
    }
  }

  /** When each answer is given: settled means that a live challenge came with an envelope that passes,
      or with none, or without a secret to check it, and that the settlement has an id. */
  lemma SettleVerdictIff(live: bool, secret: Option<string>, c: Option<Challenge>, envelope: Envelope, settler: Settler)
    ensures var v, sign := SettleVerdict(live, secret, c, envelope, settler), c.Some? && secret.Some? && secret.value != "" && c.value.printable;
            && (v == NotPerformed <==> !live)
            && (v == MissingChallenge <==> live && c.None?)
            && (v == BadSignature <==>
                  live && c.Some? && secret.Some? && (envelope == Unsigned || (sign && envelope == Signature(false))))
            && (v == CheckThrew <==> live && c.Some? && secret.Some? && envelope.Signature? && !sign)
            && (v == Settled <==>
                  && live && c.Some? && settler == SettlementId
                  && (envelope == NoEnvelope || secret.None? || (sign && envelope == Signature(true))))
            && (v == Unknown <==>
                  && live && c.Some? && settler != SettlementId
                  && (envelope == NoEnvelope || secret.None? || (sign && envelope == Signature(true))))
  {
  }
}
