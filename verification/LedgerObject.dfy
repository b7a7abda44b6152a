/** The ledger object: its methods update the job, scope and reservation records in place and are
    proved against the transition functions. An object is always in a state that a sequence of calls
    on a new ledger reaches, so what holds of all runs holds of it. */
module LedgerObject {
  import opened Ledger
  import opened LedgerInvariant
  import opened LedgerTheorems

  class BudgetLedger {
    var jobs: map<string, Job>
    var scopes: seq<Scope>
    var reservations: seq<Reservation>
    var counter: nat
    ghost var history: seq<Op>

    /** The numbering is in step, and the records are what the calls so far lead to. */
    ghost predicate Valid()
      reads this
    {
      counter == |reservations| && TheBook() == Run(history)
    }

    /** A snapshot of everything the ledger records. */
    function TheBook(): Book
      reads this
    {
      Book(jobs, scopes, reservations)
    }

    constructor ()
      ensures Valid() && TheBook() == EMPTY && history == []
    {
      jobs, scopes, reservations, counter, history := map[], [], [], 0, [];
    }

    /** What a caller knows of every job at any time. */
    lemma JobBounded(jobId: string)
      requires Valid() && jobId in jobs
      ensures jobs[jobId].reserved + jobs[jobId].committed <= jobs[jobId].ceiling
      ensures jobs[jobId].reserved == Total(reservations, Filter(jobId, AnyScope, RESERVED))
      ensures jobs[jobId].committed == Total(reservations, Filter(jobId, AnyScope, COMMITTED))
    {
      JobWithinCeiling(history, jobId);
    }

    /** What a caller knows of every scope and everything below it at any time. */
    lemma ScopeBounded(k: nat)
      requires Valid() && k < |scopes|
      ensures SubtreeSpend(TheBook(), k, |scopes|) <= scopes[k].share
    {
      SubtreeWithinShare(history, k);
    }

    method OpenJob(jobId: string, ceiling: Amount) returns (o: Outcome)
      requires Valid()
      modifies this
      ensures Valid() && (TheBook(), o) == OpenJobStep(old(TheBook()), jobId, ceiling)
      ensures history == old(history) + [Op.OpenJob(jobId, ceiling)]
    {
      RunPush(history, Op.OpenJob(jobId, ceiling));
      history := history + [Op.OpenJob(jobId, ceiling)];
      if jobId == "" { return Thrown; }
      if !Positive(ceiling) { return Thrown; }
      if jobId in jobs { return Thrown; }
      jobs := jobs[jobId := Job(ceiling.n, JobOpen, 0, 0, 0, 0, 0, 0)];
      return Opened(ceiling.n);
    }

    method OpenScope(jobId: string, scopeId: string, parent: Option<string>, share: Amount) returns (o: Outcome)
      requires Valid()
      modifies this
      ensures Valid() && (TheBook(), o) == OpenScopeStep(old(TheBook()), jobId, scopeId, parent, share)
      ensures history == old(history) + [Op.OpenScope(jobId, scopeId, parent, share)]
    {
      RunPush(history, Op.OpenScope(jobId, scopeId, parent, share));
      history := history + [Op.OpenScope(jobId, scopeId, parent, share)];
      if jobId !in jobs { return Refused(NoSuchJob); }
      if scopeId == "" || !Positive(share) { return Thrown; }
      if FindScope(scopes, jobId, scopeId) >= 0 { return Thrown; }
      var k := -1;
      var available;
      if parent.None? {
        available := JobAvailable(jobs[jobId]);
      } else {
        k := FindScope(scopes, jobId, parent.value);
        if k < 0 { return Refused(NoSuchScope); }
        if !scopes[k].open { return Refused(ScopeClosed); }
        available := ScopeAvailable(scopes[k]);
      }
      if share.n > available { return Refused(ExceedsJobCeiling); }
      if parent.None? {
        jobs := jobs[jobId := jobs[jobId].(childShares := jobs[jobId].childShares + share.n)];
      } else {
        scopes := scopes[k := scopes[k].(childShares := scopes[k].childShares + share.n)];
      }
      scopes := scopes + [Scope(jobId, scopeId, parent, share.n, 0, 0, 0, true)];
      return Opened(share.n);
    }

    /** The balance check and the mutation with nothing in between. */
    method Reserve(jobId: string, scopeId: Option<string>, amount: Amount, source: Source) returns (o: Outcome)
      requires Valid()
      modifies this
      ensures Valid() && (TheBook(), o) == ReserveStep(old(TheBook()), jobId, scopeId, amount, source)
      ensures history == old(history) + [Op.Reserve(jobId, scopeId, amount, source)]
    {
      RunPush(history, Op.Reserve(jobId, scopeId, amount, source));
      history := history + [Op.Reserve(jobId, scopeId, amount, source)];
      if jobId !in jobs { return Refused(NoSuchJob); }
      if source == OtherSource { return Thrown; }
      if !Positive(amount) { return Refused(UnknownAmount); }
      var k := -1;
      if scopeId.Some? {
        k := FindScope(scopes, jobId, scopeId.value);
        if k < 0 { return Refused(NoSuchScope); }
        if !scopes[k].open { return Refused(ScopeClosed); }
      }
      var available := if scopeId.Some? then ScopeAvailable(scopes[k]) else JobAvailable(jobs[jobId]);
      if amount.n > available {
        return Refused(if scopeId.Some? then ExceedsScopeShare else ExceedsJobCeiling);
      }
      counter := counter + 1;
      reservations := reservations + [Reservation(jobId, scopeId, amount.n, source, RESERVED)];
      jobs := jobs[jobId := jobs[jobId].(reserved := jobs[jobId].reserved + amount.n)];
      if scopeId.Some? {
        scopes := scopes[k := scopes[k].(reserved := scopes[k].reserved + amount.n)];
      }
      return Reserved(counter, if scopeId.Some? then ScopeAvailable(scopes[k]) else JobAvailable(jobs[jobId]));
    }

    method Commit(jobId: string, id: nat) returns (o: Outcome)
      requires Valid()
      modifies this
      ensures Valid() && (TheBook(), o) == CommitStep(old(TheBook()), jobId, id)
      ensures history == old(history) + [Op.Commit(jobId, id)]
    {
      RunPush(history, Op.Commit(jobId, id));
      history := history + [Op.Commit(jobId, id)];
      if jobId !in jobs { return Refused(NoSuchJob); }
      if id == 0 || id > |reservations| || reservations[id - 1].jobId != jobId { return Refused(NoSuchReservation); }
      var r := reservations[id - 1];
      if r.state != RESERVED { return Refused(ReservationClosed); }
      var j := jobs[jobId];
      jobs := jobs[jobId := j.(reserved := j.reserved - r.amount, committed := j.committed + r.amount)];
      var k := if r.scopeId.Some? then FindScope(scopes, jobId, r.scopeId.value) else -1;
      if k >= 0 {
        var s := scopes[k];
        scopes := scopes[k := s.(reserved := s.reserved - r.amount, committed := s.committed + r.amount)];
      }
      reservations := reservations[id - 1 := r.(state := COMMITTED)];
      return Committed(id, r.amount, jobs[jobId].committed);
    }

    method Release(jobId: string, id: nat) returns (o: Outcome)
      requires Valid()
      modifies this
      ensures Valid() && (TheBook(), o) == ReleaseStep(old(TheBook()), jobId, id)
      ensures history == old(history) + [Op.Release(jobId, id)]
    {
      RunPush(history, Op.Release(jobId, id));
      ghost var before := TheBook();
      history := history + [Op.Release(jobId, id)];
      if jobId !in jobs { return Refused(NoSuchJob); }
      if id == 0 || id > |reservations| || reservations[id - 1].jobId != jobId { return Refused(NoSuchReservation); }
      var r := reservations[id - 1];
      if r.state != RESERVED { return Refused(ReservationClosed); }
      jobs := jobs[jobId := jobs[jobId].(reserved := jobs[jobId].reserved - r.amount)];
      var k := if r.scopeId.Some? then FindScope(scopes, jobId, r.scopeId.value) else -1;
      if k >= 0 {
        scopes := scopes[k := scopes[k].(reserved := scopes[k].reserved - r.amount)];
      }
      reservations := reservations[id - 1 := r.(state := RELEASED)];
      assert TheBook() == Ledger.Settle(before, id, RELEASED, 0);
      return Released(id, r.amount, jobs[jobId].reserved);
    }

    method Meter(jobId: string, scopeId: Option<string>, amount: Amount, source: Source) returns (o: Outcome)
      requires Valid()
      modifies this
      ensures Valid() && (TheBook(), o) == MeterStep(old(TheBook()), jobId, scopeId, amount, source)
      ensures history == old(history) + [Op.Meter(jobId, scopeId, amount, source)]
    {
      RunPush(history, Op.Meter(jobId, scopeId, amount, source));
      MeterIsAtomic(TheBook(), jobId, scopeId, amount, source);
      o := Reserve(jobId, scopeId, amount, source);
      if o.Reserved? {
        o := Commit(jobId, o.id);
        o := Charged(o.id, o.amount, o.committed, source, JobAvailable(jobs[jobId]));
      }
      history := old(history) + [Op.Meter(jobId, scopeId, amount, source)];
    }

    method Hold(jobId: string, amount: Amount) returns (o: Outcome)
      requires Valid()
      modifies this
      ensures Valid() && (TheBook(), o) == HoldStep(old(TheBook()), jobId, amount)
      ensures history == old(history) + [Op.Hold(jobId, amount)]
    {
      RunPush(history, Op.Hold(jobId, amount));
      history := history + [Op.Hold(jobId, amount)];
      if jobId !in jobs { return Refused(NoSuchJob); }
      var j := jobs[jobId];
      if !Positive(amount) { return Refused(UnknownAmount); }
      if j.held > 0 { return Refused(InvalidDisposition); }
      if amount.n > j.ceiling - j.committed - j.reserved { return Refused(ExceedsJobCeiling); }
      jobs := jobs[jobId := j.(held := amount.n, state := JobHeld)];
      return Held(amount.n);
    }

    method Disposition(jobId: string, to: Target, amount: Amount) returns (o: Outcome)
      requires Valid()
      modifies this
      ensures Valid() && (TheBook(), o) == DispositionStep(old(TheBook()), jobId, to, amount)
      ensures history == old(history) + [Op.Disposition(jobId, to, amount)]
    {
      RunPush(history, Op.Disposition(jobId, to, amount));
      history := history + [Op.Disposition(jobId, to, amount)];
      if jobId !in jobs { return Refused(NoSuchJob); }
      var j := jobs[jobId];
      if to == ToOther { return Refused(InvalidDisposition); }
      if j.held == 0 { return Refused(NothingHeld); }
      var a := if amount.Absent? then Cents(j.held) else amount;
      if !Positive(a) || a.n > j.held { return Refused(InvalidDisposition); }
      if to == ToHeld { return Disposed(j.held, 0, 0); }
      var remaining := j.held - a.n;
      if to == ToReleased {
        j := j.(held := remaining, released := j.released + a.n);
        if remaining == 0 { j := j.(state := JobReleased); }
      } else {
        j := j.(held := remaining, refunded := j.refunded + a.n);
        if remaining == 0 { j := j.(state := JobRefunded); }
      }
      jobs := jobs[jobId := j];
      return Disposed(j.held, j.released, j.refunded);
    }
  }
}
