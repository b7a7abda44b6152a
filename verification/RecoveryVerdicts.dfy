/** When each verdict is given, from what the journal records, over every sequence of crashes and restarts. */
module RecoveryVerdicts {
  import opened Recovery
  import opened RecoveryRuns

  // ---------------------------------------------------------------------------------------------
  // What the journal records
  // ---------------------------------------------------------------------------------------------

  /** The intent that was declared is not that of these circumstances. */
  ghost predicate Changed(j: seq<Event>, env: Env) {
    j != [] && j[0] != SendIntent(env.calldataHash)
  }

  /** A receipt with this status was read. */
  ghost predicate Reported(j: seq<Event>, s: Status) {
    exists r :: ReceiptRead(r) in j && r.status == s
  }

  /** A successful receipt lacks an expected event. */
  ghost predicate Absent(j: seq<Event>, env: Env) {
    exists r :: ReceiptRead(r) in j && r.status == S1 && !env.eventsPresent(r.topics)
  }

  ghost predicate Errored(j: seq<Event>) {
    exists r :: ReceiptRead(r) in j && r.error
  }

  /** Two successful receipts are of different blocks or have different logs. */
  ghost predicate Disputed(j: seq<Event>) {
    exists r, q :: ReceiptRead(r) in j && ReceiptRead(q) in j && r.status == S1 && q.status == S1
                   && (r.block != q.block || r.logsHash != q.logsHash)
  }

  // ---------------------------------------------------------------------------------------------
  // The verdict on a journal
  // ---------------------------------------------------------------------------------------------

  lemma {:induction false} ReadsIff(j: seq<Event>, r: Read)
    ensures r in Reads(j) <==> ReceiptRead(r) in j
  {
    if j != [] {
      ReadsIff(j[1..], r);
      assert j == [j[0]] + j[1..];
    }
  }

  lemma {:induction false} AbsentIff(rs: seq<Read>, env: Env)
    ensures SomeAbsent(rs, env) <==> exists r :: r in rs && !env.eventsPresent(r.topics)
  {
    if rs != [] {
      AbsentIff(rs[1..], env);
      assert forall r :: r in rs <==> r == rs[0] || r in rs[1..];
    }
  }

  lemma StatusIs(j: seq<Event>, s: Status)
    ensures WithStatus(Reads(j), s) != [] <==> Reported(j, s)
  {
    if WithStatus(Reads(j), s) != [] {
      var r := WithStatus(Reads(j), s)[0];
      StatusFilter(Reads(j), s, r);
      ReadsIff(j, r);
    }
    if r :| ReceiptRead(r) in j && r.status == s {
      ReadsIff(j, r);
      StatusFilter(Reads(j), s, r);
    }
  }

  lemma AbsentIs(j: seq<Event>, env: Env)
    ensures SomeAbsent(WithStatus(Reads(j), S1), env) <==> Absent(j, env)
  {
    AbsentIff(WithStatus(Reads(j), S1), env);
    forall r ensures r in WithStatus(Reads(j), S1) <==> ReceiptRead(r) in j && r.status == S1 {
      ReadsIff(j, r);
      StatusFilter(Reads(j), S1, r);
    }
  }

  lemma ErroredIs(j: seq<Event>)
    ensures SomeError(Reads(j)) <==> Errored(j)
  {
    ErrorIff(Reads(j));
    forall r ensures r in Reads(j) <==> ReceiptRead(r) in j { ReadsIff(j, r); }
  }

  lemma DisputedIs(j: seq<Event>)
    ensures !SameReceipt(WithStatus(Reads(j), S1)) <==> Disputed(j)
  {
    var good := WithStatus(Reads(j), S1);
    forall r ensures r in good <==> ReceiptRead(r) in j && r.status == S1 {
      ReadsIff(j, r);
      StatusFilter(Reads(j), S1, r);
    }
    if good != [] {
      LikeIff(good, good[0].block, good[0].logsHash);
      assert good[0] in good;
    }
  }

  /** The exact condition of each verdict. A changed intent comes first, then a failed receipt; too few
      reads come before absent events, errors and disagreement. */
  lemma ResolveIs(j: seq<Event>, env: Env, s: State)
    requires j != [] && j[0].SendIntent? && s == Resolve(j, env)
    ensures s == NOT_PROVEN <==> !Changed(j, env) && !Reported(j, S0) && !Reported(j, S1)
    ensures s == INCONCLUSIVE <==> !Changed(j, env) && !Reported(j, S0) && Reported(j, S1) && |Reads(j)| < env.minProviders
    ensures s == CONTRADICTED <==>
              || Changed(j, env) || Reported(j, S0)
              || (Reported(j, S1) && |Reads(j)| >= env.minProviders && (Absent(j, env) || Errored(j) || Disputed(j)))
    ensures s == VERIFIED <==>
              && !Changed(j, env) && !Reported(j, S0) && Reported(j, S1) && |Reads(j)| >= env.minProviders
              && !Absent(j, env) && !Errored(j) && !Disputed(j)
  {
    StatusIs(j, S0);
    StatusIs(j, S1);
    AbsentIs(j, env);
    ErroredIs(j);
    DisputedIs(j);
    assert Intents(j)[0] == j[0].calldataHash;
  }

  // ---------------------------------------------------------------------------------------------
  // The verdict of a run
  // ---------------------------------------------------------------------------------------------

  /** Attempt w turned a journal without a verdict into one with a verdict. */
  ghost predicate Decided(attempts: seq<Attempt>, w: nat)
    requires AttemptsOk(attempts)
  {
    w < |attempts| && !Terminal(Journal(attempts[..w])) && Terminal(Journal(attempts[..w + 1]))
  }

  lemma {:induction false} Decider(attempts: seq<Attempt>) returns (w: nat)
    requires AttemptsOk(attempts) && Terminal(Journal(attempts))
    ensures Decided(attempts, w)
    decreases |attempts|
  {
    var n := |attempts| - 1;
    var front := attempts[..n];
    if Terminal(Journal(front)) {
      w := Decider(front);
      StillDecided(attempts, front, w);
    } else {
      w := n;
      Whole(attempts, n + 1);
    }
  }

  lemma Whole<T>(s: seq<T>, n: nat)
    requires n == |s|
    ensures s[..n] == s
  {
  }

  lemma StillDecided(attempts: seq<Attempt>, front: seq<Attempt>, w: nat)
    requires AttemptsOk(attempts) && front <= attempts && AttemptsOk(front) && Decided(front, w)
    ensures Decided(attempts, w)
  {
    assert attempts[..w] == front[..w] && attempts[..w + 1] == front[..w + 1];
  }

  /** The journal of a run with a verdict is what the deciding attempt left. */
  lemma DecidedJournal(attempts: seq<Attempt>, w: nat) returns (tx: string)
    requires AttemptsOk(attempts) && Decided(attempts, w)
    ensures WrittenBy(Journal(attempts), attempts[w].env, tx)
  {
    DecidedParts(attempts, w);
    VerdictIsFinal(attempts[..w + 1], attempts[w + 1..]);
    tx := NewWriter(attempts[..w], attempts[w]);
  }

  lemma DecidedParts(attempts: seq<Attempt>, w: nat)
    requires w < |attempts|
    ensures attempts[..w + 1] == attempts[..w] + [attempts[w]] && attempts == attempts[..w + 1] + attempts[w + 1..]
    ensures (attempts[..w] + [attempts[w]])[|attempts[..w]|] == attempts[w]
  {
  }

  /** The reads of a complete journal are its entries from the third to the last but one. */
  lemma ReadCount(j: seq<Event>)
    requires Shape(j) && |j| >= 3 && j[|j| - 1].Verdict?
    ensures |Reads(j)| == |j| - 3
  {
    var n := |j| - 1;
    assert j == j[..2] + j[2..n] + [j[n]];
    ReadsAppend(j[..2] + j[2..n], [j[n]]);
    ReadsAppend(j[..2], j[2..n]);
    NoReadInVerdict(j[n]);
    ReadsOfReads(j[2..n]);
    NoReadsFirst(j[..2]);
  }

  lemma NoReadsFirst(es: seq<Event>)
    requires |es| == 2 && es[0].SendIntent? && es[1].SendResult?
    ensures Reads(es) == []
  {
    assert es[1..][1..] == [];
    assert Reads(es[1..]) == Reads(es[1..][1..]);
  }

  /** The front of a journal holds the same reads and the same intent. */
  lemma FrontRecords(j: seq<Event>, env: Env)
    requires |j| >= 3 && j[|j| - 1].Verdict?
    ensures var f := j[..|j| - 1];
            && (Changed(f, env) <==> Changed(j, env)) && (forall r :: ReceiptRead(r) in f <==> ReceiptRead(r) in j)
  {
    assert j == j[..|j| - 1] + [j[|j| - 1]];
  }

  lemma FrontConditions(f: seq<Event>, j: seq<Event>, env: Env)
    requires forall r :: ReceiptRead(r) in f <==> ReceiptRead(r) in j
    ensures Reported(f, S0) == Reported(j, S0) && Reported(f, S1) == Reported(j, S1)
    ensures Absent(f, env) == Absent(j, env) && Errored(f) == Errored(j) && Disputed(f) == Disputed(j)
  {
  }

  /** The exact condition of each of the four verdicts in every run, in terms of the journal that it
      leaves and the attempt that decided. The journal has one entry for the intent, one for the
      transaction and one for the verdict; all others are reads. */
  lemma VerdictMeans(attempts: seq<Attempt>, w: nat, j: seq<Event>, env: Env, s: State)
    requires AttemptsOk(attempts) && Decided(attempts, w) && j == Journal(attempts) && env == attempts[w].env
    requires Verdicts(j) == [s]
    ensures |j| >= 3 && j[0].SendIntent? && j[1].SendResult? && |Reads(j)| == |j| - 3
    ensures s == NOT_PROVEN <==> !Changed(j, env) && !Reported(j, S0) && !Reported(j, S1)
    ensures s == INCONCLUSIVE <==> !Changed(j, env) && !Reported(j, S0) && Reported(j, S1) && |j| - 3 < env.minProviders
    ensures s == CONTRADICTED <==>
              || Changed(j, env) || Reported(j, S0)
              || (Reported(j, S1) && |j| - 3 >= env.minProviders && (Absent(j, env) || Errored(j) || Disputed(j)))
    ensures s == VERIFIED <==>
              && !Changed(j, env) && !Reported(j, S0) && Reported(j, S1) && |j| - 3 >= env.minProviders
              && !Absent(j, env) && !Errored(j) && !Disputed(j)
  {
    var tx := DecidedJournal(attempts, w);
    JournalShape(attempts);
    VerdictIsLast(attempts);
    VerdictsOfTerminal(j);
    ReadCount(j);
    FrontRecords(j, env);
    FrontConditions(j[..|j| - 1], j, env);
    ResolveIs(j[..|j| - 1], env, s);
  }

  /** In particular VERIFIED means that the recorded intent is that of the attempt that decided, and
      that every successful receipt has the expected events. */
  lemma VerifiedHolds(attempts: seq<Attempt>) returns (w: nat)
    requires AttemptsOk(attempts) && Verdicts(Journal(attempts)) == [VERIFIED]
    ensures Decided(attempts, w)
    ensures Journal(attempts)[0] == SendIntent(attempts[w].env.calldataHash)
    ensures forall r :: ReceiptRead(r) in Journal(attempts) && r.status == S1 ==> attempts[w].env.eventsPresent(r.topics)
    ensures forall r :: ReceiptRead(r) in Journal(attempts) ==> !r.error && r.status != S0
  {
    VerdictsOfTerminal(Journal(attempts));
    w := Decider(attempts);
    VerdictMeans(attempts, w, Journal(attempts), attempts[w].env, VERIFIED);
  }

  // ---------------------------------------------------------------------------------------------
  // Nothing is invented
  // ---------------------------------------------------------------------------------------------

  /** What a provider answered in an attempt, as it is recorded. */
  ghost predicate Answered(env: Env, k: nat, tx: string, r: Read) {
    && k < |env.providers| && k < |env.receipts| && r.provider == env.providers[k] && r.txHash == tx
    && match env.receipts[k]
       case Got(status, block, logsHash, topics) =>
         r.status == status && r.block == block && r.logsHash == logsHash && r.topics == topics && !r.error
       case Failed(marked) => r.status == NoStatus && r.error == marked
  }

  /** Where an entry comes from: the declared calldata, a broadcast, or the answer of a provider about
      the transaction that was sent. */
  ghost predicate Sourced(attempts: seq<Attempt>, j: seq<Event>, e: Event) {
    match e
    case SendIntent(hash) => exists i :: 0 <= i < |attempts| && attempts[i].env.calldataHash == hash
    case SendResult(tx) => exists i :: 0 <= i < |attempts| && attempts[i].env.broadcast == tx
    case ReceiptRead(r) =>
      |j| > 1 && j[1].SendResult? && exists i, k: nat :: 0 <= i < |attempts| && Answered(attempts[i].env, k, j[1].txHash, r)
    case Verdict(_, _) => true
  }

  ghost predicate AllSourced(attempts: seq<Attempt>, j: seq<Event>) {
    forall x :: 0 <= x < |j| ==> Sourced(attempts, j, j[x])
  }

  lemma StillSourced(attempts: seq<Attempt>, a: Attempt, j: seq<Event>, l: seq<Event>, e: Event)
    requires Sourced(attempts, j, e) && j <= l
    ensures Sourced(attempts + [a], l, e)
  {
    assert forall i :: 0 <= i < |attempts| ==> (attempts + [a])[i] == attempts[i];
  }

  /** Every entry of every reachable journal comes from an attempt of the run. */
  lemma {:induction false} EntriesSourced(attempts: seq<Attempt>)
    requires AttemptsOk(attempts)
    ensures AllSourced(attempts, Journal(attempts))
    decreases |attempts|
  {
    if attempts != [] {
      var n := |attempts| - 1;
      assert attempts == attempts[..n] + [attempts[n]];
      EntriesSourced(attempts[..n]);
      JournalStep(attempts[..n], attempts[n]);
      JournalShape(attempts);
      SourcedStep(attempts[..n], attempts[n], Journal(attempts[..n]), Journal(attempts));
    }
  }

  lemma SourcedStep(front: seq<Attempt>, a: Attempt, j: seq<Event>, l: seq<Event>)
    requires AllSourced(front, j) && EnvOk(a.env) && l == After(j, a) && Shape(l)
    ensures AllSourced(front + [a], l)
  {
    forall x | 0 <= x < |l| ensures Sourced(front + [a], l, l[x]) {
      if x < |j| {
        assert l[x] == j[x];
        StillSourced(front, a, j, l, j[x]);
      } else {
        NewSourced(front + [a], |front|, j, l, a.env, x - |j|);
      }
    }
  }

  lemma NewSourced(attempts: seq<Attempt>, last: nat, j: seq<Event>, l: seq<Event>, env: Env, i: nat)
    requires last < |attempts| && attempts[last].env == env && EnvOk(env)
    requires j <= l && |j| + i < |l| && i < |Tail(j, env)| && l[|j| + i] == Tail(j, env)[i] && Shape(l)
    ensures Sourced(attempts, l, l[|j| + i])
  {
    var e := l[|j| + i];
    TailPart(j, env, i);
    if i < |Opening(j, env)| {
      assert e == SendIntent(attempts[last].env.calldataHash) || e == SendResult(attempts[last].env.broadcast);
    } else if !e.Verdict? {
      ReadAnswered(env, TxOf(j, env), i - |Opening(j, env)|, e.read);
      ShapeOfRead(l, e.read);
      SourcedRead(attempts, last, l, i - |Opening(j, env)|, e.read);
    }
  }

  lemma SourcedRead(attempts: seq<Attempt>, last: nat, l: seq<Event>, k: nat, r: Read)
    requires last < |attempts| && |l| > 1 && l[1].SendResult? && Answered(attempts[last].env, k, l[1].txHash, r)
    ensures Sourced(attempts, l, ReceiptRead(r))
  {
  }

  lemma ReadAnswered(env: Env, tx: string, k: nat, r: Read)
    requires k < |env.providers| && k < |env.receipts| && r == ReadOf(env, tx, k)
    ensures Answered(env, k, tx, r)
  {
  }

  /** Before a verdict every provider of the deciding attempt is asked, and its answer recorded. */
  lemma EveryAnswerRecorded(attempts: seq<Attempt>, w: nat, j: seq<Event>, k: nat) returns (r: Read)
    requires AttemptsOk(attempts) && Decided(attempts, w) && j == Journal(attempts) && k < |attempts[w].env.providers|
    ensures |j| > 1 && j[1].SendResult? && ReceiptRead(r) in j && Answered(attempts[w].env, k, j[1].txHash, r)
  {
    var tx := DecidedJournal(attempts, w);
    r := ReadOf(attempts[w].env, tx, k);
    ReadsIff(j, r);
    JournalShape(attempts);
    ReadAnswered(attempts[w].env, tx, k, r);
    ShapeOfRead(j, r);
  }

  lemma ShapeOfRead(j: seq<Event>, r: Read)
    requires Shape(j) && ReceiptRead(r) in j
    ensures |j| > 1 && j[1].SendResult? && r.txHash == j[1].txHash
  {
    var x :| 0 <= x < |j| && j[x] == ReceiptRead(r);
  }

  /** What an attempt writes at place i. */
  lemma TailPart(j: seq<Event>, env: Env, i: nat)
    requires EnvOk(env) && i < |Tail(j, env)|
    ensures var e, n := Tail(j, env)[i], |Opening(j, env)|;
            if i < n then e == SendIntent(env.calldataHash) || e == SendResult(env.broadcast)
            else if i < n + |env.providers| then e == ReceiptRead(ReadOf(env, TxOf(j, env), i - n))
            else e.Verdict?
  {
    var o, es := Opening(j, env), ReadEvents(env, TxOf(j, env), |env.providers|);
    if i < |o| {
      assert Tail(j, env)[i] == o[i];
    } else {
      EntryOfThree(o, es, Verdict(Resolve(j + (o + es), env), TxOf(j, env)), i);
    }
  }

  // ---------------------------------------------------------------------------------------------
  // A restart with other calldata
  // ---------------------------------------------------------------------------------------------

  /** After an attempt that stopped once the transaction was sent, a complete restart with other calldata
      is CONTRADICTED, whatever the providers answer. */
  lemma OtherCalldata(first: Env, second: Env, n: nat)
    requires EnvOk(first) && EnvOk(second) && first.calldataHash != second.calldataHash && first.broadcast != ""
    requires n > |second.providers|
    ensures AttemptsOk([Attempt(first, 2), Attempt(second, n)])
    ensures Verdicts(Journal([Attempt(first, 2), Attempt(second, n)])) == [CONTRADICTED]
  {
    var j, b := [SendIntent(first.calldataHash), SendResult(first.broadcast)], Attempt(second, n);
    SentOnly(first);
    JournalStep([Attempt(first, 2)], b);
    assert [Attempt(first, 2), b] == [Attempt(first, 2)] + [b];
    SentQueries(j);
    var body := j + Opening(j, second) + ReadEvents(second, TxOf(j, second), |second.providers|);
    CompletedLog(j, body, second, n);
    CompletedVerdict(j, body, second, Verdict(Resolve(body, second), TxOf(j, second)));
    assert body[0] == j[0];
    ResolveIs(body, second, Resolve(body, second));
  }

  lemma SentQueries(j: seq<Event>)
    requires |j| == 2 && j[0].SendIntent? && j[1].SendResult?
    ensures Intents(j) != [] && Sends(j) != [] && Sends(j)[0] == j[1].txHash && !Terminal(j)
  {
    assert j[1..][0] == j[1];
  }

  lemma SentOnly(env: Env)
    requires EnvOk(env) && env.broadcast != ""
    ensures AttemptsOk([Attempt(env, 2)])
    ensures Journal([Attempt(env, 2)]) == [SendIntent(env.calldataHash), SendResult(env.broadcast)]
  {
    var a := Attempt(env, 2);
    assert [a][..0] == [] && [a][0] == a;
    assert Journal([]) == [];
    assert Opening([], env) == [SendIntent(env.calldataHash), SendResult(env.broadcast)];
    TailTake([], env, 0);
    assert Opening([], env) + ReadEvents(env, TxOf([], env), 0) == Opening([], env);
  }
}
