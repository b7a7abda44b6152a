/** Safety of the recovery journal over every sequence of crashes and restarts. */
module RecoveryRuns {
  import opened Recovery

  /** The grammar of a journal: the intent, then the send result, then reads of that transaction,
      then at most one verdict, which is last. */
  ghost predicate Shape(j: seq<Event>) {
    && (|j| > 0 ==> j[0].SendIntent?)
    && (|j| > 1 ==> j[1].SendResult? && j[1].txHash != "")
    && forall k :: 2 <= k < |j| ==>
         (j[k].ReceiptRead? && j[k].read.txHash == j[1].txHash)
         || (j[k].Verdict? && k == |j| - 1 && j[k].txHash == j[1].txHash)
  }

  lemma {:induction false} NoSends(j: seq<Event>)
    requires forall k :: 0 <= k < |j| ==> !j[k].SendResult?
    ensures Sends(j) == []
  {
    if j != [] { NoSends(j[1..]); }
  }

  /** What the driver finds in a well-shaped journal. */
  lemma ShapeQueries(j: seq<Event>)
    requires Shape(j)
    ensures Intents(j) == [] <==> j == []
    ensures |j| <= 1 ==> Sends(j) == []
    ensures |j| >= 2 ==> Sends(j) != [] && Sends(j)[0] == j[1].txHash
  {
    if |j| == 1 { NoSends(j); }
    if |j| >= 2 { assert j[1..][0] == j[1]; }
  }

  lemma AfterKeepsShape(j: seq<Event>, a: Attempt)
    requires EnvOk(a.env) && Shape(j)
    ensures Shape(After(j, a))
  {
    if Terminal(j) {
      assert After(j, a) == j;
    } else {
      var env := a.env;
      var tail := Tail(j, env);
      var full := j + tail;
      assert After(j, a) == full[..|j| + Min(a.writes, |tail|)];
      if TxOf(j, env) == "" { UnsentShape(j, env); } else { FullShape(j, env); }
      ShapeOfPrefix(full, |j| + Min(a.writes, |tail|));
    }
  }

  lemma UnsentShape(j: seq<Event>, env: Env)
    requires EnvOk(env) && Shape(j) && !Terminal(j) && TxOf(j, env) == ""
    ensures Shape(j + Tail(j, env))
  {
    ShapeQueries(j);
    assert |j + Tail(j, env)| == 1 && (j + Tail(j, env))[0].SendIntent?;
  }

  lemma FullShape(j: seq<Event>, env: Env)
    requires EnvOk(env) && Shape(j) && !Terminal(j) && TxOf(j, env) != ""
    ensures Shape(j + Tail(j, env))
  {
    ShapeQueries(j);
    var tx := TxOf(j, env);
    var full := j + Tail(j, env);
    assert full[0].SendIntent? && full[1] == SendResult(tx);
    forall k | 2 <= k < |full|
      ensures (full[k].ReceiptRead? && full[k].read.txHash == tx) || (full[k].Verdict? && k == |full| - 1 && full[k].txHash == tx)
    {
      if k < |j| {
        assert full[k] == j[k];
      } else {
        TailEntry(j, env, k - |j|);
      }
    }
  }

  lemma TailEntry(j: seq<Event>, env: Env, i: nat)
    requires EnvOk(env) && !Terminal(j) && TxOf(j, env) != "" && |Opening(j, env)| <= i < |Tail(j, env)|
    ensures var e := Tail(j, env)[i];
            if i < |Tail(j, env)| - 1 then e.ReceiptRead? && e.read.txHash == TxOf(j, env)
            else e.Verdict? && e.txHash == TxOf(j, env)
  {
    var o, es := Opening(j, env), ReadEvents(env, TxOf(j, env), |env.providers|);
    EntryOfThree(o, es, Verdict(Resolve(j + (o + es), env), TxOf(j, env)), i);
  }

  lemma EntryOfThree(a: seq<Event>, b: seq<Event>, e: Event, i: nat)
    requires |a| <= i <= |a| + |b|
    ensures (a + b + [e])[i] == if i < |a| + |b| then b[i - |a|] else e
  {
  }

  lemma ShapeOfPrefix(j: seq<Event>, n: nat)
    requires Shape(j) && n <= |j|
    ensures Shape(j[..n])
  {
  }

  /** Every reachable journal follows the grammar. */
  lemma {:induction false} JournalShape(attempts: seq<Attempt>)
    requires AttemptsOk(attempts)
    ensures Shape(Journal(attempts))
  {
    if attempts != [] {
      JournalShape(attempts[..|attempts| - 1]);
      AfterKeepsShape(Journal(attempts[..|attempts| - 1]), attempts[|attempts| - 1]);
    }
  }

  lemma JournalStep(attempts: seq<Attempt>, a: Attempt)
    requires AttemptsOk(attempts) && EnvOk(a.env)
    ensures AttemptsOk(attempts + [a]) && Journal(attempts + [a]) == After(Journal(attempts), a)
    ensures Journal(attempts) <= Journal(attempts + [a])
    ensures Terminal(Journal(attempts)) ==> Journal(attempts + [a]) == Journal(attempts)
  {
    assert (attempts + [a])[..|attempts|] == attempts;
  }

  lemma SplitLast(attempts: seq<Attempt>, more: seq<Attempt>)
    requires AttemptsOk(attempts) && AttemptsOk(more) && more != []
    ensures AttemptsOk(more[..|more| - 1]) && EnvOk(more[|more| - 1].env)
    ensures attempts + more == (attempts + more[..|more| - 1]) + [more[|more| - 1]]
  {
  }

  /** Later attempts only append, so what is recorded (the transaction hash above all) never changes. */
  lemma {:induction false} JournalGrows(attempts: seq<Attempt>, more: seq<Attempt>)
    requires AttemptsOk(attempts) && AttemptsOk(more)
    ensures AttemptsOk(attempts + more) && Journal(attempts) <= Journal(attempts + more)
    decreases |more|
  {
    if more == [] {
      assert attempts + more == attempts;
    } else {
      var n := |more| - 1;
      SplitLast(attempts, more);
      JournalGrows(attempts, more[..n]);
      JournalStep(attempts + more[..n], more[n]);
    }
  }

  /** The verdict that a journal holds is final: every later attempt leaves the journal as it is. */
  lemma {:induction false} VerdictIsFinal(attempts: seq<Attempt>, more: seq<Attempt>)
    requires AttemptsOk(attempts) && AttemptsOk(more) && Terminal(Journal(attempts))
    ensures AttemptsOk(attempts + more) && Journal(attempts + more) == Journal(attempts)
    decreases |more|
  {
    if more == [] {
      assert attempts + more == attempts;
    } else {
      var n := |more| - 1;
      SplitLast(attempts, more);
      VerdictIsFinal(attempts, more[..n]);
      JournalStep(attempts + more[..n], more[n]);
    }
  }

  /** There is at most one verdict, and it is the last entry. */
  lemma VerdictIsLast(attempts: seq<Attempt>)
    requires AttemptsOk(attempts)
    ensures var j := Journal(attempts);
            if Terminal(j) then j[|j| - 1].Verdict? && Verdicts(j) == [j[|j| - 1].state] else Verdicts(j) == []
  {
    JournalShape(attempts);
    VerdictsOfTerminal(Journal(attempts));
    if Terminal(Journal(attempts)) { OneVerdict(Journal(attempts)); }
  }

  lemma OneVerdict(j: seq<Event>)
    requires Shape(j) && Terminal(j)
    ensures j[|j| - 1].Verdict? && Verdicts(j) == [j[|j| - 1].state]
  {
    var front := j[..|j| - 1];
    assert j == front + [j[|j| - 1]];
    VerdictsOfTerminal(front);
    VerdictsAppend(front, [j[|j| - 1]]);
  }

  // ---------------------------------------------------------------------------------------------
  // What VERIFIED means
  // ---------------------------------------------------------------------------------------------

  lemma {:induction false} StatusFilter(rs: seq<Read>, s: Status, r: Read)
    ensures r in WithStatus(rs, s) <==> r in rs && r.status == s
  {
    if rs != [] {
      StatusFilter(rs[1..], s, r);
      assert rs == [rs[0]] + rs[1..];
    }
  }

  lemma {:induction false} LikeIff(rs: seq<Read>, block: string, logsHash: string)
    ensures AllLike(rs, block, logsHash) <==> forall r :: r in rs ==> r.block == block && r.logsHash == logsHash
  {
    if rs != [] {
      LikeIff(rs[1..], block, logsHash);
      assert forall r :: r in rs <==> r == rs[0] || r in rs[1..];
    }
  }

  lemma {:induction false} ErrorIff(rs: seq<Read>)
    ensures SomeError(rs) <==> exists r :: r in rs && r.error
  {
    if rs != [] {
      ErrorIff(rs[1..]);
      assert forall r :: r in rs <==> r == rs[0] || r in rs[1..];
    }
  }

  lemma {:induction false} NoneAbsent(rs: seq<Read>, env: Env)
    requires env.eventsPresent == Anything
    ensures !SomeAbsent(rs, env)
  {
    if rs != [] { NoneAbsent(rs[1..], env); }
  }

  /** All successful and undisputed: what a supported VERIFIED says about the reads. */
  ghost predicate Agreement(rs: seq<Read>) {
    && (forall r :: r in rs ==> !r.error && r.status != S0)
    && (forall r, q :: r in rs && q in rs && r.status == S1 && q.status == S1 ==> r.block == q.block && r.logsHash == q.logsHash)
  }

  lemma ResolveVerified(j: seq<Event>, env: Env)
    requires Resolve(j, env) == VERIFIED
    ensures Agreement(Reads(j)) && |Reads(j)| >= env.minProviders
    ensures exists r :: r in Reads(j) && r.status == S1
  {
    var rs := Reads(j);
    var good := WithStatus(rs, S1);
    ErrorIff(rs);
    LikeIff(good, good[0].block, good[0].logsHash);
    forall r | r in rs ensures !r.error && r.status != S0 { StatusFilter(rs, S0, r); }
    forall r, q | r in rs && q in rs && r.status == S1 && q.status == S1 ensures r.block == q.block && r.logsHash == q.logsHash {
      StatusFilter(rs, S1, r);
      StatusFilter(rs, S1, q);
    }
    StatusFilter(rs, S1, good[0]);
  }

  lemma {:induction false} ReadsOfReads(es: seq<Event>)
    requires forall k :: 0 <= k < |es| ==> es[k].ReceiptRead?
    ensures |Reads(es)| == |es| && forall k :: 0 <= k < |es| ==> Reads(es)[k] == es[k].read
  {
    if es != [] {
      ReadsOfReads(es[1..]);
      assert forall k :: 0 < k < |es| ==> es[k] == es[1..][k - 1];
    }
  }

  /** Every provider was read. */
  ghost predicate AllRead(env: Env, tx: string, rs: seq<Read>)
    requires EnvOk(env)
  {
    forall k :: 0 <= k < |env.providers| ==> ReadOf(env, tx, k) in rs
  }

  /** j ends with the verdict that the attempt resolved after reading all its providers. */
  ghost predicate WrittenBy(j: seq<Event>, env: Env, tx: string)
    requires EnvOk(env)
  {
    && j != [] && j[|j| - 1] == Verdict(Resolve(j[..|j| - 1], env), tx)
    && Reads(j[..|j| - 1]) == Reads(j) && AllRead(env, tx, Reads(j))
  }

  /** Attempt w wrote the verdict of the run. */
  ghost predicate Wrote(attempts: seq<Attempt>, w: nat, tx: string)
    requires AttemptsOk(attempts)
  {
    w < |attempts| && WrittenBy(Journal(attempts), attempts[w].env, tx)
  }

  /** The attempt that wrote the verdict completed. */
  lemma {:induction false} VerdictWriter(attempts: seq<Attempt>) returns (w: nat, tx: string)
    requires AttemptsOk(attempts) && Terminal(Journal(attempts))
    ensures Wrote(attempts, w, tx)
    decreases |attempts|
  {
    var n := |attempts| - 1;
    var front, last := attempts[..n], attempts[n];
    assert attempts == front + [last];
    if Terminal(Journal(front)) {
      w, tx := VerdictWriter(front);
      StillWrote(front, last, w, tx);
    } else {
      w := n;
      tx := NewWriter(front, last);
    }
  }

  lemma StillWrote(front: seq<Attempt>, last: Attempt, w: nat, tx: string)
    requires AttemptsOk(front) && EnvOk(last.env) && AttemptsOk(front + [last])
    requires Terminal(Journal(front)) && Wrote(front, w, tx)
    ensures Wrote(front + [last], w, tx)
  {
    JournalStep(front, last);
  }

  lemma NewWriter(front: seq<Attempt>, last: Attempt) returns (tx: string)
    requires AttemptsOk(front) && EnvOk(last.env) && AttemptsOk(front + [last])
    requires !Terminal(Journal(front)) && Terminal(Journal(front + [last]))
    ensures Wrote(front + [last], |front|, tx)
  {
    JournalStep(front, last);
    tx := TxOf(Journal(front), last.env);
    WriterCompletes(Journal(front), last);
  }

  lemma WriterCompletes(j: seq<Event>, a: Attempt)
    requires EnvOk(a.env) && !Terminal(j) && Terminal(After(j, a))
    ensures WrittenBy(After(j, a), a.env, TxOf(j, a.env))
  {
    var env, tx := a.env, TxOf(j, a.env);
    var n := |Opening(j, env)|;
    if tx == "" || a.writes < n {
      StoppedEarly(j, env, a.writes);
    } else if a.writes <= n + |env.providers| {
      StoppedReading(j, env, a.writes);
    } else {
      var es := ReadEvents(env, tx, |env.providers|);
      var body := j + Opening(j, env) + es;
      CompletedLog(j, body, env, a.writes);
      assert After(j, a)[..|body|] == body;
      BodyReads(j + Opening(j, env), env, tx);
      ReadsAppend(body, [Verdict(Resolve(body, env), tx)]);
      NoReadInVerdict(Verdict(Resolve(body, env), tx));
    }
  }

  lemma NoReadInVerdict(e: Event)
    requires e.Verdict?
    ensures Reads([e]) == []
  {
    assert [e][1..] == [];
  }

  lemma BodyReads(j: seq<Event>, env: Env, tx: string)
    requires EnvOk(env)
    ensures AllRead(env, tx, Reads(j + ReadEvents(env, tx, |env.providers|)))
  {
    var es := ReadEvents(env, tx, |env.providers|);
    ReadsAppend(j, es);
    ReadsOfReads(es);
    forall i | 0 <= i < |env.providers| ensures ReadOf(env, tx, i) in Reads(j + es) {
      assert Reads(es)[i] == ReadOf(env, tx, i);
    }
  }

  /** The providers that were read successfully. */
  function ReadBy(rs: seq<Read>): set<string> {
    set r | r in rs && r.status == S1 && !r.error :: r.provider
  }

  function Names(ps: seq<string>): set<string> {
    set p | p in ps
  }

  /** Receipts report success or failure and nothing else. */
  ghost predicate BinaryStatuses(attempts: seq<Attempt>) {
    forall i, k :: 0 <= i < |attempts| && 0 <= k < |attempts[i].env.receipts| && attempts[i].env.receipts[k].Got? ==>
      attempts[i].env.receipts[k].status in {S0, S1}
  }

  /** Every failed read is recorded as an error. */
  ghost predicate MarkedFailures(attempts: seq<Attempt>) {
    forall i, k :: 0 <= i < |attempts| && 0 <= k < |attempts[i].env.receipts| && attempts[i].env.receipts[k].Failed? ==>
      attempts[i].env.receipts[k].marked
  }

  /** A VERIFIED journal holds no unsuccessful, errored or disagreeing read, those before crashes
      included. If receipts report success or failure and failures are marked, every provider of the
      attempt that wrote the verdict was read successfully. */
  lemma VerifiedMeansAgreement(attempts: seq<Attempt>) returns (w: nat)
    requires AttemptsOk(attempts) && Verdicts(Journal(attempts)) == [VERIFIED]
    ensures Agreement(Reads(Journal(attempts)))
    ensures w < |attempts| && |Reads(Journal(attempts))| >= attempts[w].env.minProviders
    ensures ReadBy(Reads(Journal(attempts))) != {}
    ensures BinaryStatuses(attempts) && MarkedFailures(attempts) ==>
              Names(attempts[w].env.providers) <= ReadBy(Reads(Journal(attempts)))
  {
    var j := Journal(attempts);
    VerdictIsLast(attempts);
    VerdictsOfTerminal(j);
    var tx;
    w, tx := VerdictWriter(attempts);
    var env := attempts[w].env;
    ResolveVerified(j[..|j| - 1], env);
    var r :| r in Reads(j) && r.status == S1;
    assert r.provider in ReadBy(Reads(j));
    if BinaryStatuses(attempts) && MarkedFailures(attempts) {
      AnswersSucceeded(Reads(j), env, tx);
    }
  }

  lemma AnswersSucceeded(rs: seq<Read>, env: Env, tx: string)
    requires EnvOk(env) && AllRead(env, tx, rs) && Agreement(rs)
    requires forall k :: 0 <= k < |env.receipts| ==>
               if env.receipts[k].Got? then env.receipts[k].status in {S0, S1} else env.receipts[k].marked
    ensures Names(env.providers) <= ReadBy(rs)
  {
    forall p | p in env.providers ensures p in ReadBy(rs) {
      var k :| 0 <= k < |env.providers| && env.providers[k] == p;
      var r := ReadOf(env, tx, k);
      assert r in rs && !r.error && r.status != S0;
      assert env.receipts[k].Got?;
    }
  }

  // ---------------------------------------------------------------------------------------------
  // How many independent providers stand behind VERIFIED
  // ---------------------------------------------------------------------------------------------

  /** Every attempt uses these providers and this minimum. */
  ghost predicate Configured(attempts: seq<Attempt>, providers: seq<string>, min: int) {
    forall i :: 0 <= i < |attempts| ==> attempts[i].env.providers == providers && attempts[i].env.minProviders == min
  }

  ghost predicate Supported(attempts: seq<Attempt>, min: int)
    requires AttemptsOk(attempts)
  {
    Verdicts(Journal(attempts)) == [VERIFIED] ==> |ReadBy(Reads(Journal(attempts)))| >= min
  }

  predicate Anything(topics: seq<string>) {
    true
  }

  const SUCCESS: Receipt := Got(S1, "1", "logs", [])

  /** An answer that no check objects to: the one successful receipt, one that is neither a success
      nor a failure, or a failure that is not marked. */
  predicate Quiet(a: Receipt) {
    if a.Got? then a == SUCCESS || a.status in {OtherStatus, NoStatus} else !a.marked
  }

  function AnswerAt(others: Receipt, k: int): Receipt {
    if k == 0 then SUCCESS else others
  }

  /** An attempt in which the first provider succeeds and all others give the same answer. */
  function Sunny(providers: seq<string>, min: int, others: Receipt): Env {
    Env("hash", min, Anything, "tx", providers, seq(|providers|, k => AnswerAt(others, k)))
  }

  /** Attempts that each crash after one more read of the first provider. */
  function Restarts(env: Env, n: nat): (s: seq<Attempt>)
    ensures |s| == n + 1 && forall i :: 0 <= i <= n ==> s[i].env == env
  {
    if n == 0 then [Attempt(env, 2)] else Restarts(env, n - 1) + [Attempt(env, 1)]
  }

  ghost predicate SunnyLog(j: seq<Event>, env: Env, n: nat)
    requires EnvOk(env) && env.providers != []
  {
    && |j| == n + 2 && j[0] == SendIntent("hash") && j[1] == SendResult("tx")
    && forall k :: 2 <= k < |j| ==> j[k] == ReceiptRead(ReadOf(env, "tx", 0))
  }

  lemma SunnyQueries(j: seq<Event>, env: Env, n: nat)
    requires EnvOk(env) && env.providers != [] && SunnyLog(j, env, n)
    ensures Intents(j) == ["hash"] && Sends(j) != [] && Sends(j)[0] == "tx" && !Terminal(j)
    ensures |Reads(j)| == n && forall r :: r in Reads(j) ==> r == ReadOf(env, "tx", 0)
    ensures Opening(j, env) == [] && TxOf(j, env) == "tx"
  {
    var rest := j[2..];
    assert j == [j[0], j[1]] + rest;
    NoIntents(rest);
    IntentsAppend([j[0], j[1]], rest);
    SendsAppend([j[0], j[1]], rest);
    ReadsAppend([j[0], j[1]], rest);
    OpeningPair(j[0], j[1]);
    ReadsOfReads(rest);
  }

  lemma OpeningPair(a: Event, b: Event)
    requires a == SendIntent("hash") && b == SendResult("tx")
    ensures Intents([a, b]) == ["hash"] && Sends([a, b]) == ["tx"] && Reads([a, b]) == []
  {
    assert [a, b][1..] == [b] && [b][1..] == [];
    assert Sends([b]) == [b.txHash] + Sends([]);
    assert Intents([b]) == [] + Intents([]);
    assert Intents([a, b]) == [a.calldataHash] + Intents([b]);
    assert Reads([b]) == [] + Reads([]);
    assert Reads([a, b]) == [] + Reads([b]);
  }

  lemma {:induction false} NoIntents(es: seq<Event>)
    requires forall k :: 0 <= k < |es| ==> es[k].ReceiptRead?
    ensures Intents(es) == []
  {
    if es != [] { NoIntents(es[1..]); }
  }

  lemma FirstAttempt(env: Env)
    requires EnvOk(env) && env.providers != [] && env.calldataHash == "hash" && env.broadcast == "tx"
    ensures SunnyLog(After([], Attempt(env, 2)), env, 0)
  {
    assert Opening([], env) == [SendIntent("hash"), SendResult("tx")];
    TailTake([], env, 0);
  }

  lemma OneMoreRead(j: seq<Event>, env: Env, n: nat)
    requires EnvOk(env) && env.providers != [] && SunnyLog(j, env, n)
    ensures SunnyLog(After(j, Attempt(env, 1)), env, n + 1)
  {
    SunnyQueries(j, env, n);
    TailTake(j, env, 1);
    assert After(j, Attempt(env, 1)) == j + [ReceiptRead(ReadOf(env, "tx", 0))];
  }

  lemma RestartsUnfold(env: Env, n: nat)
    requires EnvOk(env)
    ensures AttemptsOk(Restarts(env, n))
    ensures n == 0 ==> Journal(Restarts(env, n)) == After([], Attempt(env, 2))
    ensures n > 0 ==> Journal(Restarts(env, n)) == After(Journal(Restarts(env, n - 1)), Attempt(env, 1))
  {
    if n == 0 {
      JournalStep([], Attempt(env, 2));
      assert [] + [Attempt(env, 2)] == Restarts(env, 0);
    } else {
      JournalStep(Restarts(env, n - 1), Attempt(env, 1));
    }
  }

  /** After n such attempts, the journal holds n reads of the first provider. */
  ghost predicate Collected(env: Env, n: nat)
    requires EnvOk(env) && env.providers != []
  {
    AttemptsOk(Restarts(env, n)) && SunnyLog(Journal(Restarts(env, n)), env, n)
  }

  lemma CollectedFirst(env: Env)
    requires EnvOk(env) && env.providers != [] && env.calldataHash == "hash" && env.broadcast == "tx"
    ensures Collected(env, 0)
  {
    RestartsUnfold(env, 0);
    FirstAttempt(env);
  }

  lemma CollectedNext(env: Env, n: nat)
    requires EnvOk(env) && env.providers != [] && Collected(env, n)
    ensures Collected(env, n + 1)
  {
    RestartsUnfold(env, n + 1);
    OneMoreRead(Journal(Restarts(env, n)), env, n);
  }

  lemma {:induction false} RestartsLog(env: Env, n: nat)
    requires EnvOk(env) && env.providers != [] && env.calldataHash == "hash" && env.broadcast == "tx"
    ensures Collected(env, n)
  {
    if n == 0 {
      CollectedFirst(env);
    } else {
      RestartsLog(env, n - 1);
      CollectedNext(env, n - 1);
    }
  }

  /** The run: restart often enough to collect `min` reads, then complete. */
  function ManyRestarts(providers: seq<string>, min: int, others: Receipt): seq<Attempt>
    requires min >= 1
  {
    Restarts(Sunny(providers, min, others), min) + [Attempt(Sunny(providers, min, others), |providers| + 1)]
  }

  lemma RunConfigured(providers: seq<string>, min: int, others: Receipt)
    requires min >= 1
    ensures AttemptsOk(ManyRestarts(providers, min, others))
    ensures Configured(ManyRestarts(providers, min, others), providers, min)
    ensures others.Got? ==> MarkedFailures(ManyRestarts(providers, min, others))
    ensures others == SUCCESS || others.Failed? ==> BinaryStatuses(ManyRestarts(providers, min, others))
  {
  }

  /** A read that such a run records. */
  ghost predicate QuietRead(r: Read, providers: seq<string>, others: Receipt)
    requires providers != []
  {
    && !r.error && r.status != S0
    && (r.status == S1 ==> r.block == "1" && r.logsHash == "logs" && r.provider in providers)
    && (r.status == S1 && others != SUCCESS ==> r.provider == providers[0])
  }

  lemma SunnyRead(env: Env, others: Receipt, k: nat)
    requires EnvOk(env) && env == Sunny(env.providers, env.minProviders, others) && Quiet(others) && k < |env.providers|
    ensures QuietRead(ReadOf(env, "tx", k), env.providers, others)
    ensures k == 0 ==> ReadOf(env, "tx", k).status == S1
  {
    assert env.receipts[k] == AnswerAt(others, k);
  }

  lemma SunnyBody(j: seq<Event>, body: seq<Event>, env: Env, others: Receipt, n: nat)
    requires EnvOk(env) && env.providers != [] && env == Sunny(env.providers, env.minProviders, others) && Quiet(others)
    requires SunnyLog(j, env, n) && body == j + ReadEvents(env, "tx", |env.providers|)
    ensures Intents(body) == ["hash"] && |Reads(body)| >= n && ReadOf(env, "tx", 0) in Reads(body)
    ensures forall r | r in Reads(body) :: QuietRead(r, env.providers, others)
  {
    var es := ReadEvents(env, "tx", |env.providers|);
    SunnyQueries(j, env, n);
    ReadsAppend(j, es);
    ReadsOfReads(es);
    NoIntents(es);
    IntentsAppend(j, es);
    assert Reads(es)[0] == ReadOf(env, "tx", 0);
    forall r | r in Reads(body) ensures QuietRead(r, env.providers, others) {
      if r !in Reads(j) {
        var k :| 0 <= k < |env.providers| && r == Reads(es)[k];
        SunnyRead(env, others, k);
      } else {
        SunnyRead(env, others, 0);
      }
    }
  }

  lemma SunnyResolves(body: seq<Event>, env: Env, others: Receipt, r: Read)
    requires env.eventsPresent == Anything && env.calldataHash == "hash" && env.providers != []
    requires Intents(body) == ["hash"] && |Reads(body)| >= env.minProviders >= 1
    requires forall q | q in Reads(body) :: QuietRead(q, env.providers, others)
    requires r in Reads(body) && r.status == S1
    ensures Resolve(body, env) == VERIFIED
  {
    var rs := Reads(body);
    var good := WithStatus(rs, S1);
    var bad := WithStatus(rs, S0);
    StatusFilter(rs, S1, r);
    if bad != [] { StatusFilter(rs, S0, bad[0]); }
    forall q | q in good ensures q in rs && q.status == S1 { StatusFilter(rs, S1, q); }
    ErrorIff(rs);
    NoneAbsent(good, env);
    assert good[0] in good;
    LikeIff(good, "1", "logs");
  }

  lemma QuietReadBy(rs: seq<Read>, providers: seq<string>, others: Receipt)
    requires providers != [] && forall r | r in rs :: QuietRead(r, providers, others)
    ensures ReadBy(rs) <= Names(providers)
    ensures others != SUCCESS ==> ReadBy(rs) <= {providers[0]}
  {
  }

  /** The attempt that completes after the restarts. */
  lemma LastAttempt(j: seq<Event>, env: Env, others: Receipt, n: nat)
    requires EnvOk(env) && env.providers != [] && env == Sunny(env.providers, env.minProviders, others) && Quiet(others)
    requires SunnyLog(j, env, n) && n >= env.minProviders
    ensures var last := After(j, Attempt(env, |env.providers| + 1));
            && Verdicts(last) == [VERIFIED] && ReadBy(Reads(last)) <= Names(env.providers)
            && (others != SUCCESS ==> ReadBy(Reads(last)) <= {env.providers[0]})
  {
    SunnyQueries(j, env, n);
    var body := j + ReadEvents(env, "tx", |env.providers|);
    SunnyBody(j, body, env, others, n);
    SunnyRead(env, others, 0);
    SunnyResolves(body, env, others, ReadOf(env, "tx", 0));
    assert j + [] == j;
    CompletedLog(j, body, env, |env.providers| + 1);
    CompletedVerdict(j, body, env, Verdict(VERIFIED, "tx"));
    ReadsAppend(body, [Verdict(VERIFIED, "tx")]);
    NoReadInVerdict(Verdict(VERIFIED, "tx"));
    QuietReadBy(Reads(body), env.providers, others);
  }

  /** With any non-empty list of providers, repeating reads across restarts collects enough of them
      for VERIFIED, although no provider outside the list was ever asked; and if all but the first
      give a quiet answer other than success, only the first was read successfully. */
  lemma RestartsReachVerified(providers: seq<string>, min: int, others: Receipt)
    requires providers != [] && min >= 1 && Quiet(others)
    ensures var run := ManyRestarts(providers, min, others);
            && AttemptsOk(run) && Configured(run, providers, min)
            && Verdicts(Journal(run)) == [VERIFIED]
            && ReadBy(Reads(Journal(run))) <= Names(providers)
            && (others != SUCCESS ==> ReadBy(Reads(Journal(run))) <= {providers[0]})
  {
    RunConfigured(providers, min, others);
    ManyRestartsEnd(providers, min, others, Sunny(providers, min, others));
  }

  lemma ManyRestartsEnd(providers: seq<string>, min: int, others: Receipt, env: Env)
    requires providers != [] && min >= 1 && Quiet(others) && env == Sunny(providers, min, others)
    requires AttemptsOk(ManyRestarts(providers, min, others))
    ensures var j := Journal(ManyRestarts(providers, min, others));
            && Verdicts(j) == [VERIFIED] && ReadBy(Reads(j)) <= Names(providers)
            && (others != SUCCESS ==> ReadBy(Reads(j)) <= {providers[0]})
  {
    RestartsLog(env, min);
    JournalStep(Restarts(env, min), Attempt(env, |providers| + 1));
    LastAttempt(Journal(Restarts(env, min)), env, others, min);
  }

  /** Over all runs of a configuration, VERIFIED rests on `min` different providers exactly when no
      more than one is asked for: the verdict counts recorded reads, whoever gave them and whether
      or not they found a receipt. */
  lemma IndependenceIff(providers: seq<string>, min: int)
    requires providers != [] && min >= 1
    ensures (forall attempts | AttemptsOk(attempts) && Configured(attempts, providers, min) :: Supported(attempts, min))
            <==> min <= 1
  {
    if min <= 1 {
      forall attempts | AttemptsOk(attempts) && Configured(attempts, providers, min) ensures Supported(attempts, min) {
        if Verdicts(Journal(attempts)) == [VERIFIED] {
          var w := VerifiedMeansAgreement(attempts);
        }
      }
    } else {
      OneProviderSuffices(providers, min, Failed(false));
    }
  }

  /** Any quiet answer other than success breaks the promise, for every list and every minimum above one. */
  lemma OneProviderSuffices(providers: seq<string>, min: int, others: Receipt)
    requires providers != [] && min >= 2 && Quiet(others) && others != SUCCESS
    ensures var run := ManyRestarts(providers, min, others);
            AttemptsOk(run) && Configured(run, providers, min) && !Supported(run, min)
  {
    var run := ManyRestarts(providers, min, others);
    RestartsReachVerified(providers, min, others);
    SubsetSize(ReadBy(Reads(Journal(run))), {providers[0]});
  }

  /** Where receipts report success or failure and every failed read is marked, VERIFIED rests on
      `min` different providers in all runs exactly when the list names that many. */
  lemma IndependenceOfMarkedIff(providers: seq<string>, min: int)
    requires providers != [] && min >= 1
    ensures (forall attempts | AttemptsOk(attempts) && Configured(attempts, providers, min)
                               && BinaryStatuses(attempts) && MarkedFailures(attempts) :: Supported(attempts, min))
            <==> |Names(providers)| >= min
  {
    if |Names(providers)| >= min {
      forall attempts | AttemptsOk(attempts) && Configured(attempts, providers, min)
                        && BinaryStatuses(attempts) && MarkedFailures(attempts)
        ensures Supported(attempts, min)
      {
        if Verdicts(Journal(attempts)) == [VERIFIED] {
          var w := VerifiedMeansAgreement(attempts);
          SubsetSize(Names(providers), ReadBy(Reads(Journal(attempts))));
        }
      }
    } else {
      var run := ManyRestarts(providers, min, SUCCESS);
      RunConfigured(providers, min, SUCCESS);
      RestartsReachVerified(providers, min, SUCCESS);
      SubsetSize(ReadBy(Reads(Journal(run))), Names(providers));
      assert !Supported(run, min);
    }
  }

  /** One uninterrupted attempt with two providers, of which only the first succeeds. */
  function TwoProviders(second: Receipt): seq<Attempt> {
    [Attempt(Sunny(["a", "b"], 2, second), 5)]
  }

  lemma OneAttempt(second: Receipt)
    requires Quiet(second) && second != SUCCESS
    ensures var run := TwoProviders(second);
            && AttemptsOk(run) && Configured(run, ["a", "b"], 2)
            && Verdicts(Journal(run)) == [VERIFIED] && ReadBy(Reads(Journal(run))) == {"a"}
  {
    var run := TwoProviders(second);
    JournalStep([], run[0]);
    assert [] + [run[0]] == run;
    TwoReads(run[0].env, second);
  }

  lemma TwoReads(env: Env, second: Receipt)
    requires EnvOk(env) && env == Sunny(["a", "b"], 2, second) && Quiet(second) && second != SUCCESS
    ensures var j := After([], Attempt(env, 5));
            Verdicts(j) == [VERIFIED] && ReadBy(Reads(j)) == {"a"}
  {
    var start := [SendIntent("hash"), SendResult("tx")];
    assert Opening([], env) == start && [] + start == start;
    assert SunnyLog(start, env, 0);
    var body := start + ReadEvents(env, "tx", 2);
    TwoReadsResolve(start, body, env, second);
    CompletedLog([], body, env, 5);
    CompletedVerdict([], body, env, Verdict(VERIFIED, "tx"));
    ReadsAppend(body, [Verdict(VERIFIED, "tx")]);
    NoReadInVerdict(Verdict(VERIFIED, "tx"));
  }

  lemma TwoReadsResolve(start: seq<Event>, body: seq<Event>, env: Env, second: Receipt)
    requires EnvOk(env) && env == Sunny(["a", "b"], 2, second) && Quiet(second) && second != SUCCESS
    requires SunnyLog(start, env, 0) && body == start + ReadEvents(env, "tx", 2)
    ensures Resolve(body, env) == VERIFIED && ReadBy(Reads(body)) == {"a"}
  {
    SunnyBody(start, body, env, second, 0);
    SunnyRead(env, second, 0);
    OpeningReads(start, env);
    SunnyResolves(body, env, second, ReadOf(env, "tx", 0));
    QuietReadBy(Reads(body), ["a", "b"], second);
    assert ReadOf(env, "tx", 0).provider in ReadBy(Reads(body));
  }

  lemma OpeningReads(start: seq<Event>, env: Env)
    requires EnvOk(env) && |env.providers| == 2 && SunnyLog(start, env, 0)
    ensures |Reads(start + ReadEvents(env, "tx", 2))| == 2
  {
    ReadsAppend(start, ReadEvents(env, "tx", 2));
    ReadsOfReads(ReadEvents(env, "tx", 2));
    SunnyQueries(start, env, 0);
  }

  /** The second provider rejects without a reason: two reads are counted, one succeeded. */
  lemma UnmarkedFailureCounts()
    ensures var run := TwoProviders(Failed(false));
            && AttemptsOk(run) && Configured(run, ["a", "b"], 2) && BinaryStatuses(run)
            && Verdicts(Journal(run)) == [VERIFIED] && ReadBy(Reads(Journal(run))) == {"a"}
  {
    OneAttempt(Failed(false));
  }

  /** The second provider answers with a receipt that reports neither success nor failure. */
  lemma StatuslessReceiptCounts()
    ensures var run := TwoProviders(Got(OtherStatus, "2", "other", []));
            && AttemptsOk(run) && Configured(run, ["a", "b"], 2) && MarkedFailures(run)
            && Verdicts(Journal(run)) == [VERIFIED] && ReadBy(Reads(Journal(run))) == {"a"}
  {
    OneAttempt(Got(OtherStatus, "2", "other", []));
  }

  lemma {:induction false} SubsetSize(a: set<string>, b: set<string>)
    requires a <= b
    ensures |a| <= |b|
    decreases |a|
  {
    if a != {} {
      var x :| x in a;
      SubsetSize(a - {x}, b - {x});
    }
  }
}
