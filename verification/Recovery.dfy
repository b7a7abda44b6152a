/** The recovery journal: a write-ahead log driven through arbitrary crashes and restarts. */
module Recovery {
  datatype Option<+T> = None | Some(value: T)

  datatype Status = S0 | S1 | OtherStatus | NoStatus
  datatype State = VERIFIED | NOT_PROVEN | CONTRADICTED | INCONCLUSIVE

  /** One receipt read, as recorded. `error` says that a non-empty error text was recorded with it. */
  datatype Read = Read(provider: string, txHash: string, status: Status, block: string, logsHash: string, topics: seq<string>, error: bool)

  datatype Event =
    | SendIntent(calldataHash: string)
    | SendResult(txHash: string)
    | ReceiptRead(read: Read)
    | Verdict(state: State, txHash: string)

  /** What a provider answers: a receipt, or nothing usable. A failure is marked when its reason is
      recorded; a rejection with a falsy reason, or an answer that is false, 0 or an empty text, is
      recorded without status and without error. */
  datatype Receipt = Got(status: Status, block: string, logsHash: string, topics: seq<string>) | Failed(marked: bool)

  /** The circumstances of one attempt: the run's configuration and what the outside world answers. */
  datatype Env = Env(
    calldataHash: string,                   // hash of this run's calldata
    minProviders: int,
    eventsPresent: seq<string> -> bool,     // whether the expected events are among the topics
    broadcast: string,                      // the transaction hash; empty when the broadcast fails
    providers: seq<string>,
    receipts: seq<Receipt>)                 // the answer of each provider, in order

  ghost predicate EnvOk(env: Env) {
    |env.receipts| == |env.providers| && env.calldataHash != "" && env.minProviders >= 1
  }

  predicate Terminal(j: seq<Event>) {
    exists k :: 0 <= k < |j| && j[k].Verdict?
  }

  // ---------------------------------------------------------------------------------------------
  // Queries on the journal
  // ---------------------------------------------------------------------------------------------

  function Intents(j: seq<Event>): seq<string> {
    if j == [] then [] else (if j[0].SendIntent? then [j[0].calldataHash] else []) + Intents(j[1..])
  }

  function Sends(j: seq<Event>): seq<string> {
    if j == [] then [] else (if j[0].SendResult? then [j[0].txHash] else []) + Sends(j[1..])
  }

  function Reads(j: seq<Event>): seq<Read> {
    if j == [] then [] else (if j[0].ReceiptRead? then [j[0].read] else []) + Reads(j[1..])
  }

  function Verdicts(j: seq<Event>): seq<State> {
    if j == [] then [] else (if j[0].Verdict? then [j[0].state] else []) + Verdicts(j[1..])
  }

  function WithStatus(rs: seq<Read>, s: Status): seq<Read> {
    if rs == [] then [] else (if rs[0].status == s then [rs[0]] else []) + WithStatus(rs[1..], s)
  }

  predicate AllLike(rs: seq<Read>, block: string, logsHash: string) {
    rs == [] || (rs[0].block == block && rs[0].logsHash == logsHash && AllLike(rs[1..], block, logsHash))
  }

  /** All reads agree on block number and logs. */
  predicate SameReceipt(rs: seq<Read>) {
    rs == [] || AllLike(rs, rs[0].block, rs[0].logsHash)
  }

  predicate SomeAbsent(rs: seq<Read>, env: Env) {
    rs != [] && (!env.eventsPresent(rs[0].topics) || SomeAbsent(rs[1..], env))
  }

  predicate SomeError(rs: seq<Read>) {
    rs != [] && (rs[0].error || SomeError(rs[1..]))
  }

  /** The verdict that the journal supports. */
  function Resolve(j: seq<Event>, env: Env): State {
    var all := Reads(j);
    var good := WithStatus(all, S1);
    if Intents(j) != [] && Intents(j)[0] != env.calldataHash then CONTRADICTED
    else if WithStatus(all, S0) != [] then CONTRADICTED
    else if good == [] then NOT_PROVEN
    else if |all| < env.minProviders then INCONCLUSIVE
    else if SomeAbsent(good, env) then CONTRADICTED
    else if SomeError(all) || !SameReceipt(good) then CONTRADICTED
    else VERIFIED
  }

  // ---------------------------------------------------------------------------------------------
  // Attempts
  // ---------------------------------------------------------------------------------------------

  function ReadOf(env: Env, tx: string, k: nat): Read
    requires k < |env.providers| && k < |env.receipts|
  {
    match env.receipts[k]
    case Got(status, block, logsHash, topics) => Read(env.providers[k], tx, status, block, logsHash, topics, false)
    case Failed(marked) => Read(env.providers[k], tx, NoStatus, "", "", [], marked)
  }

  function ReadEvents(env: Env, tx: string, n: nat): (es: seq<Event>)
    requires n <= |env.providers| && n <= |env.receipts|
    ensures |es| == n && forall k :: 0 <= k < n ==> es[k] == ReceiptRead(ReadOf(env, tx, k))
  {
    seq(n, k requires 0 <= k < n => ReceiptRead(ReadOf(env, tx, k)))
  }

  /** The transaction hash an attempt works with: the recorded one, or the one broadcast now. */
  function TxOf(j: seq<Event>, env: Env): string {
    if Sends(j) != [] then Sends(j)[0] else env.broadcast
  }

  function Declaring(j: seq<Event>, env: Env): seq<Event> {
    if Intents(j) == [] then [SendIntent(env.calldataHash)] else []
  }

  function Sending(j: seq<Event>, env: Env): seq<Event> {
    if Sends(j) == [] && env.broadcast != "" then [SendResult(env.broadcast)] else []
  }

  function Opening(j: seq<Event>, env: Env): seq<Event> {
    Declaring(j, env) + Sending(j, env)
  }

  /** What an attempt appends to the journal if nothing interrupts it. */
  function Tail(j: seq<Event>, env: Env): seq<Event>
    requires EnvOk(env)
  {
    if Terminal(j) then []
    else
      var tx := TxOf(j, env);
      var opening := Opening(j, env);
      if tx == "" then opening
      else
        var body := opening + ReadEvents(env, tx, |env.providers|);
        body + [Verdict(Resolve(j + body, env), tx)]
  }

  /** An attempt that crashes after `writes` journal writes, or completes before that. */
  datatype Attempt = Attempt(env: Env, writes: nat)

  function Min(a: nat, b: nat): nat {
    if a < b then a else b
  }

  function After(j: seq<Event>, a: Attempt): seq<Event>
    requires EnvOk(a.env)
  {
    var t := Tail(j, a.env);
    j + t[..Min(a.writes, |t|)]
  }

  ghost predicate AttemptsOk(attempts: seq<Attempt>) {
    forall i :: 0 <= i < |attempts| ==> EnvOk(attempts[i].env)
  }

  /** The journal after a sequence of attempts on a new journal. */
  function Journal(attempts: seq<Attempt>): seq<Event>
    requires AttemptsOk(attempts)
  {
    if attempts == [] then [] else After(Journal(attempts[..|attempts| - 1]), attempts[|attempts| - 1])
  }

  // ---------------------------------------------------------------------------------------------
  // The journal object and the driver
  // ---------------------------------------------------------------------------------------------

  datatype Entry = Entry(i: nat, at: string, event: Event)

  function Events(es: seq<Entry>): (j: seq<Event>)
    ensures |j| == |es| && forall k :: 0 <= k < |es| ==> j[k] == es[k].event
  {
    seq(|es|, k requires 0 <= k < |es| => es[k].event)
  }

  /** Entries carry their own position, so no two of them are equal. */
  ghost predicate Indexed(es: seq<Entry>) {
    forall k :: 0 <= k < |es| ==> es[k].i == k
  }

  /** The journal in memory and on disk. An entry stands for its digest, which covers all its fields. */
  class RecoveryJournal {
    var entries: seq<Entry>
    var seen: set<Entry>
    var file: seq<Entry>

    ghost predicate Valid()
      reads this
    {
      Indexed(entries) && seen == (set e | e in entries) && file == entries
    }

    function Log(): seq<Event>
      reads this
    {
      Events(entries)
    }

    constructor ()
      ensures Valid() && entries == []
    {
      entries, seen, file := [], {}, [];
    }

    /** Reading back what was persisted: every entry is accepted. */
    method Load() returns (ok: bool)
      requires Indexed(file)
      modifies this`entries, this`seen
      ensures ok && Valid() && entries == file
    {
      entries, seen := [], {};
      for k := 0 to |file|
        invariant entries == file[..k] && seen == (set e | e in entries)
      {
        var entry := file[k];
        if entry.i != |entries| { return false; }
        if entry in seen { return false; }
        seen := seen + {entry};
        entries := entries + [entry];
      }
      assert entries == file;
      return true;
    }

    /** Append one event and persist it. A duplicate digest cannot occur; after a verdict the
        journal refuses. */
    method Push(event: Event, at: string) returns (ok: bool)
      requires Valid()
      modifies this
      ensures Valid()
      ensures ok <==> !(|old(entries)| >= 2 && old(entries)[|old(entries)| - 1].event.Verdict?)
      ensures entries == if ok then old(entries) + [Entry(|old(entries)|, at, event)] else old(entries)
    {
      var entry := Entry(|entries|, at, event);
      if entry in seen {
        assert false;
      }
      if |entries| >= 2 && entries[|entries| - 1].event.Verdict? { return false; }
      entries := entries + [entry];
      seen := seen + {entry};
      file := entries;
      return true;
    }
  }

  /** How an attempt ends. */
  datatype End = Done(state: State) | BroadcastFailed | Crashed

  /** Append one event to a journal that has no verdict yet. */
  method Record(journal: RecoveryJournal, event: Event, at: string)
    requires journal.Valid() && !Terminal(journal.Log())
    modifies journal
    ensures journal.Valid() && journal.Log() == old(journal.Log()) + [event]
  {
    NotSealed(journal.entries);
    var ok := journal.Push(event, at);
  }

  /** Declare the intent unless it is declared, then broadcast unless a result is recorded. */
  method Open(journal: RecoveryJournal, env: Env, writes: nat, at: string) returns (end: Option<End>, txHash: string, left: nat)
    requires journal.Valid() && !Terminal(journal.Log())
    modifies journal
    ensures journal.Valid()
    ensures var o := Opening(old(journal.Log()), env);
            && journal.Log() == old(journal.Log()) + o[..Min(writes, |o|)]
            && (end.None? ==> left + |o| == writes && txHash == TxOf(old(journal.Log()), env) != "")
            && (end == Some(BroadcastFailed) ==> |o| <= writes && TxOf(old(journal.Log()), env) == "")
            && (end == Some(Crashed) ==> writes < |o|)
            && (end.Some? ==> !end.value.Done?)
  {
    ghost var before := journal.Log();
    ghost var p, q := Declaring(before, env), Sending(before, env);
    var crashed;
    left, crashed := Declare(journal, env, writes, at);
    if crashed {
      assert (p + q)[..0] == p[..0];
      return Some(Crashed), "", 0;
    }
    end, txHash, left := Send(journal, env, left, at);
    assert (p + q)[..Min(writes, |p + q|)] == p + q[..Min(writes - |p|, |q|)];
    assert before + (p + q[..Min(writes - |p|, |q|)]) == before + p + q[..Min(writes - |p|, |q|)];
  }

  method Declare(journal: RecoveryJournal, env: Env, writes: nat, at: string) returns (left: nat, crashed: bool)
    requires journal.Valid() && !Terminal(journal.Log())
    modifies journal
    ensures journal.Valid() && !Terminal(journal.Log())
    ensures crashed ==> writes == 0 < |Declaring(old(journal.Log()), env)| && journal.Log() == old(journal.Log())
    ensures !crashed ==>
              && left + |Declaring(old(journal.Log()), env)| == writes
              && journal.Log() == old(journal.Log()) + Declaring(old(journal.Log()), env)
              && Sends(journal.Log()) == Sends(old(journal.Log()))
  {
    left, crashed := writes, false;
    if Intents(journal.Log()) == [] {
      if left == 0 { return 0, true; }
      SendsAppend(journal.Log(), [SendIntent(env.calldataHash)]);
      NoVerdictYet(journal.Log(), [SendIntent(env.calldataHash)]);
      assert [SendIntent(env.calldataHash)][1..] == [];
      Record(journal, SendIntent(env.calldataHash), at);
      left := left - 1;
    }
  }

  method Send(journal: RecoveryJournal, env: Env, writes: nat, at: string) returns (end: Option<End>, txHash: string, left: nat)
    requires journal.Valid() && !Terminal(journal.Log())
    modifies journal
    ensures journal.Valid()
    ensures var q := Sending(old(journal.Log()), env);
            && journal.Log() == old(journal.Log()) + q[..Min(writes, |q|)]
            && (end.None? ==> left + |q| == writes && txHash == TxOf(old(journal.Log()), env) != "")
            && (end == Some(BroadcastFailed) ==> |q| == 0 && TxOf(old(journal.Log()), env) == "")
            && (end == Some(Crashed) ==> writes < |q|)
            && (end.Some? ==> !end.value.Done?)
  {
    left := writes;
    if Sends(journal.Log()) != [] {
      txHash := Sends(journal.Log())[0];
      return if txHash == "" then Some(BroadcastFailed) else None, txHash, left;
    }
    if env.broadcast == "" { return Some(BroadcastFailed), "", left; }
    txHash := env.broadcast;
    if left == 0 { return Some(Crashed), "", 0; }
    Record(journal, SendResult(txHash), at);
    return None, txHash, left - 1;
  }

  /** Read every provider in turn; a failed read is recorded like any other. */
  method ReadAll(journal: RecoveryJournal, env: Env, txHash: string, writes: nat, at: string) returns (left: nat, crashed: bool)
    requires journal.Valid() && EnvOk(env) && !Terminal(journal.Log())
    modifies journal
    ensures journal.Valid() && !Terminal(journal.Log())
    ensures crashed <==> writes < |env.providers|
    ensures var n := Min(writes, |env.providers|);
            left == writes - n && journal.Log() == old(journal.Log()) + ReadEvents(env, txHash, n)
  {
    left := writes;
    for k := 0 to |env.providers|
      invariant journal.Valid() && left + k == writes
      invariant journal.Log() == old(journal.Log()) + ReadEvents(env, txHash, k)
    {
      NoVerdictYet(old(journal.Log()), ReadEvents(env, txHash, k));
      if left == 0 { return 0, true; }
      Record(journal, ReceiptRead(ReadOf(env, txHash, k)), at);
      left := left - 1;
      assert ReadEvents(env, txHash, k + 1) == ReadEvents(env, txHash, k) + [ReceiptRead(ReadOf(env, txHash, k))];
    }
    NoVerdictYet(old(journal.Log()), ReadEvents(env, txHash, |env.providers|));
    return left, false;
  }

  /** The driver: return a recorded verdict, or open, read every provider and resolve. It stops
      after `writes` journal writes, wherever that is. */
  method RunRecovery(journal: RecoveryJournal, env: Env, writes: nat, at: string) returns (end: End)
    requires journal.Valid() && EnvOk(env)
    modifies journal
    ensures journal.Valid()
    ensures journal.Log() == After(old(journal.Log()), Attempt(env, writes))
    ensures end.Done? ==> Verdicts(journal.Log()) != [] && end.state == Verdicts(journal.Log())[0]
    ensures end.Done? <==> Terminal(journal.Log())
  {
    ghost var before := journal.Log();
    var verdicts := Verdicts(journal.Log());
    VerdictsOfTerminal(before);
    if verdicts != [] { return Done(verdicts[0]); }
    var stop, txHash, left := Open(journal, env, writes, at);
    if stop.Some? {
      StoppedEarly(before, env, writes);
      return stop.value;
    }
    NoVerdictYet(before, Opening(before, env));
    assert Opening(before, env)[..|Opening(before, env)|] == Opening(before, env);
    ghost var reading := left;
    var crashed;
    left, crashed := ReadAll(journal, env, txHash, left, at);
    StoppedReading(before, env, writes);
    if crashed || left == 0 { return Crashed; }
    var state := Resolve(journal.Log(), env);
    CompletedLog(before, journal.Log(), env, writes);
    CompletedVerdict(before, journal.Log(), env, Verdict(state, txHash));
    Record(journal, Verdict(state, txHash), at);
    return Done(state);
  }

  /** An attempt that stops before reading has written a part of its opening. */
  lemma StoppedEarly(j: seq<Event>, env: Env, writes: nat)
    requires EnvOk(env) && !Terminal(j)
    requires writes < |Opening(j, env)| || TxOf(j, env) == ""
    ensures var o := Opening(j, env);
            After(j, Attempt(env, writes)) == j + o[..Min(writes, |o|)] && !Terminal(j + o[..Min(writes, |o|)])
  {
    var o := Opening(j, env);
    TailShape(j, env);
    NoVerdictYet(j, o[..Min(writes, |o|)]);
  }

  /** An attempt that stops while reading, or just before resolving. */
  lemma StoppedReading(j: seq<Event>, env: Env, writes: nat)
    requires EnvOk(env) && !Terminal(j) && TxOf(j, env) != "" && |Opening(j, env)| <= writes
    ensures var n := Min(writes - |Opening(j, env)|, |env.providers|);
            writes <= |Opening(j, env)| + |env.providers| ==>
              After(j, Attempt(env, writes)) == j + Opening(j, env) + ReadEvents(env, TxOf(j, env), n)
              && !Terminal(After(j, Attempt(env, writes)))
  {
    var n := Min(writes - |Opening(j, env)|, |env.providers|);
    TailTake(j, env, n);
    assert j + (Opening(j, env) + ReadEvents(env, TxOf(j, env), n)) == j + Opening(j, env) + ReadEvents(env, TxOf(j, env), n);
    NoVerdictYet(j, Opening(j, env) + ReadEvents(env, TxOf(j, env), n));
  }

  /** A verdict that follows the reads of an open journal is its only one. */
  lemma CompletedVerdict(j: seq<Event>, body: seq<Event>, env: Env, v: Event)
    requires EnvOk(env) && !Terminal(j) && v.Verdict?
    requires body == j + Opening(j, env) + ReadEvents(env, TxOf(j, env), |env.providers|)
    ensures Verdicts(body + [v]) == [v.state] && Terminal(body + [v])
  {
    NoVerdictYet(j, Opening(j, env));
    NoVerdictYet(j + Opening(j, env), ReadEvents(env, TxOf(j, env), |env.providers|));
    OneVerdictAdded(body, v);
  }

  /** An attempt that completes has appended its verdict. */
  lemma CompletedLog(j: seq<Event>, body: seq<Event>, env: Env, writes: nat)
    requires EnvOk(env) && !Terminal(j) && TxOf(j, env) != "" && |Opening(j, env)| + |env.providers| < writes
    requires body == j + Opening(j, env) + ReadEvents(env, TxOf(j, env), |env.providers|)
    ensures After(j, Attempt(env, writes)) == body + [Verdict(Resolve(body, env), TxOf(j, env))]
  {
    var o, es := Opening(j, env), ReadEvents(env, TxOf(j, env), |env.providers|);
    assert j + (o + es) == body;
    FullTail(j, env, body);
    WholeTail(j, Attempt(env, writes), o, es, Verdict(Resolve(body, env), TxOf(j, env)));
  }

  lemma WholeTail(j: seq<Event>, a: Attempt, o: seq<Event>, es: seq<Event>, v: Event)
    requires EnvOk(a.env) && Tail(j, a.env) == o + es + [v] && |o| + |es| < a.writes
    ensures After(j, a) == j + (o + es) + [v]
  {
    var t := o + es + [v];
    assert t[..|t|] == t;
    assert j + t == j + (o + es) + [v];
  }

  lemma FullTail(j: seq<Event>, env: Env, body: seq<Event>)
    requires EnvOk(env) && !Terminal(j) && TxOf(j, env) != ""
    requires body == j + (Opening(j, env) + ReadEvents(env, TxOf(j, env), |env.providers|))
    ensures Tail(j, env) == Opening(j, env) + ReadEvents(env, TxOf(j, env), |env.providers|)
                            + [Verdict(Resolve(body, env), TxOf(j, env))]
  {
  }

  lemma OneVerdictAdded(body: seq<Event>, v: Event)
    requires !Terminal(body) && v.Verdict?
    ensures Verdicts(body + [v]) == [v.state] && Terminal(body + [v])
  {
    VerdictsOfTerminal(body);
    VerdictsAppend(body, [v]);
    assert [v][1..] == [];
    assert (body + [v])[|body|].Verdict?;
  }

  lemma TailShape(j: seq<Event>, env: Env)
    requires EnvOk(env) && !Terminal(j)
    ensures TxOf(j, env) == "" ==> Tail(j, env) == Opening(j, env)
    ensures TxOf(j, env) != "" ==> |Opening(j, env)| < |Tail(j, env)|
    ensures forall n :: 0 <= n <= |Opening(j, env)| ==> n <= |Tail(j, env)| && Tail(j, env)[..n] == Opening(j, env)[..n]
  {
  }

  lemma {:induction false} VerdictsOfTerminal(j: seq<Event>)
    ensures Verdicts(j) == [] <==> !Terminal(j)
  {
    if j != [] {
      VerdictsOfTerminal(j[1..]);
      assert forall k :: 0 < k < |j| ==> j[k] == j[1..][k - 1];
    }
  }

  lemma NotSealed(es: seq<Entry>)
    requires !Terminal(Events(es))
    ensures !(|es| >= 2 && es[|es| - 1].event.Verdict?)
  {
    if es != [] { assert Events(es)[|es| - 1] == es[|es| - 1].event; }
  }

  lemma NoVerdictYet(j: seq<Event>, es: seq<Event>)
    requires !Terminal(j) && forall k :: 0 <= k < |es| ==> !es[k].Verdict?
    ensures !Terminal(j + es)
  {
  }

  /** The part of an attempt's writes up to the k-th read. */
  lemma TailTake(j: seq<Event>, env: Env, k: nat)
    requires EnvOk(env) && !Terminal(j) && TxOf(j, env) != "" && k <= |env.providers|
    ensures var n := |Opening(j, env)| + k;
            n < |Tail(j, env)| && Tail(j, env)[..n] == Opening(j, env) + ReadEvents(env, TxOf(j, env), k)
  {
  }

  lemma {:induction false} SendsAppend(j: seq<Event>, es: seq<Event>)
    ensures Sends(j + es) == Sends(j) + Sends(es)
  {
    if j == [] {
      assert j + es == es;
    } else {
      assert (j + es)[1..] == j[1..] + es && (j + es)[0] == j[0];
      SendsAppend(j[1..], es);
    }
  }

  lemma {:induction false} IntentsAppend(j: seq<Event>, es: seq<Event>)
    ensures Intents(j + es) == Intents(j) + Intents(es)
  {
    if j == [] {
      assert j + es == es;
    } else {
      assert (j + es)[1..] == j[1..] + es && (j + es)[0] == j[0];
      IntentsAppend(j[1..], es);
    }
  }

  lemma {:induction false} ReadsAppend(j: seq<Event>, es: seq<Event>)
    ensures Reads(j + es) == Reads(j) + Reads(es)
  {
    if j == [] {
      assert j + es == es;
    } else {
      assert (j + es)[1..] == j[1..] + es && (j + es)[0] == j[0];
      ReadsAppend(j[1..], es);
    }
  }

  lemma {:induction false} VerdictsAppend(j: seq<Event>, es: seq<Event>)
    ensures Verdicts(j + es) == Verdicts(j) + Verdicts(es)
  {
    if j == [] {
      assert j + es == es;
    } else {
      assert (j + es)[1..] == j[1..] + es && (j + es)[0] == j[0];
      VerdictsAppend(j[1..], es);
    }
  }
}
