/** The fixed-window rate limiter with pruning: what it answers, how much it remembers and how much
    it admits. */
module RateLimiter {
  datatype Option<+T> = None | Some(value: T)

  datatype Bucket = Bucket(windowStart: real, count: nat)
  datatype Answer = Answer(allowed: bool, remaining: real, resetSec: int, retryAfterSec: Option<int>)
  datatype Config = Config(windowMs: real, max: real, pruneAt: real)
  datatype Request = Request(key: string, time: real)

  predicate ConfigOk(cfg: Config) {
    cfg.windowMs > 0.0 && cfg.max > 0.0 && cfg.pruneAt >= 1.0
  }

  const WINDOW_MS := 60000.0
  const MAX := 120.0
  const PRUNE_AT := 10000.0

  /** The smallest integer that is at least x. */
  function Ceil(x: real): int {
    -((-x).Floor)
  }

  function Max(a: int, b: int): int {
    if a < b then b else a
  }

  /** The number of requests that a window admits. */
  function Cap(cfg: Config): (n: nat)
    requires ConfigOk(cfg)
    ensures n >= 1 && (n - 1) as real < cfg.max <= n as real
  {
    CeilIsLeast(cfg.max);
    Ceil(cfg.max)
  }

  lemma CeilIsLeast(x: real)
    ensures (Ceil(x) - 1) as real < x <= Ceil(x) as real
  {
    assert (-x).Floor as real <= -x < (-x).Floor as real + 1.0;
  }

  predicate Expired(cfg: Config, b: Bucket, t: real) {
    t - b.windowStart >= cfg.windowMs
  }

  /** The bucket that decides a request. */
  function Current(cfg: Config, m: map<string, Bucket>, key: string, t: real): Bucket {
    if key in m && !Expired(cfg, m[key], t) then m[key] else Bucket(t, 0)
  }

  function AnswerFrom(cfg: Config, b: Bucket, t: real): Answer {
    var resetSec := Max(0, Ceil((b.windowStart + cfg.windowMs - t) / 1000.0));
    if b.count as real >= cfg.max then Answer(false, 0.0, resetSec, Some(Max(1, resetSec)))
    else Answer(true, cfg.max - (b.count + 1) as real, resetSec, None)
  }

  function Hit(cfg: Config, b: Bucket): Bucket {
    if b.count as real >= cfg.max then b else b.(count := b.count + 1)
  }

  function Swept(cfg: Config, m: map<string, Bucket>, t: real): map<string, Bucket> {
    map k | k in m && !Expired(cfg, m[k], t) :: m[k]
  }

  /** The map that a request finds: swept when it has reached the threshold, if the limiter prunes. */
  function Found(cfg: Config, m: map<string, Bucket>, t: real, prune: bool): map<string, Bucket> {
    if prune && |m| as real >= cfg.pruneAt then Swept(cfg, m, t) else m
  }

  function Step(cfg: Config, m: map<string, Bucket>, r: Request, prune: bool): map<string, Bucket> {
    var found := Found(cfg, m, r.time, prune);
    found[r.key := Hit(cfg, Current(cfg, found, r.key, r.time))]
  }

  function Reply(cfg: Config, m: map<string, Bucket>, r: Request, prune: bool): Answer {
    AnswerFrom(cfg, Current(cfg, Found(cfg, m, r.time, prune), r.key, r.time), r.time)
  }

  // ---------------------------------------------------------------------------------------------
  // The object
  // ---------------------------------------------------------------------------------------------

  class RateLimiter {
    const cfg: Config
    var buckets: map<string, Bucket>

    constructor (cfg: Config)
      requires ConfigOk(cfg)
      ensures this.cfg == cfg && buckets == map[]
    {
      this.cfg, buckets := cfg, map[];
    }

    method Size() returns (n: nat)
      ensures n == |buckets|
    {
      n := |buckets|;
    }

    /** Delete the expired buckets one by one. */
    method Sweep(t: real)
      modifies this
      ensures buckets == Swept(cfg, old(buckets), t)
    {
      var todo := buckets.Keys;
      while todo != {}
        invariant todo <= buckets.Keys
        invariant buckets == map k | k in old(buckets) && (k in todo || !Expired(cfg, old(buckets)[k], t)) :: old(buckets)[k]
        decreases |todo|
      {
        var k :| k in todo;
        if Expired(cfg, buckets[k], t) { buckets := buckets - {k}; }
        todo := todo - {k};
      }
    }

    method Check(key: string, t: real) returns (answer: Answer)
      modifies this
      ensures answer == Reply(cfg, old(buckets), Request(key, t), true)
      ensures buckets == Step(cfg, old(buckets), Request(key, t), true)
    {
      if |buckets| as real >= cfg.pruneAt { Sweep(t); }
      var b;
      if key !in buckets || Expired(cfg, buckets[key], t) {
        b := Bucket(t, 0);
        buckets := buckets[key := b];
      } else {
        b := buckets[key];
      }
      var resetSec := Max(0, Ceil((b.windowStart + cfg.windowMs - t) / 1000.0));
      if b.count as real >= cfg.max {
        assert buckets[key := b] == buckets;
        return Answer(false, 0.0, resetSec, Some(Max(1, resetSec)));
      }
      b := b.(count := b.count + 1);
      buckets := buckets[key := b];
      return Answer(true, cfg.max - b.count as real, resetSec, None);
    }
  }

  /** Create a limiter, or refuse the options. */
  method CreateRateLimiter(windowMs: real := WINDOW_MS, max: real := MAX, pruneAt: real := PRUNE_AT) returns (limiter: RateLimiter?)
    ensures limiter == null <==> !ConfigOk(Config(windowMs, max, pruneAt))
    ensures limiter != null ==> limiter.cfg == Config(windowMs, max, pruneAt) && limiter.buckets == map[]
  {
    if windowMs <= 0.0 || max <= 0.0 || pruneAt < 1.0 { return null; }
    limiter := new RateLimiter(Config(windowMs, max, pruneAt));
  }

  // ---------------------------------------------------------------------------------------------
  // Runs
  // ---------------------------------------------------------------------------------------------

  /** The buckets after a sequence of requests on a new limiter. */
  function State(cfg: Config, reqs: seq<Request>, prune: bool): map<string, Bucket> {
    if reqs == [] then map[]
    else Step(cfg, State(cfg, reqs[..|reqs| - 1], prune), reqs[|reqs| - 1], prune)
  }

  /** The answer to the last request of a run. */
  function LastAnswer(cfg: Config, reqs: seq<Request>, prune: bool): Answer
    requires reqs != []
  {
    Reply(cfg, State(cfg, reqs[..|reqs| - 1], prune), reqs[|reqs| - 1], prune)
  }

  /** The times at which a run admits requests of one key. */
  function Admitted(cfg: Config, reqs: seq<Request>, key: string, prune: bool): seq<real> {
    if reqs == [] then []
    else
      var last := reqs[|reqs| - 1];
      Admitted(cfg, reqs[..|reqs| - 1], key, prune)
      + (if last.key == key && LastAnswer(cfg, reqs, prune).allowed then [last.time] else [])
  }

  ghost predicate Ordered(reqs: seq<Request>) {
    forall i, k :: 0 <= i < k < |reqs| ==> reqs[i].time <= reqs[k].time
  }

  // ---------------------------------------------------------------------------------------------
  // When pruning is invisible
  // ---------------------------------------------------------------------------------------------

  function Times(reqs: seq<Request>): (ts: seq<real>)
    ensures |ts| == |reqs| && forall k :: 0 <= k < |reqs| ==> ts[k] == reqs[k].time
  {
    seq(|reqs|, k requires 0 <= k < |reqs| => reqs[k].time)
  }

  /** Every request of the run gets the answer of a limiter that forgets nothing. */
  ghost predicate SameAnswers(cfg: Config, reqs: seq<Request>) {
    forall n :: 0 < n <= |reqs| ==> LastAnswer(cfg, reqs[..n], true) == LastAnswer(cfg, reqs[..n], false)
  }

  /** The window opened at time i is over at time j, when a sweep is possible, and open again at l. */
  ghost predicate ReopensAt(cfg: Config, ts: seq<real>, i: int, j: int, l: int) {
    && 0 <= i < j < l < |ts| && Ceil(cfg.pruneAt) <= j
    && ts[j] - ts[i] >= cfg.windowMs && ts[l] - ts[i] < cfg.windowMs
  }

  ghost predicate Reopens(cfg: Config, ts: seq<real>) {
    exists i, j, l :: ReopensAt(cfg, ts, i, j, l)
  }

  lemma NextState(cfg: Config, reqs: seq<Request>, k: nat, prune: bool)
    requires k < |reqs|
    ensures State(cfg, reqs[..k + 1], prune) == Step(cfg, State(cfg, reqs[..k], prune), reqs[k], prune)
    ensures LastAnswer(cfg, reqs[..k + 1], prune) == Reply(cfg, State(cfg, reqs[..k], prune), reqs[k], prune)
  {
    assert reqs[..k + 1][..k] == reqs[..k];
  }

  /** The window of b opened with one of the first n requests. */
  ghost predicate Begun(b: Bucket, ts: seq<real>, n: nat)
    requires n <= |ts|
  {
    exists i :: 0 <= i < n && ts[i] == b.windowStart
  }

  /** A sweep at one of the first n times was late enough to forget b, which had begun before it. */
  ghost predicate Forgettable(cfg: Config, b: Bucket, ts: seq<real>, n: nat)
    requires n <= |ts|
  {
    exists j :: 0 <= j < n && Ceil(cfg.pruneAt) <= j && Begun(b, ts, j) && ts[j] - b.windowStart >= cfg.windowMs
  }

  /** The pruned map agrees with the full one on what it holds, and has lost only forgettable buckets. */
  ghost predicate Agrees(cfg: Config, p: map<string, Bucket>, m: map<string, Bucket>, ts: seq<real>, n: nat)
    requires n <= |ts|
  {
    && |p| <= n
    && (forall k :: k in p ==> k in m && p[k] == m[k])
    && (forall k :: k in m ==> Begun(m[k], ts, n))
    && (forall k :: k in m && k !in p ==> Forgettable(cfg, m[k], ts, n))
  }

  lemma SweepAgrees(cfg: Config, p: map<string, Bucket>, m: map<string, Bucket>, ts: seq<real>, n: nat)
    requires ConfigOk(cfg) && n < |ts| && Agrees(cfg, p, m, ts, n)
    ensures var found := Found(cfg, p, ts[n], true);
            && |found| <= n && (forall k :: k in found ==> k in m && found[k] == m[k])
            && (forall k :: k in m && k !in found ==> Forgettable(cfg, m[k], ts, n + 1))
  {
    var found := Found(cfg, p, ts[n], true);
    KeysShrink(found.Keys, p.Keys);
    CeilIsLeast(cfg.pruneAt);
    forall k | k in m && k !in found ensures Forgettable(cfg, m[k], ts, n + 1) {
      if k in p {
        assert Begun(m[k], ts, n);
      } else {
        var j :| 0 <= j < n && Ceil(cfg.pruneAt) <= j && Begun(m[k], ts, j) && ts[j] - m[k].windowStart >= cfg.windowMs;
      }
    }
  }

  lemma KeysShrink(a: set<string>, b: set<string>)
    requires a <= b
    ensures |a| <= |b|
  {
    assert b == a + (b - a);
  }

  /** A forgettable bucket is expired at the next time, unless a window reopens there. */
  lemma ForgottenIsExpired(cfg: Config, b: Bucket, ts: seq<real>, n: nat)
    requires n < |ts| && !Reopens(cfg, ts) && (Forgettable(cfg, b, ts, n + 1))
    ensures Expired(cfg, b, ts[n])
  {
    var j :| 0 <= j < n + 1 && Ceil(cfg.pruneAt) <= j && Begun(b, ts, j) && ts[j] - b.windowStart >= cfg.windowMs;
    if j < n {
      var i :| 0 <= i < j && ts[i] == b.windowStart;
      assert !ReopensAt(cfg, ts, i, j, n);
    }
  }

  lemma BegunStays(b: Bucket, ts: seq<real>, n: nat)
    requires n < |ts|
    ensures Begun(b, ts, n) ==> Begun(b, ts, n + 1)
    ensures b.windowStart == ts[n] ==> Begun(b, ts, n + 1)
  {
  }

  lemma HitKeepsStart(cfg: Config, b: Bucket)
    ensures Hit(cfg, b).windowStart == b.windowStart
  {
  }

  lemma StepBegun(cfg: Config, m: map<string, Bucket>, ts: seq<real>, n: nat, r: Request)
    requires n < |ts| && r.time == ts[n] && forall k :: k in m ==> Begun(m[k], ts, n)
    ensures var after := Step(cfg, m, r, false);
            forall k :: k in after ==> Begun(after[k], ts, n + 1)
  {
    var after := Step(cfg, m, r, false);
    forall k | k in after ensures Begun(after[k], ts, n + 1) {
      HitKeepsStart(cfg, Current(cfg, m, r.key, r.time));
      if k in m { BegunStays(m[k], ts, n); }
      BegunStays(after[k], ts, n);
    }
  }

  lemma StepAgrees(cfg: Config, p: map<string, Bucket>, m: map<string, Bucket>, ts: seq<real>, n: nat, r: Request)
    requires ConfigOk(cfg) && n < |ts| && !Reopens(cfg, ts) && Agrees(cfg, p, m, ts, n) && r.time == ts[n]
    ensures Agrees(cfg, Step(cfg, p, r, true), Step(cfg, m, r, false), ts, n + 1)
    ensures Reply(cfg, p, r, true) == Reply(cfg, m, r, false)
  {
    var found := Found(cfg, p, r.time, true);
    SweepAgrees(cfg, p, m, ts, n);
    if r.key in m && r.key !in found { ForgottenIsExpired(cfg, m[r.key], ts, n); }
    assert Current(cfg, found, r.key, r.time) == Current(cfg, m, r.key, r.time);
    StepBegun(cfg, m, ts, n, r);
    assert Step(cfg, p, r, true).Keys == found.Keys + {r.key};
  }

  lemma {:induction false} RunAgrees(cfg: Config, reqs: seq<Request>, n: nat)
    requires ConfigOk(cfg) && n <= |reqs| && !Reopens(cfg, Times(reqs))
    ensures Agrees(cfg, State(cfg, reqs[..n], true), State(cfg, reqs[..n], false), Times(reqs), n)
  {
    if n > 0 {
      RunAgrees(cfg, reqs, n - 1);
      AnswersAgree(cfg, reqs, n - 1);
    }
  }

  lemma AnswersAgree(cfg: Config, reqs: seq<Request>, n: nat)
    requires ConfigOk(cfg) && n < |reqs| && !Reopens(cfg, Times(reqs))
    requires Agrees(cfg, State(cfg, reqs[..n], true), State(cfg, reqs[..n], false), Times(reqs), n)
    ensures Agrees(cfg, State(cfg, reqs[..n + 1], true), State(cfg, reqs[..n + 1], false), Times(reqs), n + 1)
    ensures LastAnswer(cfg, reqs[..n + 1], true) == LastAnswer(cfg, reqs[..n + 1], false)
  {
    NextState(cfg, reqs, n, true);
    NextState(cfg, reqs, n, false);
    StepAgrees(cfg, State(cfg, reqs[..n], true), State(cfg, reqs[..n], false), Times(reqs), n, reqs[n]);
  }

  // The run that shows a window that reopens: request i and l have one key. The others before j have
  // further keys, of which a new one comes in the end with every request, so that j is the first
  // request to find as many keys as a sweep needs.

  function Name(n: nat): (s: string)
    ensures |s| == n + 1 && s[0] == 'o'
  {
    if n == 0 then "o" else Name(n - 1) + "o"
  }

  function FillerNames(n: nat): set<string> {
    if n == 0 then {} else FillerNames(n - 1) + {Name(n - 1)}
  }

  lemma {:induction false} CountFillers(n: nat)
    ensures |FillerNames(n)| == n && forall x :: x in FillerNames(n) ==> 1 <= |x| <= n && x[0] == 'o'
  {
    if n > 0 { CountFillers(n - 1); }
  }

  /** How many of the first k requests are not request i. */
  function Rank(i: nat, k: nat): nat {
    if k > i then k - 1 else k
  }

  /** The number of the filler name for the o-th of all others, when `need` of them bring a new one. */
  function FillerAt(o: nat, all: nat, need: nat): nat {
    Max(0, o + need - all)
  }

  /** How many filler names the first o others use. */
  function Used(o: nat, all: nat, need: nat): nat {
    if o == 0 then 0 else FillerAt(o - 1, all, need) + 1
  }

  function KeyAt(cap: nat, i: nat, j: nat, l: nat, k: nat): string
    requires cap >= 1 && j >= 1
  {
    if k == i || k == l then "a"
    else if k < j then Name(FillerAt(Rank(i, k), j - 1, cap - 1))
    else Name(0)
  }

  function Showing(ts: seq<real>, cap: nat, i: nat, j: nat, l: nat): (reqs: seq<Request>)
    requires cap >= 1 && j >= 1
    ensures |reqs| == |ts| && forall k :: 0 <= k < |ts| ==> reqs[k] == Request(KeyAt(cap, i, j, l, k), ts[k])
  {
    seq(|ts|, k requires 0 <= k < |ts| => Request(KeyAt(cap, i, j, l, k), ts[k]))
  }

  ghost predicate Keyed(reqs: seq<Request>, cap: nat, i: nat, j: nat, l: nat) {
    && 1 <= cap <= j && i < j < l < |reqs|
    && forall k :: 0 <= k < |reqs| ==> reqs[k].key == KeyAt(cap, i, j, l, k)
  }

  /** A request with another key does not touch the bucket of this one, but may find it swept. */
  lemma OtherKey(cfg: Config, m: map<string, Bucket>, r: Request, key: string, prune: bool)
    requires r.key != key
    ensures var after := Step(cfg, m, r, prune);
            && (key in after ==> key in m && after[key] == m[key])
            && (!prune && key in m ==> key in after)
  {
  }

  lemma NewKey(cfg: Config, m: map<string, Bucket>, r: Request, prune: bool)
    requires ConfigOk(cfg) && r.key !in m
    ensures r.key in Step(cfg, m, r, prune) && Step(cfg, m, r, prune)[r.key] == Bucket(r.time, 1)
  {
  }

  /** The key of request i has the bucket of that request, or none. */
  ghost predicate FirstKept(m: map<string, Bucket>, key: string, b: Bucket, begun: bool, prune: bool) {
    && (key in m ==> begun && m[key] == b)
    && (!prune && begun ==> key in m)
  }

  lemma FirstKeptNext(cfg: Config, m: map<string, Bucket>, r: Request, key: string, b: Bucket, begun: bool, prune: bool)
    requires ConfigOk(cfg) && FirstKept(m, key, b, begun, prune)
    requires r.key == key ==> !begun && b == Bucket(r.time, 1)
    ensures FirstKept(Step(cfg, m, r, prune), key, b, begun || r.key == key, prune)
  {
    if r.key == key { NewKey(cfg, m, r, prune); } else { OtherKey(cfg, m, r, key, prune); }
  }

  /** Of the first l requests only request i has the key. */
  ghost predicate OnlyAt(reqs: seq<Request>, key: string, i: nat, l: nat) {
    i < l <= |reqs| && forall k :: 0 <= k < l ==> (reqs[k].key == key <==> k == i)
  }

  lemma {:induction false} BucketOfFirst(cfg: Config, reqs: seq<Request>, key: string, i: nat, l: nat, k: nat, prune: bool)
    requires ConfigOk(cfg) && OnlyAt(reqs, key, i, l) && k <= l
    ensures FirstKept(State(cfg, reqs[..k], prune), key, Bucket(reqs[i].time, 1), i < k, prune)
  {
    if k > 0 {
      BucketOfFirst(cfg, reqs, key, i, l, k - 1, prune);
      NextState(cfg, reqs, k - 1, prune);
      FirstKeptNext(cfg, State(cfg, reqs[..k - 1], prune), reqs[k - 1], key, Bucket(reqs[i].time, 1), i < k - 1, prune);
    }
  }

  lemma FirstKey(reqs: seq<Request>, cap: nat, i: nat, j: nat, l: nat)
    requires Keyed(reqs, cap, i, j, l)
    ensures OnlyAt(reqs, "a", i, l) && reqs[l].key == "a"
  {
    forall k | 0 <= k < l ensures reqs[k].key == "a" <==> k == i {
      assert reqs[k].key == KeyAt(cap, i, j, l, k);
      assert "a"[0] == 'a';
    }
    assert reqs[l].key == KeyAt(cap, i, j, l, l);
  }

  /** How many names a run of fillers has used after one more. */
  lemma UsedNext(o: nat, all: nat, need: nat)
    requires need <= all && o < all
    ensures Used(o + 1, all, need) == FillerAt(o, all, need) + 1
    ensures FillerAt(o, all, need) == Used(o, all, need) || (FillerAt(o, all, need) == 0 && Used(o, all, need) == 1)
  {
  }

  function KeysBefore(cap: nat, i: nat, j: nat, k: nat): set<string>
    requires cap >= 1 && j >= 1
  {
    FillerNames(Used(Rank(i, k), j - 1, cap - 1)) + if i < k then {"a"} else {}
  }

  lemma NextFiller(o: nat, all: nat, need: nat)
    requires need <= all && o < all
    ensures FillerNames(Used(o + 1, all, need)) == FillerNames(Used(o, all, need)) + {Name(FillerAt(o, all, need))}
  {
    UsedNext(o, all, need);
    assert FillerNames(1) == FillerNames(0) + {Name(0)};
  }

  lemma KeysBeforeNext(cap: nat, i: nat, j: nat, l: nat, k: nat)
    requires 1 <= cap <= j && i < j < l && k < j
    ensures KeysBefore(cap, i, j, k + 1) == KeysBefore(cap, i, j, k) + {KeyAt(cap, i, j, l, k)}
  {
    if k != i { NextFiller(Rank(i, k), j - 1, cap - 1); }
  }

  /** No sweep is due before request j, but for thresholds up to two. */
  lemma KeysBeforeFew(cap: nat, i: nat, j: nat, k: nat)
    requires 2 <= cap <= j && i < j && k < j && (cap == 2 ==> k <= i)
    ensures |KeysBefore(cap, i, j, k)| < cap
  {
    var used := Used(Rank(i, k), j - 1, cap - 1);
    CountFillers(used);
  }

  lemma KeysBeforeEnough(cap: nat, i: nat, j: nat)
    requires 2 <= cap <= j && i < j
    ensures |KeysBefore(cap, i, j, j)| == cap
  {
    var used := Used(j - 1, j - 1, cap - 1);
    assert used == cap - 1;
    CountFillers(used);
    WithNew(FillerNames(used), "a");
  }

  lemma WithNew(s: set<string>, x: string)
    requires x !in s
    ensures |s + {x}| == |s| + 1
  {
  }

  lemma StepKeys(cfg: Config, m: map<string, Bucket>, r: Request)
    ensures Step(cfg, m, r, true).Keys <= m.Keys + {r.key}
    ensures (|m| as real) < cfg.pruneAt ==> Step(cfg, m, r, true).Keys == m.Keys + {r.key}
  {
  }

  lemma NoSweep(cfg: Config, m: map<string, Bucket>, before: set<string>)
    requires m.Keys == before && |before| < Ceil(cfg.pruneAt)
    ensures (|m| as real) < cfg.pruneAt
  {
    CeilIsLeast(cfg.pruneAt);
    assert |m.Keys| == |m|;
  }

  function KeysOf(reqs: seq<Request>, n: nat): set<string>
    requires n <= |reqs|
  {
    if n == 0 then {} else KeysOf(reqs, n - 1) + {reqs[n - 1].key}
  }

  /** The map has the keys of all requests while no sweep is due. */
  lemma {:induction false} KeysOfRun(cfg: Config, reqs: seq<Request>, n: nat)
    requires n <= |reqs| && forall k :: 0 <= k < n ==> |KeysOf(reqs, k)| < Ceil(cfg.pruneAt)
    ensures State(cfg, reqs[..n], true).Keys == KeysOf(reqs, n)
  {
    if n > 0 {
      var m := State(cfg, reqs[..n - 1], true);
      KeysOfRun(cfg, reqs, n - 1);
      NextState(cfg, reqs, n - 1, true);
      NoSweep(cfg, m, KeysOf(reqs, n - 1));
      StepKeys(cfg, m, reqs[n - 1]);
    }
  }

  lemma {:induction false} KeysOfKeyed(reqs: seq<Request>, cap: nat, i: nat, j: nat, l: nat, k: nat)
    requires Keyed(reqs, cap, i, j, l) && k <= j
    ensures KeysOf(reqs, k) == KeysBefore(cap, i, j, k)
  {
    if k > 0 {
      KeysOfKeyed(reqs, cap, i, j, l, k - 1);
      KeysBeforeNext(cap, i, j, l, k - 1);
    }
  }

  lemma KeysAtSweep(cfg: Config, reqs: seq<Request>, cap: nat, i: nat, j: nat, l: nat)
    requires Keyed(reqs, cap, i, j, l) && cap == Ceil(cfg.pruneAt)
    requires cap >= 2 && (cap == 2 ==> i == j - 1)
    ensures |State(cfg, reqs[..j], true)| == cap
  {
    forall k | 0 <= k < j ensures |KeysOf(reqs, k)| < cap {
      KeysOfKeyed(reqs, cap, i, j, l, k);
      KeysBeforeFew(cap, i, j, k);
    }
    KeysOfRun(cfg, reqs, j);
    KeysOfKeyed(reqs, cap, i, j, l, j);
    KeysBeforeEnough(cap, i, j);
    assert |State(cfg, reqs[..j], true).Keys| == cap;
  }

  lemma Pair(s: set<string>, x: string, y: string)
    requires x in s && y in s && x != y
    ensures |s| >= 2
  {
    KeysShrink({x, y}, s);
  }

  /** Request j finds as many keys as a sweep needs, or the key of request i is gone already. */
  lemma SweepDue(cfg: Config, reqs: seq<Request>, cap: nat, i: nat, j: nat, l: nat)
    requires Keyed(reqs, cap, i, j, l) && cap == Ceil(cfg.pruneAt)
    ensures var p := State(cfg, reqs[..j], true);
            "a" in p ==> |p| >= cap
  {
    var p := State(cfg, reqs[..j], true);
    if cap >= 3 || (cap == 2 && i == j - 1) {
      KeysAtSweep(cfg, reqs, cap, i, j, l);
    } else {
      NextState(cfg, reqs, j - 1, true);
      FirstKey(reqs, cap, i, j, l);
      var key := reqs[j - 1].key;
      assert key in p;
      if cap == 1 { KeysShrink({key}, p.Keys); } else if "a" in p { Pair(p.Keys, "a", key); }
    }
  }

  lemma SweptAway(cfg: Config, m: map<string, Bucket>, r: Request, key: string)
    requires key in m ==> |m| as real >= cfg.pruneAt && Expired(cfg, m[key], r.time)
    requires r.key != key
    ensures key !in Step(cfg, m, r, true)
  {
  }

  lemma ForgetsAt(cfg: Config, reqs: seq<Request>, cap: nat, i: nat, j: nat, l: nat)
    requires ConfigOk(cfg) && Keyed(reqs, cap, i, j, l) && cap == Ceil(cfg.pruneAt)
    requires reqs[j].time - reqs[i].time >= cfg.windowMs
    ensures "a" !in State(cfg, reqs[..j + 1], true)
  {
    FirstKey(reqs, cap, i, j, l);
    NextState(cfg, reqs, j, true);
    BucketOfFirst(cfg, reqs, "a", i, l, j, true);
    SweepDue(cfg, reqs, cap, i, j, l);
    CeilIsLeast(cfg.pruneAt);
    SweptAway(cfg, State(cfg, reqs[..j], true), reqs[j], "a");
  }

  lemma AwayNext(cfg: Config, reqs: seq<Request>, key: string, k: nat)
    requires k < |reqs| && reqs[k].key != key && key !in State(cfg, reqs[..k], true)
    ensures key !in State(cfg, reqs[..k + 1], true)
  {
    NextState(cfg, reqs, k, true);
    OtherKey(cfg, State(cfg, reqs[..k], true), reqs[k], key, true);
  }

  /** A forgotten key stays away until it is requested again. */
  lemma {:induction false} StaysAway(cfg: Config, reqs: seq<Request>, key: string, i: nat, j: nat, l: nat, k: nat)
    requires OnlyAt(reqs, key, i, l) && i < j < k <= l && key !in State(cfg, reqs[..j + 1], true)
    ensures key !in State(cfg, reqs[..k], true)
  {
    if k > j + 1 {
      StaysAway(cfg, reqs, key, i, j, l, k - 1);
      AwayNext(cfg, reqs, key, k - 1);
    }
  }

  lemma Differ(cfg: Config, p: map<string, Bucket>, m: map<string, Bucket>, r: Request)
    requires ConfigOk(cfg) && r.key !in p && r.key in m && !Expired(cfg, m[r.key], r.time) && m[r.key].count == 1
    ensures Reply(cfg, p, r, true) != Reply(cfg, m, r, false)
  {
  }

  lemma ShowsIt(cfg: Config, reqs: seq<Request>, i: nat, j: nat, l: nat)
    requires ConfigOk(cfg) && ReopensAt(cfg, Times(reqs), i, j, l)
    requires Ceil(cfg.pruneAt) >= 1 && Keyed(reqs, Ceil(cfg.pruneAt), i, j, l)
    ensures LastAnswer(cfg, reqs[..l + 1], true) != LastAnswer(cfg, reqs[..l + 1], false)
  {
    FirstKey(reqs, Ceil(cfg.pruneAt), i, j, l);
    NextState(cfg, reqs, l, true);
    NextState(cfg, reqs, l, false);
    ForgetsAt(cfg, reqs, Ceil(cfg.pruneAt), i, j, l);
    StaysAway(cfg, reqs, "a", i, j, l, l);
    BucketOfFirst(cfg, reqs, "a", i, l, l, false);
    Differ(cfg, State(cfg, reqs[..l], true), State(cfg, reqs[..l], false), reqs[l]);
  }

  /** All runs at the given times get the answers of a limiter that never forgets a bucket exactly
      when no time comes back into a window that was over at an earlier one at which a sweep was
      possible. */
  lemma PruningInvisibleIff(cfg: Config, ts: seq<real>)
    requires ConfigOk(cfg)
    ensures (forall reqs | Times(reqs) == ts :: SameAnswers(cfg, reqs)) <==> !Reopens(cfg, ts)
  {
    if Reopens(cfg, ts) {
      var i, j, l :| ReopensAt(cfg, ts, i, j, l);
      CeilIsLeast(cfg.pruneAt);
      var reqs := Showing(ts, Ceil(cfg.pruneAt), i, j, l);
      assert Times(reqs) == ts;
      ShowsIt(cfg, reqs, i, j, l);
      assert !SameAnswers(cfg, reqs);
    } else {
      forall reqs | Times(reqs) == ts ensures SameAnswers(cfg, reqs) {
        forall n | 0 < n <= |reqs| ensures LastAnswer(cfg, reqs[..n], true) == LastAnswer(cfg, reqs[..n], false) {
          RunAgrees(cfg, reqs, n - 1);
          AnswersAgree(cfg, reqs, n - 1);
        }
      }
    }
  }

  /** So pruning is invisible while the clock does not run backwards. */
  lemma PruningInvisible(cfg: Config, reqs: seq<Request>)
    requires ConfigOk(cfg) && Ordered(reqs) && reqs != []
    ensures LastAnswer(cfg, reqs, true) == LastAnswer(cfg, reqs, false)
  {
    PruningInvisibleIff(cfg, Times(reqs));
    assert SameAnswers(cfg, reqs);
    assert reqs[..|reqs|] == reqs;
  }

  lemma {:induction false} SameAdmitted(cfg: Config, reqs: seq<Request>, key: string)
    requires ConfigOk(cfg) && Ordered(reqs)
    ensures Admitted(cfg, reqs, key, true) == Admitted(cfg, reqs, key, false)
  {
    if reqs != [] {
      PruningInvisible(cfg, reqs);
      SameAdmitted(cfg, reqs[..|reqs| - 1], key);
    }
  }

  /** When the clock does run backwards a sweep can forget a bucket that is live again, and the
      limiter admits a request that it would have refused. */
  lemma PruningVisibleWhenClockRunsBack()
    ensures var cfg := Config(1.0, 1.0, 1.0);
            var reqs := [Request("a", 0.0), Request("b", 1.0), Request("a", 0.0)];
            LastAnswer(cfg, reqs, true).allowed && !LastAnswer(cfg, reqs, false).allowed
  {
    var cfg := Config(1.0, 1.0, 1.0);
    var a, b := Request("a", 0.0), Request("b", 1.0);
    var reqs := [a, b, a];
    assert reqs[..2] == [a, b] && [a, b][..1] == [a] && [a][..0] == [];
    assert State(cfg, [a], true) == map["a" := Bucket(0.0, 1)];
    assert State(cfg, [a], false) == map["a" := Bucket(0.0, 1)];
    assert Swept(cfg, State(cfg, [a], true), 1.0) == map[];
    assert State(cfg, [a, b], true) == map["b" := Bucket(1.0, 1)];
    assert State(cfg, [a, b], false) == map["a" := Bucket(0.0, 1), "b" := Bucket(1.0, 1)];
    assert "a" !in Found(cfg, State(cfg, [a, b], true), 0.0, true);
  }

  /** Memory stays bounded: after a request the limiter holds at most the threshold, or nothing but
      live buckets. */
  lemma MemoryBound(cfg: Config, m: map<string, Bucket>, r: Request)
    requires ConfigOk(cfg)
    ensures var after := Step(cfg, m, r, true);
            |after| <= Ceil(cfg.pruneAt) || forall k :: k in after ==> !Expired(cfg, after[k], r.time)
  {
    var found := Found(cfg, m, r.time, true);
    var after := Step(cfg, m, r, true);
    if |m| as real < cfg.pruneAt {
      CeilIsLeast(cfg.pruneAt);
      assert after.Keys == m.Keys + {r.key};
    }
  }

  // ---------------------------------------------------------------------------------------------
  // How much is admitted
  // ---------------------------------------------------------------------------------------------

  function Count(ts: seq<real>, lo: real, hi: real): nat {
    if ts == [] then 0
    else Count(ts[..|ts| - 1], lo, hi) + if lo <= ts[|ts| - 1] < hi then 1 else 0
  }

  function CountFrom(ts: seq<real>, lo: real): nat {
    if ts == [] then 0
    else CountFrom(ts[..|ts| - 1], lo) + if lo <= ts[|ts| - 1] then 1 else 0
  }

  lemma CountPush(ts: seq<real>, t: real, lo: real, hi: real)
    ensures Count(ts + [t], lo, hi) == Count(ts, lo, hi) + if lo <= t < hi then 1 else 0
    ensures CountFrom(ts + [t], lo) == CountFrom(ts, lo) + if lo <= t then 1 else 0
  {
    assert (ts + [t])[..|ts|] == ts;
  }

  lemma {:induction false} CountSplit(ts: seq<real>, lo: real, hi: real)
    requires lo <= hi
    ensures Count(ts, lo, hi) + CountFrom(ts, hi) == CountFrom(ts, lo)
  {
    if ts != [] { CountSplit(ts[..|ts| - 1], lo, hi); }
  }

  lemma {:induction false} CountNone(ts: seq<real>, lo: real)
    requires forall s :: s in ts ==> s < lo
    ensures CountFrom(ts, lo) == 0
  {
    if ts != [] {
      var front := ts[..|ts| - 1];
      assert forall s :: s in front ==> s in ts;
      CountNone(front, lo);
      assert ts[|ts| - 1] in ts;
    }
  }

  /** Starting after an admitted time leaves that one out. */
  lemma {:induction false} CountAfter(ts: seq<real>, w: real, lo: real)
    requires w in ts && w < lo
    ensures CountFrom(ts, lo) < CountFrom(ts, w)
  {
    var front := ts[..|ts| - 1];
    assert ts == front + [ts[|ts| - 1]];
    if w in front {
      CountAfter(front, w, lo);
    } else {
      CountSplit(front, w, lo);
    }
  }

  /** What a bucket knows about the admissions of its key: all of them since the start of the
      window, which opened with one; fewer than a window's worth in the time just before. */
  ghost predicate Tracks(cfg: Config, b: Bucket, ts: seq<real>, now: real)
    requires ConfigOk(cfg)
  {
    && b.windowStart <= now && (forall s :: s in ts ==> s <= now)
    && 1 <= b.count <= Cap(cfg) && CountFrom(ts, b.windowStart) == b.count && b.windowStart in ts
    && (forall s :: s in ts ==> s < b.windowStart + cfg.windowMs)
    && (forall x: real :: x > b.windowStart - cfg.windowMs ==> Count(ts, x, b.windowStart) <= Cap(cfg) - 1)
  }

  /** How many times lie in the half-open interval of the window's length that starts at x. */
  function InSpan(cfg: Config, ts: seq<real>, x: real): nat {
    Count(ts, x, x + cfg.windowMs)
  }

  ghost predicate Bounded(cfg: Config, ts: seq<real>)
    requires ConfigOk(cfg)
  {
    forall x: real :: InSpan(cfg, ts, x) <= 2 * Cap(cfg) - 1
  }

  ghost predicate KeyInv(cfg: Config, m: map<string, Bucket>, key: string, ts: seq<real>, now: real)
    requires ConfigOk(cfg)
  {
    if key in m then Tracks(cfg, m[key], ts, now) && Bounded(cfg, ts) else ts == []
  }

  /** A request that opens a window. */
  lemma OpensWindow(cfg: Config, b: Bucket, ts: seq<real>, now: real, t: real)
    requires ConfigOk(cfg) && Tracks(cfg, b, ts, now) && Bounded(cfg, ts) && now <= t && Expired(cfg, b, t)
    ensures Tracks(cfg, Bucket(t, 1), ts + [t], t) && Bounded(cfg, ts + [t])
  {
    var w := b.windowStart;
    CountNone(ts, t);
    CountPush(ts, t, t, t);
    forall x: real | x > t - cfg.windowMs ensures CountFrom(ts, x) <= Cap(cfg) - 1 && Count(ts + [t], x, t) <= Cap(cfg) - 1 {
      CountAfter(ts, w, x);
      CountPush(ts, t, x, t);
      if x <= t { CountSplit(ts, x, t); } else { CountEmpty(ts, x, t); }
    }
    forall x: real ensures InSpan(cfg, ts + [t], x) <= 2 * Cap(cfg) - 1 {
      CountPush(ts, t, x, x + cfg.windowMs);
      assert InSpan(cfg, ts, x) <= 2 * Cap(cfg) - 1;
      if x <= t < x + cfg.windowMs { CountSplit(ts, x, x + cfg.windowMs); }
    }
  }

  lemma {:induction false} CountEmpty(ts: seq<real>, lo: real, hi: real)
    requires hi <= lo
    ensures Count(ts, lo, hi) == 0
  {
    if ts != [] { CountEmpty(ts[..|ts| - 1], lo, hi); }
  }

  /** A request that is admitted into an open window. */
  lemma JoinsWindow(cfg: Config, b: Bucket, ts: seq<real>, now: real, t: real)
    requires ConfigOk(cfg) && Tracks(cfg, b, ts, now) && Bounded(cfg, ts) && now <= t && !Expired(cfg, b, t)
    requires b.count < Cap(cfg)
    ensures Tracks(cfg, b.(count := b.count + 1), ts + [t], t) && Bounded(cfg, ts + [t])
  {
    var w := b.windowStart;
    CountPush(ts, t, w, t);
    forall x: real | x > w - cfg.windowMs ensures Count(ts + [t], x, w) <= Cap(cfg) - 1 {
      CountPush(ts, t, x, w);
    }
    forall x: real ensures InSpan(cfg, ts + [t], x) <= 2 * Cap(cfg) - 1 {
      CountPush(ts, t, x, x + cfg.windowMs);
      assert InSpan(cfg, ts, x) <= 2 * Cap(cfg) - 1;
      if x <= t < x + cfg.windowMs {
        CountSplit(ts, x, x + cfg.windowMs);
        if x <= w {
          CountSplit(ts, x, w);
        } else {
          CountSplit(ts, w, x);
        }
      }
    }
  }

  lemma FirstWindow(cfg: Config, t: real)
    requires ConfigOk(cfg)
    ensures Tracks(cfg, Bucket(t, 1), [t], t) && Bounded(cfg, [t])
  {
    assert [] + [t] == [t];
    CountPush([], t, t, t);
    forall x: real ensures Count([t], x, t) == 0 && InSpan(cfg, [t], x) <= 1 {
      CountPush([], t, x, t);
      CountPush([], t, x, x + cfg.windowMs);
    }
  }

  lemma StepKeepsKeyInv(cfg: Config, m: map<string, Bucket>, r: Request, key: string, ts: seq<real>, now: real)
    requires ConfigOk(cfg) && KeyInv(cfg, m, key, ts, now) && now <= r.time
    ensures KeyInv(cfg, Step(cfg, m, r, false), key,
              ts + if r.key == key && Reply(cfg, m, r, false).allowed then [r.time] else [], r.time)
  {
    if r.key == key {
      if key !in m {
        FirstWindow(cfg, r.time);
        assert ts + [r.time] == [r.time];
      } else if Expired(cfg, m[key], r.time) {
        OpensWindow(cfg, m[key], ts, now, r.time);
      } else if m[key].count < Cap(cfg) {
        JoinsWindow(cfg, m[key], ts, now, r.time);
      } else {
        assert ts + [] == ts;
      }
    } else {
      assert ts + [] == ts;
    }
  }

  lemma {:induction false} RunKeyInv(cfg: Config, reqs: seq<Request>, key: string, t: real)
    requires ConfigOk(cfg) && Ordered(reqs) && (forall i :: 0 <= i < |reqs| ==> reqs[i].time <= t)
    ensures KeyInv(cfg, State(cfg, reqs, false), key, Admitted(cfg, reqs, key, false), t)
  {
    if reqs != [] {
      var front, last := reqs[..|reqs| - 1], reqs[|reqs| - 1];
      RunKeyInv(cfg, front, key, last.time);
      StepKeepsKeyInv(cfg, State(cfg, front, false), last, key, Admitted(cfg, front, key, false), last.time);
    }
  }

  /** In every half-open interval as long as the window, a key is admitted fewer than twice the
      maximum. */
  lemma SlidingBound(cfg: Config, reqs: seq<Request>, key: string, x: real)
    requires ConfigOk(cfg) && Ordered(reqs)
    ensures InSpan(cfg, Admitted(cfg, reqs, key, true), x) <= 2 * Cap(cfg) - 1
  {
    SameAdmitted(cfg, reqs, key);
    if reqs != [] {
      RunKeyInv(cfg, reqs, key, reqs[|reqs| - 1].time);
    }
  }

  /** A request is refused exactly when its window is still open and has admitted the maximum; the
      maximum has then been admitted within the window's length before the request. */
  lemma RefusedIffWindowFull(cfg: Config, reqs: seq<Request>, r: Request)
    requires ConfigOk(cfg) && Ordered(reqs + [r])
    ensures var m, ts := State(cfg, reqs, false), Admitted(cfg, reqs, r.key, true);
            !LastAnswer(cfg, reqs + [r], true).allowed <==>
              r.key in m && !Expired(cfg, m[r.key], r.time) && CountFrom(ts, m[r.key].windowStart) == Cap(cfg)
    ensures !LastAnswer(cfg, reqs + [r], true).allowed ==>
              exists w :: w in Admitted(cfg, reqs, r.key, true) && w > r.time - cfg.windowMs
                && CountFrom(Admitted(cfg, reqs, r.key, true), w) == Cap(cfg)
  {
    assert (reqs + [r])[..|reqs|] == reqs;
    assert forall i :: 0 <= i < |reqs| ==> reqs[i] == (reqs + [r])[i];
    PruningInvisible(cfg, reqs + [r]);
    SameAdmitted(cfg, reqs, r.key);
    RunKeyInv(cfg, reqs, r.key, r.time);
  }

  // ---------------------------------------------------------------------------------------------
  // The bound is reached
  // ---------------------------------------------------------------------------------------------

  function Copies<T>(x: T, n: nat): (s: seq<T>)
    ensures |s| == n && forall i :: 0 <= i < n ==> s[i] == x
  {
    if n == 0 then [] else Copies(x, n - 1) + [x]
  }

  lemma {:induction false} CountCopies(ts: seq<real>, t: real, n: nat, lo: real, hi: real)
    ensures Count(ts + Copies(t, n), lo, hi) == Count(ts, lo, hi) + if lo <= t < hi then n else 0
  {
    if n == 0 {
      assert ts + [] == ts;
    } else {
      CountCopies(ts, t, n - 1, lo, hi);
      CountPush(ts + Copies(t, n - 1), t, lo, hi);
      assert ts + Copies(t, n) == (ts + Copies(t, n - 1)) + [t];
    }
  }

  /** The window of the key is as given, and these are its admissions. */
  ghost predicate At(cfg: Config, reqs: seq<Request>, key: string, b: Bucket, ts: seq<real>) {
    key in State(cfg, reqs, false) && State(cfg, reqs, false)[key] == b && Admitted(cfg, reqs, key, false) == ts
  }

  lemma Opened(cfg: Config, reqs: seq<Request>, key: string, t: real, ts: seq<real>)
    requires ConfigOk(cfg) && Admitted(cfg, reqs, key, false) == ts
    requires key in State(cfg, reqs, false) ==> Expired(cfg, State(cfg, reqs, false)[key], t)
    ensures At(cfg, reqs + [Request(key, t)], key, Bucket(t, 1), ts + [t])
  {
    assert (reqs + [Request(key, t)])[..|reqs|] == reqs;
  }

  lemma Joined(cfg: Config, reqs: seq<Request>, key: string, b: Bucket, ts: seq<real>, t: real)
    requires ConfigOk(cfg) && At(cfg, reqs, key, b, ts) && !Expired(cfg, b, t) && b.count < Cap(cfg)
    ensures At(cfg, reqs + [Request(key, t)], key, b.(count := b.count + 1), ts + [t])
  {
    assert (reqs + [Request(key, t)])[..|reqs|] == reqs;
  }

  lemma CopiesPush<T>(s: seq<T>, x: T, n: nat)
    requires n > 0
    ensures s + Copies(x, n) == (s + Copies(x, n - 1)) + [x]
  {
  }

  lemma {:induction false} Burst(cfg: Config, reqs: seq<Request>, key: string, b: Bucket, ts: seq<real>, t: real, n: nat)
    requires ConfigOk(cfg) && At(cfg, reqs, key, b, ts) && !Expired(cfg, b, t) && b.count + n <= Cap(cfg)
    ensures At(cfg, reqs + Copies(Request(key, t), n), key, b.(count := b.count + n), ts + Copies(t, n))
  {
    if n == 0 {
      assert reqs + Copies(Request(key, t), n) == reqs && ts + Copies(t, n) == ts;
    } else {
      Burst(cfg, reqs, key, b, ts, t, n - 1);
      Joined(cfg, reqs + Copies(Request(key, t), n - 1), key, b.(count := b.count + (n - 1)), ts + Copies(t, n - 1), t);
      CopiesPush(reqs, Request(key, t), n);
      CopiesPush(ts, t, n);
    }
  }

  /** One request opens a window; the rest of its maximum comes half a window later, and a whole
      further maximum as soon as the window has passed. */
  function TwoBursts(cfg: Config, key: string): seq<Request>
    requires ConfigOk(cfg)
  {
    [Request(key, 0.0)] + Copies(Request(key, cfg.windowMs / 2.0), Cap(cfg) - 1)
    + [Request(key, cfg.windowMs)] + Copies(Request(key, cfg.windowMs), Cap(cfg) - 1)
  }

  function BurstTimes(h: real, w: real, n: nat): seq<real> {
    [0.0] + Copies(h, n) + [w] + Copies(w, n)
  }

  lemma BurstsOrdered(cfg: Config, key: string)
    requires ConfigOk(cfg)
    ensures Ordered(TwoBursts(cfg, key))
  {
    var reqs, n := TwoBursts(cfg, key), Cap(cfg);
    assert forall i :: 0 <= i < |reqs| ==> reqs[i].time == if i == 0 then 0.0 else if i < n then cfg.windowMs / 2.0 else cfg.windowMs;
  }

  lemma BurstsAdmitted(cfg: Config, key: string)
    requires ConfigOk(cfg)
    ensures Admitted(cfg, TwoBursts(cfg, key), key, false) == BurstTimes(cfg.windowMs / 2.0, cfg.windowMs, Cap(cfg) - 1)
  {
    var h, w, n := cfg.windowMs / 2.0, cfg.windowMs, Cap(cfg) - 1;
    var first := [Request(key, 0.0)];
    var second := first + Copies(Request(key, h), n);
    assert [] + first == first && [] + [0.0] == [0.0];
    Opened(cfg, [], key, 0.0, []);
    Burst(cfg, first, key, Bucket(0.0, 1), [0.0], h, n);
    Opened(cfg, second, key, w, [0.0] + Copies(h, n));
    Burst(cfg, second + [Request(key, w)], key, Bucket(w, 1), [0.0] + Copies(h, n) + [w], w, n);
  }

  lemma FirstBurst(h: real, n: nat, hi: real)
    requires 0.0 < h < hi
    ensures Count([0.0] + Copies(h, n), h, hi) == n
  {
    CountCopies([0.0], h, n, h, hi);
    CountNone([0.0], h);
    CountSplit([0.0], h, hi);
  }

  lemma SecondBurst(ts: seq<real>, w: real, n: nat, lo: real, hi: real)
    requires lo <= w < hi
    ensures Count(ts + [w] + Copies(w, n), lo, hi) == Count(ts, lo, hi) + n + 1
  {
    CountPush(ts, w, lo, hi);
    CountCopies(ts + [w], w, n, lo, hi);
  }

  lemma BurstsCount(h: real, w: real, n: nat)
    requires 0.0 < h < w
    ensures Count(BurstTimes(h, w, n), h, h + w) == 2 * n + 1
  {
    FirstBurst(h, n, h + w);
    SecondBurst([0.0] + Copies(h, n), w, n, h, h + w);
  }

  /** For every configuration the sliding bound is reached. */
  lemma SlidingBoundReached(cfg: Config, key: string)
    requires ConfigOk(cfg)
    ensures Ordered(TwoBursts(cfg, key))
    ensures InSpan(cfg, Admitted(cfg, TwoBursts(cfg, key), key, true), cfg.windowMs / 2.0) == 2 * Cap(cfg) - 1
  {
    var reqs := TwoBursts(cfg, key);
    BurstsOrdered(cfg, key);
    SameAdmitted(cfg, reqs, key);
    BurstsAdmitted(cfg, key);
    SpanOfBursts(cfg, Admitted(cfg, reqs, key, true));
  }

  lemma SpanOfBursts(cfg: Config, ts: seq<real>)
    requires ConfigOk(cfg) && ts == BurstTimes(cfg.windowMs / 2.0, cfg.windowMs, Cap(cfg) - 1)
    ensures InSpan(cfg, ts, cfg.windowMs / 2.0) == 2 * Cap(cfg) - 1
  {
    BurstsCount(cfg.windowMs / 2.0, cfg.windowMs, Cap(cfg) - 1);
  }

  /** What an answer says: a request is admitted while fewer than the maximum were counted, and what
      remains is told after it; the seconds until the window ends are rounded up and never negative, and a
      refusal tells them as the time to wait, which is at least one second. */
  lemma AnswerMeans(cfg: Config, b: Bucket, t: real, left: real)
    requires ConfigOk(cfg) && left == b.windowStart + cfg.windowMs - t
    ensures var a := AnswerFrom(cfg, b, t);
            && (a.allowed <==> (b.count as real) < cfg.max)
            && (a.allowed ==> a.remaining + (b.count + 1) as real == cfg.max && a.retryAfterSec == None)
            && (!a.allowed ==> a.remaining == 0.0 && a.retryAfterSec == Some(if a.resetSec >= 1 then a.resetSec else 1))
            && a.resetSec >= 0 && left / 1000.0 <= a.resetSec as real
            && (a.resetSec > 0 ==> (a.resetSec - 1) as real < left / 1000.0)
  {
    CeilIsLeast(left / 1000.0);
  }

  /** A window starts with the request that opens it, lasts for the configured time, and counts each
      request it admits. */
  lemma WindowMeans(cfg: Config, m: map<string, Bucket>, r: Request)
    ensures var b := Current(cfg, m, r.key, r.time);
            if r.key in m && r.time < m[r.key].windowStart + cfg.windowMs then b == m[r.key]
            else b.windowStart == r.time && b.count == 0
    ensures var m' := Step(cfg, m, r, false);
            && m'.Keys == m.Keys + {r.key}
            && (forall k :: k in m && k != r.key ==> m'[k] == m[k])
            && var b := Current(cfg, m, r.key, r.time);
               m'[r.key] == Bucket(b.windowStart, if (b.count as real) < cfg.max then b.count + 1 else b.count)
  {
  }
}
