/** The structural replay check: which traces have a possible execution plan. */
module Replay {
  import opened Forest
  import opened LowerCase
  import opened Trace

  /** An entry of the trace's call list. Junk is anything that is not an object. */
  datatype Frame = Junk | Frame(depth: Num, from: string, to: string, calldata: string, gasUsed: Num, value: Num)

  datatype Claim = Claim(from: string, to: string, calldata: string, gasUsed: Num, gasLimit: Num, calls: seq<Frame>)

  datatype Error =
    | TraceMissing
    | BadTxGas
    | GasOverLimit
    | NotObject(i: nat)
    | BadDepth(i: nat)
    | NoRoot(depth: nat)
    | DepthJump(i: nat, depth: nat, after: nat)
    | BadGas(i: nat)
    | BadValue(i: nat)
    | RootFrom(from: string)
    | RootTo(to: string)
    | RootSelector(selector: string)
    | GasOverTx(i: nat)

  /** The first ten characters of the call data, which hold "0x" and the function selector. */
  function SelectorOf(calldata: string): Option<string> {
    if |calldata| >= 10 then Some(Lower(calldata)[..10]) else None
  }

  function Number(n: Num): Option<nat> {
    if n.Uint? then Some(n.value) else None
  }

  /** A missing depth counts as zero. */
  function DepthOf(n: Num): Option<nat> {
    match n
    case Missing => Some(0)
    case Malformed => None
    case Uint(d) => Some(d)
  }

  // ---------------------------------------------------------------------------------------------
  // The list of errors
  // ---------------------------------------------------------------------------------------------

  function HeaderErrors(c: Claim): seq<Error> {
    match (Number(c.gasUsed), Number(c.gasLimit))
    case (None, _) => [BadTxGas]
    case (Some(gas), Some(limit)) => if limit < gas then [GasOverLimit] else []
    case (Some(gas), None) => []
  }

  function DepthErrors(i: nat, d: nat, prev: Option<nat>): seq<Error> {
    match prev
    case None => if d != 0 then [NoRoot(d)] else []
    case Some(p) => if d > p + 1 then [DepthJump(i, d, p)] else []
  }

  /** Comparisons are skipped when a side is empty or too short. */
  function RootErrors(c: Claim, f: Frame): seq<Error>
    requires f.Frame?
  {
    (if f.from != "" && c.from != "" && Lower(f.from) != Lower(c.from) then [RootFrom(Lower(f.from))] else [])
    + (if f.to != "" && c.to != "" && Lower(f.to) != Lower(c.to) then [RootTo(Lower(f.to))] else [])
    + (match (SelectorOf(c.calldata), SelectorOf(f.calldata))
       case (Some(tx), Some(own)) => if tx != own then [RootSelector(own)] else []
       case _ => [])
  }

  function FieldErrors(i: nat, f: Frame): seq<Error>
    requires f.Frame?
  {
    (if f.gasUsed.Uint? then [] else [BadGas(i)]) + (if f.value.Uint? then [] else [BadValue(i)])
  }

  function GasErrors(c: Claim, i: nat, f: Frame): seq<Error>
    requires f.Frame?
  {
    if f.gasUsed.Uint? && c.gasUsed.Uint? && f.gasUsed.value > c.gasUsed.value then [GasOverTx(i)] else []
  }

  function FrameErrors(c: Claim, i: nat, f: Frame, prev: Option<nat>): seq<Error> {
    if f.Junk? then [NotObject(i)]
    else if DepthOf(f.depth).None? then [BadDepth(i)]
    else
      var d := DepthOf(f.depth).value;
      DepthErrors(i, d, prev) + FieldErrors(i, f) + (if d == 0 then RootErrors(c, f) else []) + GasErrors(c, i, f)
  }

  /** The depth of the last readable frame among the first n. */
  function Prev(c: Claim, n: nat): Option<nat>
    requires n <= |c.calls|
  {
    if n == 0 then None
    else
      var f := c.calls[n - 1];
      if f.Junk? || DepthOf(f.depth).None? then Prev(c, n - 1) else DepthOf(f.depth)
  }

  /** What each of the first n frames contributes. */
  function Reports(c: Claim, n: nat): (rs: seq<seq<Error>>)
    requires n <= |c.calls|
    ensures |rs| == n && forall i :: 0 <= i < n ==> rs[i] == FrameErrors(c, i, c.calls[i], Prev(c, i))
  {
    seq(n, i requires 0 <= i < n => FrameErrors(c, i, c.calls[i], Prev(c, i)))
  }

  function Concat<T>(ss: seq<seq<T>>): seq<T> {
    if ss == [] then [] else Concat(ss[..|ss| - 1]) + ss[|ss| - 1]
  }

  function Errors(c: Claim): seq<Error> {
    HeaderErrors(c) + Concat(Reports(c, |c.calls|))
  }

  lemma {:induction false} ConcatEmpty<T>(ss: seq<seq<T>>)
    ensures Concat(ss) == [] <==> forall i :: 0 <= i < |ss| ==> ss[i] == []
  {
    if ss != [] { ConcatEmpty(ss[..|ss| - 1]); }
  }

  lemma ReportsPush(c: Claim, n: nat)
    requires n < |c.calls|
    ensures Concat(Reports(c, n + 1)) == Concat(Reports(c, n)) + FrameErrors(c, n, c.calls[n], Prev(c, n))
  {
    assert Reports(c, n + 1)[..n] == Reports(c, n);
  }

  // ---------------------------------------------------------------------------------------------
  // When the plan is valid
  // ---------------------------------------------------------------------------------------------

  /** A value that is compared only when both sides are present. */
  predicate Matches(a: string, b: string) {
    a == "" || b == "" || Lower(a) == Lower(b)
  }

  predicate SameSelector(a: string, b: string) {
    |a| < 10 || |b| < 10 || Lower(a[..10]) == Lower(b[..10])
  }

  ghost predicate RootMatches(c: Claim, f: Frame)
    requires f.Frame?
  {
    Matches(f.from, c.from) && Matches(f.to, c.to) && SameSelector(f.calldata, c.calldata)
  }

  /** A frame whose fields can be read and that reports no more gas than the transaction. */
  ghost predicate SoundFrame(c: Claim, f: Frame)
    requires c.gasUsed.Uint?
  {
    && f.Frame? && DepthOf(f.depth).Some? && f.gasUsed.Uint? && f.value.Uint?
    && f.gasUsed.value <= c.gasUsed.value
    && (DepthOf(f.depth) == Some(0) ==> RootMatches(c, f))
  }

  /** The frames as a list with depths. */
  function ItemsOf(fs: seq<Frame>): (s: seq<Item<Frame>>)
    requires forall i :: 0 <= i < |fs| ==> fs[i].Frame? && DepthOf(fs[i].depth).Some?
    ensures |s| == |fs| && forall i :: 0 <= i < |fs| ==> s[i] == Item(DepthOf(fs[i].depth).value, fs[i])
  {
    seq(|fs|, i requires 0 <= i < |fs| => Item(DepthOf(fs[i].depth).value, fs[i]))
  }

  ghost predicate AllSound(c: Claim)
    requires c.gasUsed.Uint?
  {
    forall i :: 0 <= i < |c.calls| ==> SoundFrame(c, c.calls[i])
  }

  /** A claim that does not contradict itself. */
  ghost predicate Coherent(c: Claim) {
    && c.gasUsed.Uint? && (c.gasLimit.Uint? ==> c.gasUsed.value <= c.gasLimit.value)
    && AllSound(c) && Legal(ItemsOf(c.calls), 0)
  }

  lemma RootErrorsIff(c: Claim, f: Frame)
    requires f.Frame?
    ensures RootErrors(c, f) == [] <==> RootMatches(c, f)
  {
    if |c.calldata| >= 10 && |f.calldata| >= 10 {
      assert Lower(c.calldata)[..10] == Lower(c.calldata[..10]);
      assert Lower(f.calldata)[..10] == Lower(f.calldata[..10]);
    }
  }

  /** A frame at depth d is allowed after a frame at depth prev, or first. */
  predicate Follows(d: nat, prev: Option<nat>) {
    if prev.None? then d == 0 else d <= prev.value + 1
  }

  lemma FrameErrorsIff(c: Claim, i: nat, f: Frame, prev: Option<nat>)
    requires c.gasUsed.Uint?
    ensures FrameErrors(c, i, f, prev) == [] <==> SoundFrame(c, f) && Follows(DepthOf(f.depth).value, prev)
  {
    if f.Frame? { RootErrorsIff(c, f); }
  }

  /** When every frame is sound, the loop compares each with its predecessor, which is the depth rule. */
  lemma FollowsIsLegal(c: Claim)
    requires c.gasUsed.Uint? && AllSound(c)
    ensures (forall i :: 0 <= i < |c.calls| ==> Follows(DepthOf(c.calls[i].depth).value, Prev(c, i))) <==> Legal(ItemsOf(c.calls), 0)
  {
    var s := ItemsOf(c.calls);
    forall i | 0 <= i < |s|
      ensures s[i].depth == DepthOf(c.calls[i].depth).value && Prev(c, i) == if i == 0 then None else Some(s[i - 1].depth)
    {
      if i > 0 { assert SoundFrame(c, c.calls[i - 1]); }
    }
  }

  /** The plan has no errors exactly when the claim is coherent. */
  lemma ErrorFreeIffCoherent(c: Claim)
    ensures Errors(c) == [] <==> Coherent(c)
  {
    var rs := Reports(c, |c.calls|);
    ConcatEmpty(rs);
    if c.gasUsed.Uint? {
      forall i | 0 <= i < |rs|
        ensures rs[i] == [] <==> SoundFrame(c, c.calls[i]) && Follows(DepthOf(c.calls[i].depth).value, Prev(c, i))
      {
        FrameErrorsIff(c, i, c.calls[i], Prev(c, i));
      }
      ErrorFreeStep(c, rs);
    }
  }

  lemma ErrorFreeStep(c: Claim, rs: seq<seq<Error>>)
    requires c.gasUsed.Uint? && |rs| == |c.calls|
    requires forall i :: 0 <= i < |rs| ==>
               (rs[i] == [] <==> SoundFrame(c, c.calls[i]) && Follows(DepthOf(c.calls[i].depth).value, Prev(c, i)))
    ensures (forall i :: 0 <= i < |rs| ==> rs[i] == []) <==> AllSound(c) && Legal(ItemsOf(c.calls), 0)
  {
    if AllSound(c) { FollowsIsLegal(c); }
  }

  /** The frames of a coherent claim are the preorder of one call forest, and of no other. */
  lemma CoherentIsOneForest(c: Claim) returns (ts: seq<Tree<Frame>>)
    requires Coherent(c)
    ensures Flat(ts, 0) == ItemsOf(c.calls)
    ensures forall us: seq<Tree<Frame>> :: Flat(us, 0) == ItemsOf(c.calls) ==> us == ts
  {
    ts := Build(ItemsOf(c.calls), 0);
    FlatOfBuild(ItemsOf(c.calls), 0);
    forall us: seq<Tree<Frame>> | Flat(us, 0) == ItemsOf(c.calls) ensures us == ts { BuildOfFlat(us, 0); }
  }

  /** Check a claim: walk the frames once, remembering the depth of the last readable one. */
  method PlanTraceReplay(claim: Option<Claim>) returns (valid: bool, errors: seq<Error>, frames: nat)
    ensures claim.None? ==> !valid && errors == [TraceMissing] && frames == 0
    ensures claim.Some? ==> errors == Errors(claim.value) && frames == |claim.value.calls|
    ensures claim.Some? ==> (valid <==> Coherent(claim.value))
  {
    if claim.None? { return false, [TraceMissing], 0; }
    var c := claim.value;
    errors := CheckHeader(c);
    var found := CheckFrames(c);
    errors := errors + found;
    ErrorFreeIffCoherent(c);
    return errors == [], errors, |c.calls|;
  }

  method CheckHeader(c: Claim) returns (errors: seq<Error>)
    ensures errors == HeaderErrors(c)
  {
    var txGas, txGasLimit := Number(c.gasUsed), Number(c.gasLimit);
    errors := [];
    if txGas.None? { errors := errors + [BadTxGas]; }
    if txGasLimit.Some? && txGas.Some? && txGasLimit.value < txGas.value { errors := errors + [GasOverLimit]; }
  }

  method CheckFrames(c: Claim) returns (errors: seq<Error>)
    ensures errors == Concat(Reports(c, |c.calls|))
  {
    errors := [];
    var prevDepth: Option<nat> := None;
    for i := 0 to |c.calls|
      invariant errors == Concat(Reports(c, i))
      invariant prevDepth == Prev(c, i)
    {
      ReportsPush(c, i);
      var found, next := CheckEntry(c, i, c.calls[i], prevDepth);
      errors, prevDepth := errors + found, next;
    }
  }

  /** An entry that cannot be read leaves the remembered depth as it is. */
  method CheckEntry(c: Claim, i: nat, frame: Frame, prevDepth: Option<nat>) returns (errors: seq<Error>, next: Option<nat>)
    ensures errors == FrameErrors(c, i, frame, prevDepth)
    ensures next == if frame.Junk? || DepthOf(frame.depth).None? then prevDepth else DepthOf(frame.depth)
  {
    if frame.Junk? { return [NotObject(i)], prevDepth; }
    next := DepthOf(frame.depth);
    if next.None? { return [BadDepth(i)], prevDepth; }
    errors := CheckFrame(c, i, frame, next.value, prevDepth);
  }

  /** The checks of one readable frame, in the order in which errors are pushed. */
  method CheckFrame(c: Claim, i: nat, frame: Frame, d: nat, prevDepth: Option<nat>) returns (errors: seq<Error>)
    requires frame.Frame? && DepthOf(frame.depth) == Some(d)
    ensures errors == FrameErrors(c, i, frame, prevDepth)
  {
    var depth := CheckDepth(i, d, prevDepth);
    var fields := CheckFields(i, frame);
    var root := [];
    if d == 0 { root := CheckRoot(c, frame); }
    errors := depth + fields + root;
    if frame.gasUsed.Uint? && c.gasUsed.Uint? && frame.gasUsed.value > c.gasUsed.value { errors := errors + [GasOverTx(i)]; }
  }

  method CheckDepth(i: nat, d: nat, prevDepth: Option<nat>) returns (errors: seq<Error>)
    ensures errors == DepthErrors(i, d, prevDepth)
  {
    errors := [];
    if prevDepth.None? {
      if d != 0 { errors := errors + [NoRoot(d)]; }
    } else if d > prevDepth.value + 1 {
      errors := errors + [DepthJump(i, d, prevDepth.value)];
    }
  }

  method CheckFields(i: nat, frame: Frame) returns (errors: seq<Error>)
    requires frame.Frame?
    ensures errors == FieldErrors(i, frame)
  {
    errors := [];
    if Number(frame.gasUsed).None? { errors := errors + [BadGas(i)]; }
    if Number(frame.value).None? { errors := errors + [BadValue(i)]; }
  }

  method CheckRoot(c: Claim, frame: Frame) returns (errors: seq<Error>)
    requires frame.Frame?
    ensures errors == RootErrors(c, frame)
  {
    errors := [];
    var from, to, txFrom, txTo := Lower(frame.from), Lower(frame.to), Lower(c.from), Lower(c.to);
    var own, tx := SelectorOf(frame.calldata), SelectorOf(c.calldata);
    if from != "" && txFrom != "" && from != txFrom { errors := errors + [RootFrom(from)]; }
    if to != "" && txTo != "" && to != txTo { errors := errors + [RootTo(to)]; }
    if tx.Some? && own.Some? && tx.value != own.value { errors := errors + [RootSelector(own.value)]; }
  }

  // ---------------------------------------------------------------------------------------------
  // Flattened traces
  // ---------------------------------------------------------------------------------------------

  /** The transaction and receipt fields that enter the claim. */
  datatype Tx = Tx(from: string, to: string, input: string, gas: Num, gasUsed: Num)

  function FrameOf(call: Call): Frame {
    Frame(Uint(call.depth), call.data.from, call.data.to, call.data.calldata, Uint(call.data.gasUsed), Uint(call.data.value))
  }

  function FramesOf(calls: seq<Call>): (fs: seq<Frame>)
    ensures |fs| == |calls| && forall i :: 0 <= i < |calls| ==> fs[i] == FrameOf(calls[i])
  {
    seq(|calls|, i requires 0 <= i < |calls| => FrameOf(calls[i]))
  }

  /** The claim that the normalizer makes of a transaction and its frames. */
  function ClaimOf(tx: Tx, frames: seq<RawFrame>): Claim {
    Claim(Lower(tx.from), Lower(tx.to), Lower(tx.input), Uint(Value(tx.gasUsed)), tx.gas, FramesOf(Flat(TreesOf(frames), 0)))
  }

  /** No frame of the forest reports more gas than this. */
  predicate GasWithin(fs: seq<RawFrame>, gas: nat)
    decreases fs
  {
    fs == [] || (Value(fs[0].gasUsed) <= gas && GasWithin(fs[0].calls, gas) && GasWithin(fs[1..], gas))
  }

  /** The outermost frames agree with the transaction. */
  ghost predicate RootsMatch(fs: seq<RawFrame>, tx: Tx) {
    forall i :: 0 <= i < |fs| ==>
      Matches(fs[i].from, tx.from) && Matches(fs[i].to, tx.to)
      && SameSelector(Or(fs[i].input, fs[i].calldata, "0x"), tx.input)
  }

  predicate RootCall(c: CallInfo, tx: Tx) {
    Matches(c.from, Lower(tx.from)) && Matches(c.to, Lower(tx.to)) && SameSelector(c.calldata, Lower(tx.input))
  }

  lemma MatchesLower(a: string, b: string)
    ensures Matches(Lower(a), Lower(b)) <==> Matches(a, b)
    ensures SameSelector(Lower(a), Lower(b)) <==> SameSelector(a, b)
  {
    LowerTwice(a);
    LowerTwice(b);
    if |a| >= 10 && |b| >= 10 {
      assert Lower(a)[..10] == Lower(a[..10]) && Lower(b)[..10] == Lower(b[..10]);
      LowerTwice(a[..10]);
      LowerTwice(b[..10]);
    }
  }

  lemma RootCallOfInfo(f: RawFrame, tx: Tx)
    ensures RootCall(Info(f), tx) <==>
              Matches(f.from, tx.from) && Matches(f.to, tx.to) && SameSelector(Or(f.input, f.calldata, "0x"), tx.input)
  {
    MatchesLower(f.from, tx.from);
    MatchesLower(f.to, tx.to);
    MatchesLower(Or(f.input, f.calldata, "0x"), tx.input);
  }

  /** What the flattened list says of each call, against what the forest says of each frame. */
  ghost predicate CallsFit(s: seq<Call>, d: nat, tx: Tx, gas: nat, roots: bool) {
    forall i :: 0 <= i < |s| ==> s[i].data.gasUsed <= gas && (roots && s[i].depth == d ==> RootCall(s[i].data, tx))
  }

  lemma CallsFitJoin(a: seq<Call>, b: seq<Call>, d: nat, tx: Tx, gas: nat, roots: bool)
    ensures CallsFit(a + b, d, tx, gas, roots) <==> CallsFit(a, d, tx, gas, roots) && CallsFit(b, d, tx, gas, roots)
  {
    var s := a + b;
    if CallsFit(s, d, tx, gas, roots) {
      forall i | 0 <= i < |a| ensures a[i] == s[i] {}
      forall i | 0 <= i < |b| ensures b[i] == s[|a| + i] {}
    }
  }

  /** Calls strictly below a level are not roots of that level. */
  lemma CallsFitBelow(s: seq<Call>, d: nat, tx: Tx, gas: nat)
    requires Legal(s, d + 1)
    ensures CallsFit(s, d, tx, gas, true) <==> CallsFit(s, d + 1, tx, gas, false)
  {
  }

  lemma {:induction false} FitIff(fs: seq<RawFrame>, d: nat, tx: Tx, gas: nat, roots: bool)
    ensures CallsFit(Flat(TreesOf(fs), d), d, tx, gas, roots) <==> GasWithin(fs, gas) && (roots ==> RootsMatch(fs, tx))
    decreases fs
  {
    if fs != [] {
      FlatParts(fs, d);
      var head, a, b := [Item(d, Info(fs[0]))], Flat(TreesOf(fs[0].calls), d + 1), Flat(TreesOf(fs[1..]), d);
      CallsFitJoin(head + a, b, d, tx, gas, roots);
      CallsFitJoin(head, a, d, tx, gas, roots);
      FlatLegal(TreesOf(fs[0].calls), d + 1);
      CallsFitBelow(a, d, tx, gas);
      FitIff(fs[0].calls, d + 1, tx, gas, false);
      FitIff(fs[1..], d, tx, gas, roots);
      RootCallOfInfo(fs[0], tx);
      HeadFits(head[0], d, tx, gas, roots);
      RootsSplit(fs, tx);
    }
  }

  lemma HeadFits(call: Call, d: nat, tx: Tx, gas: nat, roots: bool)
    requires call.depth == d
    ensures CallsFit([call], d, tx, gas, roots) <==> call.data.gasUsed <= gas && (roots ==> RootCall(call.data, tx))
  {
    assert CallsFit([call], d, tx, gas, roots) ==> [call][0] == call;
  }

  lemma RootsSplit(fs: seq<RawFrame>, tx: Tx)
    requires fs != []
    ensures RootsMatch(fs, tx) <==> RootCall(Info(fs[0]), tx) && RootsMatch(fs[1..], tx)
  {
    RootCallOfInfo(fs[0], tx);
    if RootsMatch(fs[1..], tx) {
      assert forall i :: 0 < i < |fs| ==> fs[i] == fs[1..][i - 1];
    }
  }

  lemma SoundIffFit(c: Claim, s: seq<Call>, tx: Tx)
    requires c.gasUsed.Uint? && c.calls == FramesOf(s)
    requires c.from == Lower(tx.from) && c.to == Lower(tx.to) && c.calldata == Lower(tx.input)
    ensures AllSound(c) <==> CallsFit(s, 0, tx, c.gasUsed.value, true)
  {
    forall i | 0 <= i < |s|
      ensures SoundFrame(c, c.calls[i]) <==>
                s[i].data.gasUsed <= c.gasUsed.value && (s[i].depth == 0 ==> RootCall(s[i].data, tx))
    {
      assert c.calls[i] == FrameOf(s[i]);
    }
  }

  lemma FlattenedLegal(s: seq<Call>)
    requires Legal(s, 0)
    ensures Legal(ItemsOf(FramesOf(s)), 0)
  {
    var items := ItemsOf(FramesOf(s));
    assert forall i :: 0 <= i < |s| ==> items[i].depth == s[i].depth;
  }

  /** The plan of a flattened trace is valid exactly when the outermost frames agree with the
      transaction, no frame reports more gas than it, and its gas is within its limit if it has one.
      The shape of the call tree is never at fault. */
  lemma FlattenedValidIff(tx: Tx, frames: seq<RawFrame>)
    requires !tx.gas.Malformed? && !tx.gasUsed.Malformed? && Readable(frames)
    ensures Errors(ClaimOf(tx, frames)) == [] <==>
              && RootsMatch(frames, tx) && GasWithin(frames, Value(tx.gasUsed))
              && (tx.gas.Uint? ==> Value(tx.gasUsed) <= tx.gas.value)
  {
    var c, s := ClaimOf(tx, frames), Flat(TreesOf(frames), 0);
    ErrorFreeIffCoherent(c);
    FlatLegal(TreesOf(frames), 0);
    FlattenedLegal(s);
    FitIff(frames, 0, tx, Value(tx.gasUsed), true);
    SoundIffFit(c, s, tx);
  }

  // ---------------------------------------------------------------------------------------------
  // Gas of nested frames
  // ---------------------------------------------------------------------------------------------

  ghost predicate NoneAbove(fs: seq<RawFrame>, gas: nat) {
    forall i :: 0 <= i < |fs| ==> Value(fs[i].gasUsed) <= gas
  }

  /** No frame reports more gas than the frame that called it. */
  ghost predicate GasNested(fs: seq<RawFrame>)
    decreases fs
  {
    fs == [] || (NoneAbove(fs[0].calls, Value(fs[0].gasUsed)) && GasNested(fs[0].calls) && GasNested(fs[1..]))
  }

  lemma {:induction false} WithinIsBelow(fs: seq<RawFrame>, gas: nat)
    requires GasWithin(fs, gas)
    ensures NoneAbove(fs, gas)
  {
    if fs != [] {
      WithinIsBelow(fs[1..], gas);
      assert forall i :: 0 < i < |fs| ==> fs[i] == fs[1..][i - 1];
    }
  }

  lemma {:induction false} NoGasIsNested(fs: seq<RawFrame>)
    requires GasWithin(fs, 0)
    ensures GasNested(fs)
    decreases fs
  {
    if fs != [] {
      WithinIsBelow(fs[0].calls, 0);
      NoGasIsNested(fs[0].calls);
      NoGasIsNested(fs[1..]);
    }
  }

  function Reporting(gas: nat, calls: seq<RawFrame>): RawFrame {
    RawFrame("", "", Missing, "", "", "", "", false, Uint(gas), Missing, calls)
  }

  /** A frame that reports no gas and calls one that reports all of it. */
  function ChildTakesAll(gas: nat): seq<RawFrame> {
    [Reporting(0, [Reporting(gas, [])])]
  }

  lemma ChildTakesAllAccepted(tx: Tx)
    requires !tx.gas.Malformed? && tx.gasUsed.Uint? && (tx.gas.Uint? ==> tx.gasUsed.value <= tx.gas.value)
    ensures Readable(ChildTakesAll(tx.gasUsed.value))
    ensures Errors(ClaimOf(tx, ChildTakesAll(tx.gasUsed.value))) == []
    ensures tx.gasUsed.value > 0 ==> !GasNested(ChildTakesAll(tx.gasUsed.value))
  {
    var gas := tx.gasUsed.value;
    var leaf := Reporting(gas, []);
    var fs := ChildTakesAll(gas);
    assert fs[0].calls == [leaf] && [leaf][1..] == [] && fs[1..] == [];
    assert GasWithin([leaf], gas) && Readable([leaf]);
    FlattenedValidIff(tx, fs);
    assert Value([leaf][0].gasUsed) == gas;
  }

  /** With transaction gas 1 the plan accepts a root that reports 0 and a child that reports 1. */
  lemma ChildAboveParentAccepted()
    ensures var tx := Tx("", "", "", Missing, Uint(1));
            Errors(ClaimOf(tx, ChildTakesAll(1))) == [] && !GasNested(ChildTakesAll(1))
  {
    ChildTakesAllAccepted(Tx("", "", "", Missing, Uint(1)));
  }

  /** All valid plans of a transaction keep nested gas within the caller's exactly when it used no gas
      or exceeds its own limit, so that there are none. */
  lemma NestedGasIff(tx: Tx)
    requires !tx.gas.Malformed? && !tx.gasUsed.Malformed?
    ensures (forall frames | Readable(frames) && Errors(ClaimOf(tx, frames)) == [] :: GasNested(frames))
            <==> Value(tx.gasUsed) == 0 || (tx.gas.Uint? && tx.gas.value < Value(tx.gasUsed))
  {
    if Value(tx.gasUsed) == 0 || (tx.gas.Uint? && tx.gas.value < Value(tx.gasUsed)) {
      forall frames | Readable(frames) && Errors(ClaimOf(tx, frames)) == [] ensures GasNested(frames) {
        FlattenedValidIff(tx, frames);
        NoGasIsNested(frames);
      }
    } else {
      ChildTakesAllAccepted(tx);
    }
  }

  // ---------------------------------------------------------------------------------------------
  // What each error means
  // ---------------------------------------------------------------------------------------------

  /** Frame i can be read and is at depth d; a missing depth is zero. */
  predicate AtDepth(f: Frame, d: nat) {
    f.Frame? && (f.depth == Uint(d) || (f.depth == Missing && d == 0))
  }

  /** The depth of the last readable frame before frame n is p. */
  ghost predicate After(c: Claim, n: nat, p: nat)
    requires n <= |c.calls|
  {
    exists k: nat :: LastReadable(c, k, n, p)
  }

  /** Frame k is at depth p, and no frame between it and frame n can be read. */
  ghost predicate LastReadable(c: Claim, k: nat, n: nat, p: nat)
    requires n <= |c.calls|
  {
    k < n && AtDepth(c.calls[k], p) && forall m, d :: k < m < n ==> !AtDepth(c.calls[m], d)
  }

  lemma {:induction false} PrevMeans(c: Claim, n: nat, p: nat)
    requires n <= |c.calls|
    ensures Prev(c, n) == Some(p) <==> After(c, n, p)
  {
    if n > 0 {
      PrevMeans(c, n - 1, p);
      var f := c.calls[n - 1];
      if DepthOfFrame(f).Some? {
        LastIs(c, n, p, DepthOfFrame(f).value);
      } else {
        StillAfter(c, n, n - 1, p);
      }
    }
  }

  lemma LastIs(c: Claim, n: nat, p: nat, q: nat)
    requires 0 < n <= |c.calls| && DepthOfFrame(c.calls[n - 1]) == Some(q)
    ensures After(c, n, p) <==> q == p
  {
    if q == p { assert LastReadable(c, n - 1, n, p); }
    if k: nat :| LastReadable(c, k, n, p) { LastPlace(c, k, n, n - 1, p, q); }
  }

  lemma LastPlace(c: Claim, k: nat, n: nat, m: nat, p: nat, q: nat)
    requires m < n <= |c.calls| && k <= m && DepthOfFrame(c.calls[m]) == Some(q) && LastReadable(c, k, n, p)
    ensures k == m && q == p
  {
    assert AtDepth(c.calls[m], q);
  }

  lemma StillAfter(c: Claim, n: nat, m: nat, p: nat)
    requires n == m + 1 <= |c.calls| && DepthOfFrame(c.calls[m]).None?
    ensures After(c, n, p) <==> After(c, m, p)
  {
    if k: nat :| LastReadable(c, k, n, p) { StillLast(c, k, n, m, p); }
    if k: nat :| LastReadable(c, k, m, p) { StillLast(c, k, n, m, p); }
  }

  lemma StillLast(c: Claim, k: nat, n: nat, m: nat, p: nat)
    requires n == m + 1 <= |c.calls| && DepthOfFrame(c.calls[m]).None?
    ensures LastReadable(c, k, n, p) <==> LastReadable(c, k, m, p)
  {
    forall d ensures !AtDepth(c.calls[m], d) {}
  }

  function DepthOfFrame(f: Frame): Option<nat> {
    if f.Junk? then None else DepthOf(f.depth)
  }

  /** A list starts at depth zero and goes down one level at a time. */
  predicate DepthFault(i: nat, f: Frame, prev: Option<nat>, e: Error) {
    || (e.NoRoot? && AtDepth(f, e.depth) && prev == None && e.depth != 0)
    || (e.DepthJump? && e.i == i && AtDepth(f, e.depth) && prev == Some(e.after) && e.depth > e.after + 1)
  }

  predicate FieldFault(i: nat, f: Frame, e: Error)
    requires f.Frame?
  {
    (e == BadGas(i) && !f.gasUsed.Uint?) || (e == BadValue(i) && !f.value.Uint?)
  }

  /** A frame at depth zero makes the call of the transaction, as far as both sides say something. */
  predicate RootFault(c: Claim, f: Frame, e: Error)
    requires f.Frame?
  {
    || (e.RootFrom? && f.from != "" && c.from != "" && e.from == Lower(f.from) && e.from != Lower(c.from))
    || (e.RootTo? && f.to != "" && c.to != "" && e.to == Lower(f.to) && e.to != Lower(c.to))
    || (e.RootSelector? && |f.calldata| >= 10 && |c.calldata| >= 10
        && e.selector == Lower(f.calldata[..10]) && e.selector != Lower(c.calldata[..10]))
  }

  predicate GasFault(c: Claim, i: nat, f: Frame, e: Error)
    requires f.Frame?
  {
    e == GasOverTx(i) && f.gasUsed.Uint? && c.gasUsed.Uint? && f.gasUsed.value > c.gasUsed.value
  }

  /** What the errors say of frame i, which comes after a frame of depth prev or first. */
  predicate Fault(c: Claim, i: nat, f: Frame, prev: Option<nat>, e: Error) {
    if f.Junk? then e == NotObject(i)
    else if f.depth == Malformed then e == BadDepth(i)
    else DepthFault(i, f, prev, e) || FieldFault(i, f, e) || (AtDepth(f, 0) && RootFault(c, f, e)) || GasFault(c, i, f, e)
  }

  lemma SelectorIs(s: string)
    ensures SelectorOf(s) == if |s| >= 10 then Some(Lower(s[..10])) else None
  {
    if |s| >= 10 { assert Lower(s)[..10] == Lower(s[..10]); }
  }

  lemma RootFaultIff(c: Claim, f: Frame, e: Error)
    requires f.Frame?
    ensures e in RootErrors(c, f) <==> RootFault(c, f, e)
  {
    SelectorIs(f.calldata);
    SelectorIs(c.calldata);
  }

  lemma OtherFaultIff(c: Claim, i: nat, f: Frame, d: nat, prev: Option<nat>, e: Error)
    requires f.Frame? && DepthOf(f.depth) == Some(d)
    ensures e in DepthErrors(i, d, prev) <==> DepthFault(i, f, prev, e)
    ensures e in FieldErrors(i, f) <==> FieldFault(i, f, e)
    ensures e in GasErrors(c, i, f) <==> GasFault(c, i, f, e)
    ensures AtDepth(f, 0) <==> d == 0
  {
  }

  lemma InFour<T>(a: seq<T>, b: seq<T>, c: seq<T>, d: seq<T>, x: T)
    ensures x in a + b + c + d <==> x in a || x in b || x in c || x in d
  {
  }

  lemma FaultIff(c: Claim, i: nat, f: Frame, prev: Option<nat>, e: Error)
    ensures e in FrameErrors(c, i, f, prev) <==> Fault(c, i, f, prev, e)
  {
    if f.Frame? && DepthOf(f.depth).Some? {
      var d := DepthOf(f.depth).value;
      RootFaultIff(c, f, e);
      OtherFaultIff(c, i, f, d, prev, e);
      InFour(DepthErrors(i, d, prev), FieldErrors(i, f), if d == 0 then RootErrors(c, f) else [], GasErrors(c, i, f), e);
    }
  }

  lemma {:induction false} InConcat<T>(ss: seq<seq<T>>, x: T)
    ensures x in Concat(ss) <==> exists i :: 0 <= i < |ss| && x in ss[i]
  {
    if ss != [] { InConcat(ss[..|ss| - 1], x); }
  }

  /** Each error is reported exactly when what it says is so. */
  lemma ErrorMeans(c: Claim, e: Error)
    ensures e in Errors(c) <==>
              || (e == BadTxGas && !c.gasUsed.Uint?)
              || (e == GasOverLimit && c.gasUsed.Uint? && c.gasLimit.Uint? && c.gasUsed.value > c.gasLimit.value)
              || exists i :: 0 <= i < |c.calls| && Fault(c, i, c.calls[i], Prev(c, i), e)
  {
    var rs := Reports(c, |c.calls|);
    InConcat(rs, e);
    forall i | 0 <= i < |rs| ensures e in rs[i] <==> Fault(c, i, c.calls[i], Prev(c, i), e) {
      FaultIff(c, i, c.calls[i], Prev(c, i), e);
    }
    assert e in HeaderErrors(c) <==>
             || (e == BadTxGas && !c.gasUsed.Uint?)
             || (e == GasOverLimit && c.gasUsed.Uint? && c.gasLimit.Uint? && c.gasUsed.value > c.gasLimit.value);
  }
}
