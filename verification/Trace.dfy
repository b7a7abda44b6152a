/** The trace normalizer: call frames of a tracer, flattened into a list of calls with depths. */
module Trace {
  import opened Forest
  import opened LowerCase

  datatype Option<+T> = None | Some(value: T)

  /** An integer field as the tracer reports it. Missing stands for every falsy value, Malformed for
      what is not an unsigned 256-bit integer. */
  datatype Num = Missing | Malformed | Uint(value: nat)

  datatype RawFrame = RawFrame(
    from: string, to: string, value: Num, input: string, calldata: string, output: string, returnData: string,
    error: bool, gasUsed: Num, gasLimit: Num, calls: seq<RawFrame>)

  datatype Status = SUCCESS | REVERT

  datatype CallInfo = CallInfo(
    from: string, to: string, value: nat, calldata: string, returnData: string,
    status: Status, gasUsed: nat, gasLimit: Option<nat>)

  /** A call of the normalized trace: its depth and the rest. */
  type Call = Item<CallInfo>

  /** What the tracer returns: nothing, one frame, or a list of them. */
  datatype Raw = NoTrace | Single(frame: RawFrame) | Many(frames: seq<RawFrame>)

  function Or(a: string, b: string, c: string): string {
    if a != "" then a else if b != "" then b else c
  }

  function Value(n: Num): nat {
    if n.Uint? then n.value else 0
  }

  function Info(f: RawFrame): CallInfo {
    CallInfo(Lower(f.from), Lower(f.to), Value(f.value), Lower(Or(f.input, f.calldata, "0x")),
             Lower(Or(f.output, f.returnData, "0x")), if f.error then REVERT else SUCCESS, Value(f.gasUsed),
             if f.gasLimit == Missing then None else Some(Value(f.gasLimit)))
  }

  predicate ReadableFields(f: RawFrame) {
    !f.value.Malformed? && !f.gasUsed.Malformed? && !f.gasLimit.Malformed?
  }

  /** No integer field anywhere in the frames is malformed. */
  predicate Readable(fs: seq<RawFrame>)
    decreases fs
  {
    fs == [] || (ReadableFields(fs[0]) && Readable(fs[0].calls) && Readable(fs[1..]))
  }

  /** The call forest that the frames describe. */
  function TreesOf(fs: seq<RawFrame>): seq<Tree<CallInfo>>
    decreases fs
  {
    if fs == [] then [] else [Node(Info(fs[0]), TreesOf(fs[0].calls))] + TreesOf(fs[1..])
  }

  function Roots(raw: Raw): seq<RawFrame> {
    match raw
    case NoTrace => []
    case Single(frame) => [frame]
    case Many(frames) => frames
  }

  // ---------------------------------------------------------------------------------------------
  // Flattening
  // ---------------------------------------------------------------------------------------------

  class Normalizer {
    var calls: seq<Call>

    constructor ()
      ensures calls == []
    {
      calls := [];
    }

    /** Push the frame's call, then those of its children. Stops at a malformed integer. */
    method Flatten(frame: RawFrame, depth: nat) returns (ok: bool)
      modifies this
      ensures ok <==> Readable([frame])
      ensures ok ==> calls == old(calls) + Flat(TreesOf([frame]), depth)
      decreases frame
    {
      FlatOne(frame, depth);
      if frame.value.Malformed? || frame.gasUsed.Malformed? || frame.gasLimit.Malformed? { return false; }
      calls := calls + [Item(depth, Info(frame))];
      ok := FlattenAll(frame.calls, depth + 1);
    }

    method FlattenAll(frames: seq<RawFrame>, depth: nat) returns (ok: bool)
      modifies this
      ensures ok <==> Readable(frames)
      ensures ok ==> calls == old(calls) + Flat(TreesOf(frames), depth)
      decreases frames
    {
      ghost var before := calls;
      ghost var parts := Parts(frames, depth);
      for i := 0 to |frames|
        invariant calls == before + parts[i]
        invariant forall k :: 0 <= k < i ==> Readable([frames[k]])
      {
        ghost var part := Flat(TreesOf([frames[i]]), depth);
        var one := Flatten(frames[i], depth);
        if !one {
          NotReadable(frames, i);
          return false;
        }
        assert parts[i + 1] == parts[i] + part;
        assert before + (parts[i] + part) == before + parts[i] + part;
      }
      ReadableIff(frames);
      return true;
    }
  }

  method NormalizeCalls(raw: Raw) returns (calls: Option<seq<Call>>)
    ensures calls == if Readable(Roots(raw)) then Some(Flat(TreesOf(Roots(raw)), 0)) else None
  {
    if raw.NoTrace? { return Some([]); }
    var n := new Normalizer();
    var ok;
    if raw.Many? {
      ok := n.FlattenAll(raw.frames, 0);
    } else {
      ok := n.Flatten(raw.frame, 0);
    }
    assert [] + Flat(TreesOf(Roots(raw)), 0) == Flat(TreesOf(Roots(raw)), 0);
    return if ok then Some(n.calls) else None;
  }

  lemma FlatOne(f: RawFrame, d: nat)
    ensures Flat(TreesOf([f]), d) == [Item(d, Info(f))] + Flat(TreesOf(f.calls), d + 1)
    ensures Readable([f]) <==> ReadableFields(f) && Readable(f.calls)
  {
    var t := Node(Info(f), TreesOf(f.calls));
    assert [f][1..] == [];
    assert TreesOf([f]) == [t] && [t][1..] == [];
    assert Flat([t], d) == [Item(d, Info(f))] + Flat(TreesOf(f.calls), d + 1) + Flat([t][1..], d);
  }

  lemma {:induction false} FlatJoin<T>(a: seq<Tree<T>>, b: seq<Tree<T>>, d: nat)
    ensures Flat(a + b, d) == Flat(a, d) + Flat(b, d)
  {
    if a == [] {
      assert a + b == b;
    } else {
      assert (a + b)[1..] == a[1..] + b && (a + b)[0] == a[0];
      FlatJoin(a[1..], b, d);
    }
  }

  lemma {:induction false} TreesJoin(a: seq<RawFrame>, b: seq<RawFrame>)
    ensures TreesOf(a + b) == TreesOf(a) + TreesOf(b)
  {
    if a == [] {
      assert a + b == b;
    } else {
      assert (a + b)[1..] == a[1..] + b && (a + b)[0] == a[0];
      TreesJoin(a[1..], b);
    }
  }

  lemma {:induction false} ReadableJoin(a: seq<RawFrame>, b: seq<RawFrame>)
    ensures Readable(a + b) <==> Readable(a) && Readable(b)
  {
    if a == [] {
      assert a + b == b;
    } else {
      assert (a + b)[1..] == a[1..] + b && (a + b)[0] == a[0];
      ReadableJoin(a[1..], b);
    }
  }

  lemma FlatPush(fs: seq<RawFrame>, f: RawFrame, d: nat)
    ensures Flat(TreesOf(fs + [f]), d) == Flat(TreesOf(fs), d) + Flat(TreesOf([f]), d)
    ensures Readable(fs + [f]) <==> Readable(fs) && Readable([f])
  {
    TreesJoin(fs, [f]);
    FlatJoin(TreesOf(fs), TreesOf([f]), d);
    ReadableJoin(fs, [f]);
  }

  /** parts[i] are the calls of the first i frames. */
  ghost predicate ArePartsOf(parts: seq<seq<Call>>, fs: seq<RawFrame>, d: nat) {
    && |parts| == |fs| + 1 && parts[0] == [] && parts[|fs|] == Flat(TreesOf(fs), d)
    && forall i :: 0 <= i < |fs| ==> parts[i + 1] == parts[i] + Flat(TreesOf([fs[i]]), d)
  }

  lemma PartsPush(parts: seq<seq<Call>>, fs: seq<RawFrame>, f: RawFrame, d: nat)
    requires ArePartsOf(parts, fs, d)
    ensures ArePartsOf(parts + [Flat(TreesOf(fs + [f]), d)], fs + [f], d)
  {
    FlatPush(fs, f, d);
    var more, gs := parts + [Flat(TreesOf(fs + [f]), d)], fs + [f];
    forall i | 0 <= i < |gs| ensures more[i + 1] == more[i] + Flat(TreesOf([gs[i]]), d) {
      if i < |fs| { assert more[i + 1] == parts[i + 1] && gs[i] == fs[i]; }
    }
  }

  lemma {:induction false} Parts(fs: seq<RawFrame>, d: nat) returns (parts: seq<seq<Call>>)
    ensures ArePartsOf(parts, fs, d)
    decreases |fs|
  {
    if fs == [] {
      parts := [[]];
    } else {
      var n := |fs| - 1;
      var front := Parts(fs[..n], d);
      PartsPush(front, fs[..n], fs[n], d);
      parts := front + [Flat(TreesOf(fs), d)];
      assert fs == fs[..n] + [fs[n]];
    }
  }

  lemma NotReadable(fs: seq<RawFrame>, k: nat)
    requires k < |fs| && !Readable([fs[k]])
    ensures !Readable(fs)
  {
    ReadableIff(fs);
  }

  lemma {:induction false} ReadableIff(fs: seq<RawFrame>)
    ensures Readable(fs) <==> forall k :: 0 <= k < |fs| ==> Readable([fs[k]])
    decreases |fs|
  {
    if fs != [] {
      var n := |fs| - 1;
      var front := fs[..n];
      ReadableIff(front);
      ReadableJoin(front, [fs[n]]);
      assert fs == front + [fs[n]];
      assert forall k :: 0 <= k < n ==> front[k] == fs[k];
    }
  }

  // ---------------------------------------------------------------------------------------------
  // Which lists come out of flattening
  // ---------------------------------------------------------------------------------------------

  /** Addresses and bytes are in lower case, and byte strings are not empty. */
  predicate NormalInfo(c: CallInfo) {
    && Lower(c.from) == c.from && Lower(c.to) == c.to && Lower(c.calldata) == c.calldata && Lower(c.returnData) == c.returnData
    && c.calldata != "" && c.returnData != ""
  }

  ghost predicate NormalCalls(s: seq<Call>) {
    forall i :: 0 <= i < |s| ==> NormalInfo(s[i].data)
  }

  lemma InfoIsNormal(f: RawFrame)
    ensures NormalInfo(Info(f))
  {
    LowerTwice(f.from);
    LowerTwice(f.to);
    LowerTwice(Or(f.input, f.calldata, "0x"));
    LowerTwice(Or(f.output, f.returnData, "0x"));
  }

  lemma {:induction false} FlatIsNormal(fs: seq<RawFrame>, d: nat)
    ensures NormalCalls(Flat(TreesOf(fs), d))
    decreases fs
  {
    if fs != [] {
      InfoIsNormal(fs[0]);
      FlatIsNormal(fs[0].calls, d + 1);
      FlatIsNormal(fs[1..], d);
      FlatParts(fs, d);
    }
  }

  lemma FlatParts(fs: seq<RawFrame>, d: nat)
    requires fs != []
    ensures Flat(TreesOf(fs), d) == [Item(d, Info(fs[0]))] + Flat(TreesOf(fs[0].calls), d + 1) + Flat(TreesOf(fs[1..]), d)
  {
    assert TreesOf(fs)[1..] == TreesOf(fs[1..]);
  }

  /** Frames that describe a given forest. */
  function FramesFor(ts: seq<Tree<CallInfo>>): seq<RawFrame>
    decreases ts
  {
    if ts == [] then []
    else
      var c := ts[0].data;
      [RawFrame(c.from, c.to, Uint(c.value), c.calldata, "", c.returnData, "", c.status == REVERT, Uint(c.gasUsed),
                if c.gasLimit.Some? then Uint(c.gasLimit.value) else Missing, FramesFor(ts[0].kids))]
      + FramesFor(ts[1..])
  }

  lemma {:induction false} FramesForForest(ts: seq<Tree<CallInfo>>, d: nat)
    requires NormalCalls(Flat(ts, d))
    ensures Readable(FramesFor(ts)) && TreesOf(FramesFor(ts)) == ts
    decreases ts
  {
    if ts != [] {
      var s, a, b := Flat(ts, d), Flat(ts[0].kids, d + 1), Flat(ts[1..], d);
      assert s == [Item(d, ts[0].data)] + a + b;
      assert NormalInfo(s[0].data);
      assert NormalCalls(a) by { assert forall i :: 0 <= i < |a| ==> a[i] == s[i + 1]; }
      assert NormalCalls(b) by { assert forall i :: 0 <= i < |b| ==> b[i] == s[i + 1 + |a|]; }
      FramesForForest(ts[0].kids, d + 1);
      FramesForForest(ts[1..], d);
      var fs := FramesFor(ts);
      assert fs[1..] == FramesFor(ts[1..]) && fs[0].calls == FramesFor(ts[0].kids);
      assert Info(fs[0]) == ts[0].data;
      assert ts == [Node(ts[0].data, ts[0].kids)] + ts[1..];
    }
  }

  /** The lists that flattening produces are exactly the lists of normalized calls that obey the
      depth rule. */
  lemma FlattenedIffLegal(s: seq<Call>)
    ensures (exists fs: seq<RawFrame> :: Readable(fs) && Flat(TreesOf(fs), 0) == s) <==> Legal(s, 0) && NormalCalls(s)
  {
    forall fs: seq<RawFrame> | Flat(TreesOf(fs), 0) == s ensures Legal(s, 0) && NormalCalls(s) {
      FlatLegal(TreesOf(fs), 0);
      FlatIsNormal(fs, 0);
    }
    if Legal(s, 0) && NormalCalls(s) {
      var ts := Build(s, 0);
      FlatOfBuild(s, 0);
      FramesForForest(ts, 0);
      assert Flat(TreesOf(FramesFor(ts)), 0) == s;
    }
  }

  /** Where a normalized call comes from: addresses and data in lower case, what is missing replaced, and
      REVERT exactly for a frame with an error. */
  lemma CallMeans(f: RawFrame, rest: seq<RawFrame>, d: nat)
    ensures var calls := Flat(TreesOf([f] + rest), d);
            && |calls| > 0 && calls[0].depth == d
            && var c := calls[0].data;
               && c.from == Lower(f.from) && c.to == Lower(f.to)
               && c.value == (if f.value.Uint? then f.value.value else 0)
               && c.calldata == Lower(if f.input != "" then f.input else if f.calldata != "" then f.calldata else "0x")
               && c.returnData == Lower(if f.output != "" then f.output else if f.returnData != "" then f.returnData else "0x")
               && (c.status == REVERT <==> f.error)
               && c.gasUsed == (if f.gasUsed.Uint? then f.gasUsed.value else 0)
               && (c.gasLimit.None? <==> f.gasLimit.Missing?)
               && (f.gasLimit.Uint? ==> c.gasLimit == Some(f.gasLimit.value))
  {
    assert ([f] + rest)[0] == f;
    FlatParts([f] + rest, d);
  }
}
