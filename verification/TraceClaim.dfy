/** The claim that a trace in JSON makes to the replay check. */
module TraceClaim {
  import opened Json
  import opened Fields
  import T = Trace
  import R = Replay
  import F = Forest

  /** An integer field of a trace. Only numbers and texts can denote an unsigned integer. */
  function NumOf(co: Coercions, v: Option<Value>): T.Num {
    match v
    case None => T.Missing
    case Some(Null) => T.Missing
    case Some(Num(x)) => if IsSafe(x) && x.r.Floor >= 0 then T.Uint(x.r.Floor) else T.Malformed
    case Some(Str(s)) => (match co.uint(s) case Some(n) => T.Uint(n) case None => T.Malformed)
    case Some(_) => T.Malformed
  }

  /** An entry of the call list. A list counts as an object without fields. */
  function FrameOf(co: Coercions, v: Value): R.Frame {
    if !v.Obj? && !v.Arr? then R.Junk
    else
      R.Frame(NumOf(co, Field(v, "depth")), TextOr(co, Field(v, "from")), TextOr(co, Field(v, "to")),
              TextOr(co, Field(v, "calldata")), NumOf(co, Field(v, "gasUsed")), NumOf(co, Field(v, "value")))
  }

  function FramesOf(co: Coercions, v: Option<Value>): seq<R.Frame> {
    if v.Some? && v.value.Arr? then seq(|v.value.elems|, i requires 0 <= i < |v.value.elems| => FrameOf(co, v.value.elems[i]))
    else []
  }

  /** The claim of a trace; None for what is not an object. */
  function ClaimOf(co: Coercions, trace: Value): T.Option<R.Claim> {
    if !trace.Obj? && !trace.Arr? then T.None
    else
      T.Some(R.Claim(
        TextOr(co, Field(trace, "from")), TextOr(co, Field(trace, "to")), TextOr(co, Field(trace, "calldata")),
        NumOf(co, Field(trace, "gasUsed")), NumOf(co, Field(trace, "gasLimit")), FramesOf(co, Field(trace, "calls"))))
  }

  /** The replay plan of the trace has no errors. */
  predicate PlanValid(co: Coercions, trace: Value) {
    ClaimOf(co, trace).Some? && R.Errors(ClaimOf(co, trace).value) == []
  }

  /** The calls of the trace are the preorder of this forest. */
  ghost predicate Describes(ts: seq<F.Tree<R.Frame>>, c: R.Claim) {
    R.Coherent(c) && F.Flat(ts, 0) == R.ItemsOf(c.calls)
  }

  /** A valid plan describes exactly one call forest. */
  lemma ValidPlanIsOneForest(co: Coercions, trace: Value) returns (ts: seq<F.Tree<R.Frame>>)
    requires PlanValid(co, trace)
    ensures Describes(ts, ClaimOf(co, trace).value)
    ensures forall us :: Describes(us, ClaimOf(co, trace).value) ==> us == ts
  {
    R.ErrorFreeIffCoherent(ClaimOf(co, trace).value);
    ts := R.CoherentIsOneForest(ClaimOf(co, trace).value);
  }

  /** Where the claim comes from: the fields of the trace and of the entries of its call list, under these names. */
  lemma ClaimMeans(co: Coercions, trace: Value, calls: seq<Value>, i: nat)
    requires trace.Obj? && Field(trace, "calls") == Some(Arr(calls)) && i < |calls| && calls[i].Obj?
    ensures var c := ClaimOf(co, trace);
            && c.Some? && |c.value.calls| == |calls| && c.value.calls[i].Frame?
            && c.value.from == TextOr(co, Field(trace, "from")) && c.value.to == TextOr(co, Field(trace, "to"))
            && c.value.calldata == TextOr(co, Field(trace, "calldata"))
            && c.value.gasUsed == NumOf(co, Field(trace, "gasUsed")) && c.value.gasLimit == NumOf(co, Field(trace, "gasLimit"))
            && var f := c.value.calls[i];
               && f.depth == NumOf(co, Field(calls[i], "depth")) && f.from == TextOr(co, Field(calls[i], "from"))
               && f.to == TextOr(co, Field(calls[i], "to")) && f.calldata == TextOr(co, Field(calls[i], "calldata"))
               && f.gasUsed == NumOf(co, Field(calls[i], "gasUsed")) && f.value == NumOf(co, Field(calls[i], "value"))
  {
  }

  /** A safe natural number is itself; nothing and null are missing. */
  lemma NumMeans(co: Coercions, n: int)
    ensures NumOf(co, None) == T.Missing && NumOf(co, Some(Null)) == T.Missing
    ensures NumOf(co, Some(Num(Fin(n as real)))) == if 0 <= n <= 9007199254740991 then T.Uint(n) else T.Malformed
  {
  }
}
