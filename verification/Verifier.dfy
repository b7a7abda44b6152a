/** The receipt verifier: which checks run, what they add up to, and what a VERIFIED receipt binds. */
module Verifier {
  import opened Json
  import opened JsonParse
  import opened JsonRoundTrip
  import opened Canonical
  import opened Commitment
  import opened Fields
  import opened TraceClaim
  import F = Forest
  import R = Replay
  import T = Trace

  datatype Name =
    | RECEIPT_COMMITMENT | INTENT_HASH | POLICY_HASH | TRACE_HASH | EVIDENCE_COMMITMENT | STATE_DELTA_CANONICAL
    | POLICY_EVAL | SIGNER_AUTHENTICATION | REPLAY_CONSISTENCY | TRACE_AVAILABILITY | INTENT_EXECUTION_BINDING
    | STATE_PINNING

  datatype Outcome = PASS | FAIL | NOT_RUN
  datatype Check = Check(name: Name, result: Outcome)

  datatype VerdictKind = VERIFIED | INVALID | UNVERIFIED | INCONCLUSIVE
  datatype Code = CONTRADICTION | LEVEL_UNAVAILABLE | UNSUPPORTED_LEVEL | MISSING_REQUIRED_EVIDENCE | RECEIPT_INTEGRITY
  datatype Verdict = Verdict(verdict: VerdictKind, code: Code, required: seq<Name>, missing: seq<Name>, failing: seq<Name>)

  // ---------------------------------------------------------------------------------------------
  // The verdict over a list of checks
  // ---------------------------------------------------------------------------------------------

  /** The checks a claimable level requires. */
  function RequiredByLevel(level: string): Option<seq<Name>> {
    if level == "L0" then Some([RECEIPT_COMMITMENT, STATE_PINNING])
    else if level == "L1" then Some([RECEIPT_COMMITMENT, STATE_PINNING, INTENT_HASH, POLICY_HASH])
    else if level == "L2" then
      Some([RECEIPT_COMMITMENT, STATE_PINNING, INTENT_HASH, POLICY_HASH, TRACE_HASH, INTENT_EXECUTION_BINDING])
    else None
  }

  predicate Unclaimable(level: string) {
    level == "L3" || level == "L4"
  }

  function Failing(checks: seq<Check>): seq<Name> {
    if checks == [] then []
    else (if checks[0].result == FAIL then [checks[0].name] else []) + Failing(checks[1..])
  }

  /** The result recorded last under a name. */
  function ResultOf(checks: seq<Check>, name: Name): Option<Outcome> {
    if checks == [] then None
    else if checks[|checks| - 1].name == name then Some(checks[|checks| - 1].result)
    else ResultOf(checks[..|checks| - 1], name)
  }

  function Missing(required: seq<Name>, checks: seq<Check>): seq<Name> {
    if required == [] then []
    else (if ResultOf(checks, required[0]) == Some(PASS) then [] else [required[0]]) + Missing(required[1..], checks)
  }

  lemma {:induction false} FailingIff(checks: seq<Check>)
    ensures Failing(checks) == [] <==> forall c :: c in checks ==> c.result != FAIL
  {
    if checks != [] {
      FailingIff(checks[1..]);
      assert checks == [checks[0]] + checks[1..];
    }
  }

  lemma {:induction false} MissingIff(required: seq<Name>, checks: seq<Check>)
    ensures Missing(required, checks) == [] <==> forall n :: n in required ==> ResultOf(checks, n) == Some(PASS)
  {
    if required != [] {
      MissingIff(required[1..], checks);
      var rest := Missing(required[1..], checks);
      assert ResultOf(checks, required[0]) == Some(PASS) ==> Missing(required, checks) == rest;
      assert forall n :: n in required <==> n == required[0] || n in required[1..];
      assert required[0] in required;
    }
  }

  /** A contradiction dominates; then an unknown level; then a gap in the evidence. VERIFIED means a
      claimable level, nothing failed, and every required check passed. */
  function EvaluateCheckVerdict(level: string, checks: seq<Check>): (v: Verdict)
    ensures v.verdict == INVALID <==> exists c :: c in checks && c.result == FAIL
    ensures v.verdict == VERIFIED <==>
              && (forall c :: c in checks ==> c.result != FAIL) && RequiredByLevel(level).Some?
              && forall n :: n in RequiredByLevel(level).value ==> ResultOf(checks, n) == Some(PASS)
    ensures v.verdict == INCONCLUSIVE <==> (forall c :: c in checks ==> c.result != FAIL) && Unclaimable(level)
  {
    FailingIff(checks);
    var required := RequiredByLevel(level);
    if Failing(checks) != [] then
      Verdict(INVALID, CONTRADICTION, if required.Some? then required.value else [], [], Failing(checks))
    else if required.None? then
      if Unclaimable(level) then Verdict(INCONCLUSIVE, LEVEL_UNAVAILABLE, [], [], [])
      else Verdict(UNVERIFIED, UNSUPPORTED_LEVEL, [], [], [])
    else
      MissingIff(required.value, checks);
      if Missing(required.value, checks) != [] then
        Verdict(UNVERIFIED, MISSING_REQUIRED_EVIDENCE, required.value, Missing(required.value, checks), [])
      else Verdict(VERIFIED, RECEIPT_INTEGRITY, required.value, [], [])
  }

  // ---------------------------------------------------------------------------------------------
  // Intent against execution
  // ---------------------------------------------------------------------------------------------

  /** The host functions and the parts of the system that are not modelled here. */
  datatype World = World(
    co: Coercions,
    sha: string -> string,
    policySatisfied: (Value, Context) -> bool,
    signatureValid: Value -> bool,
    deltaHash: Value -> string)                   // hash of the state delta recomputed from a trace
  {
    function host(): Host {
      co.host
    }
  }

  /** What the policy is evaluated over. */
  datatype Context = Context(
    value: Value, target: Value, recipient: Value, selector: string, blockTimestamp: Value,
    slippageBps: Value, gasUsed: Value, priceBps: Value)

  const TRANSFER_SELECTOR := "0xa9059cbb"
  const TRANSFER_FROM_SELECTOR := "0x23b872dd"

  /** The recipient argument of a token transfer, whose call data starts with this selector. */
  function RecipientArgument(calldata: string, selector: string): Option<string> {
    if selector == TRANSFER_SELECTOR && |calldata| >= 74 then Some("0x" + calldata[34..74])
    else if selector == TRANSFER_FROM_SELECTOR && |calldata| >= 138 then Some("0x" + calldata[98..138])
    else None
  }

  function First10(s: string): string {
    if |s| < 10 then s else s[..10]
  }

  function Or(a: string, b: string): string {
    if a != "" then a else b
  }

  /** Call data that is given must be a text. */
  predicate ContextReadable(trace: Value) {
    !Truthy(Field(trace, "calldata")) || Field(trace, "calldata").value.Str?
  }

  /** The policy context, taken from the trace. */
  function PolicyContextFromTrace(w: World, intent: Option<Value>, trace: Value): Context
    requires ContextReadable(trace)
  {
    var calldata := OrElse(Field(trace, "calldata"), Str("0x")).s;
    var selector := w.host().lower(First10(calldata));
    var i := if intent.Some? then intent.value else Null;
    Context(
      if Present(Field(trace, "value")) then Field(trace, "value").value
      else if Present(Field(i, "amount")) then Field(i, "amount").value else Str("0"),
      OrElse(Field(trace, "to"), Str("0x")),
      match RecipientArgument(calldata, selector) case Some(r) => Str(r) case None => OrElse(Field(i, "recipient"), Str("0x")),
      selector,
      OrElse(Field(trace, "blockTimestamp"), Str("0")),
      OrElse(Field(trace, "slippageBps"), Str("0")),
      OrElse(Field(trace, "gasUsed"), Str("0")),
      OrElse(Field(trace, "priceBps"), Str("10000")))
  }

  // Each comparison answers whether it holds, or None where the program throws. A side that is falsy
  // or missing is not compared.

  /** Two texts, without regard to case. */
  function Same(w: World, a: Option<Value>, b: Option<Value>): Option<bool> {
    if !Truthy(a) || !Truthy(b) then Some(true)
    else if a.value.Str? && b.value.Str? then Some(w.host().lower(a.value.s) == w.host().lower(b.value.s))
    else None
  }

  /** Only of a text can the first ten characters be compared. */
  function SelectorCheck(w: World, intent: Value, trace: Value): Option<bool> {
    var s, calldata := Field(intent, "selector"), Field(trace, "calldata");
    if !Truthy(s) || !Truthy(calldata) || !LengthReaches(w.co, calldata.value) then Some(true)
    else if s.value.Str? && calldata.value.Str? then Some(w.host().lower(s.value.s) == w.host().lower(calldata.value.s[..10]))
    else None
  }

  /** What is moved is at most the amount. */
  function AtMost(w: World, a: Value, b: Value): Option<bool> {
    match (IntOf(w.co, a), IntOf(w.co, b))
    case (Some(m), Some(n)) => Some(m <= n)
    case _ => None
  }

  function ValueCheck(w: World, intent: Value, trace: Value): Option<bool> {
    var amount, value := Field(intent, "amount"), Field(trace, "value");
    if !Truthy(amount) || !Truthy(value) then Some(true) else AtMost(w, value.value, amount.value)
  }

  /** A list has no recipient; of what is neither a text nor a list no part can be taken. */
  function RecipientCheck(w: World, intent: Value, trace: Value): Option<bool> {
    var r, calldata := Field(intent, "recipient"), Field(trace, "calldata");
    if !Truthy(r) || Field(intent, "action") != Some(Str("TRANSFER")) then Some(true)
    else if !Truthy(calldata) || LengthUnder(w.co, calldata.value) || calldata.value.Arr? then Some(true)
    else if !calldata.value.Str? then None
    else
      match RecipientArgument(calldata.value.s, calldata.value.s[..10])
      case None => Some(true)
      case Some(found) => if r.value.Str? then Some(w.host().lower(r.value.s) == w.host().lower(found)) else None
  }

  /** Numbers are compared by their decimal texts. */
  function NonceCheck(w: World, intent: Value, trace: Value): Option<bool> {
    var a, b := Field(intent, "nonce"), Field(trace, "nonce");
    if !Present(a) || !Present(b) then Some(true)
    else Some(w.host().lower(StringOf(w.co, a.value)) == w.host().lower(StringOf(w.co, b.value)))
  }

  /** An end of the validity window that is not given is open. The program throws at one that is null. */
  predicate OpenEnd(end: Option<Value>) {
    end.None? || end == Some(Str(""))
  }

  function WindowAfter(w: World, intent: Value, trace: Value): Option<bool> {
    var t, end := Field(trace, "blockTimestamp"), Field(intent, "validAfter");
    if !Present(t) || OpenEnd(end) then Some(true) else AtMost(w, end.value, OrElse(t, Str("0")))
  }

  function WindowUntil(w: World, intent: Value, trace: Value): Option<bool> {
    var t, end := Field(trace, "blockTimestamp"), Field(intent, "validUntil");
    if !Present(t) || OpenEnd(end) then Some(true) else AtMost(w, OrElse(t, Str("0")), end.value)
  }

  /** The block time itself must be an integer even when the window is open. */
  function MinedCheck(w: World, trace: Value): Option<bool> {
    var t := Field(trace, "blockTimestamp");
    if Present(t) && IntOf(w.co, OrElse(t, Str("0"))).None? then None else Some(true)
  }

  function ChainCheck(w: World, intent: Value, receipt: Value): Option<bool> {
    var a, b := Field(intent, "chainId"), Field(receipt, "chainId");
    if !Truthy(a) || !Truthy(b) then Some(true) else Some(StringOf(w.co, a.value) == StringOf(w.co, b.value))
  }

  /** All comparisons, in the order of the program, with the names they are reported under. */
  function Comparisons(w: World, intent: Value, trace: Value, receipt: Value): seq<(string, Option<bool>)> {
    [("target", Same(w, Field(intent, "target"), Field(trace, "to"))),
     ("signer", Same(w, Field(intent, "signer"), Field(trace, "from"))),
     ("selector", SelectorCheck(w, intent, trace)),
     ("value", ValueCheck(w, intent, trace)),
     ("recipient", RecipientCheck(w, intent, trace)),
     ("nonce", NonceCheck(w, intent, trace)),
     ("blockTimestamp", MinedCheck(w, trace)),
     ("validAfter", WindowAfter(w, intent, trace)),
     ("validUntil", WindowUntil(w, intent, trace)),
     ("chainId", ChainCheck(w, intent, receipt))]
  }

  /** No comparison throws. */
  predicate Comparable(w: World, intent: Value, trace: Value, receipt: Value) {
    forall c | c in Comparisons(w, intent, trace, receipt) :: c.1.Some?
  }

  /** The execution stays within the intent, wherever both say something. */
  predicate Bound(w: World, intent: Value, trace: Value, receipt: Value) {
    forall c | c in Comparisons(w, intent, trace, receipt) :: c.1 == Some(true)
  }

  /** Go through the comparisons and collect the names of those that disagree. */
  method Disagreeing(cs: seq<(string, Option<bool>)>) returns (valid: Option<bool>, violations: seq<string>)
    ensures valid.Some? <==> forall c | c in cs :: c.1.Some?
    ensures valid.Some? ==> (valid.value <==> forall c | c in cs :: c.1 == Some(true))
    ensures valid.Some? ==> forall name :: name in violations <==> (name, Some(false)) in cs
  {
    violations := [];
    for i := 0 to |cs|
      invariant forall k :: 0 <= k < i ==> cs[k].1.Some?
      invariant |violations| == 0 <==> forall k :: 0 <= k < i ==> cs[k].1 == Some(true)
      invariant forall name :: name in violations <==> (name, Some(false)) in cs[..i]
    {
      if cs[i].1.None? {
        assert cs[i] in cs;
        return None, violations;
      }
      assert cs[..i + 1] == cs[..i] + [cs[i]];
      var holds := cs[i].1.value;
      assert cs[i].1 == Some(holds);
      if !holds { violations := violations + [cs[i].0]; }
    }
    assert cs[..|cs|] == cs;
    return Some(violations == []), violations;
  }

  /** Compare field by field. */
  method VerifyIntentExecutionBinding(w: World, intent: Value, trace: Value, receipt: Value)
    returns (valid: Option<bool>, violations: seq<string>)
    ensures valid.Some? <==> Comparable(w, intent, trace, receipt)
    ensures valid.Some? ==> valid.value == Bound(w, intent, trace, receipt)
    ensures valid.Some? ==> forall name :: name in violations <==> (name, Some(false)) in Comparisons(w, intent, trace, receipt)
  {
    valid, violations := Disagreeing(Comparisons(w, intent, trace, receipt));
  }

  lemma NumberText(w: World, n: int)
    requires -MAX_SAFE <= n <= MAX_SAFE
    ensures StringOf(w.co, Num(Fin(n as real))) == Dec(n)
  {
  }

  lemma OneDisagrees(w: World, intent: Value, trace: Value, receipt: Value)
    requires NonceCheck(w, intent, trace) == Some(false) || ChainCheck(w, intent, receipt) == Some(false)
    ensures !Bound(w, intent, trace, receipt)
  {
    var cs := Comparisons(w, intent, trace, receipt);
    assert cs[5] in cs && cs[9] in cs;
  }

  lemma DifferentTexts(w: World, m: int, n: int)
    requires -MAX_SAFE <= m <= MAX_SAFE && -MAX_SAFE <= n <= MAX_SAFE && m != n
    ensures StringOf(w.co, Num(Fin(m as real))) == Dec(m) != Dec(n) == StringOf(w.co, Num(Fin(n as real)))
  {
    if Dec(m) == Dec(n) { DecInjective(m, n); }
    NumberText(w, m);
    NumberText(w, n);
  }

  /** Numbers are compared like texts: an execution whose nonce is another number is not bound. */
  lemma NonceBinds(w: World, intent: Value, trace: Value, receipt: Value, m: int, n: int)
    requires w.host().lower(Dec(m)) == Dec(m) && w.host().lower(Dec(n)) == Dec(n)
    requires -MAX_SAFE <= m <= MAX_SAFE && -MAX_SAFE <= n <= MAX_SAFE && m != n
    requires Field(intent, "nonce") == Some(Num(Fin(m as real))) && Field(trace, "nonce") == Some(Num(Fin(n as real)))
    ensures !Bound(w, intent, trace, receipt)
  {
    DifferentTexts(w, m, n);
    OneDisagrees(w, intent, trace, receipt);
  }

  /** Nor is one on another chain. */
  lemma ChainBinds(w: World, intent: Value, trace: Value, receipt: Value, m: int, n: int)
    requires -MAX_SAFE <= m <= MAX_SAFE && -MAX_SAFE <= n <= MAX_SAFE && m != n && m != 0 && n != 0
    requires Field(intent, "chainId") == Some(Num(Fin(m as real))) && Field(receipt, "chainId") == Some(Num(Fin(n as real)))
    ensures !Bound(w, intent, trace, receipt)
  {
    DifferentTexts(w, m, n);
    OneDisagrees(w, intent, trace, receipt);
  }

  // ---------------------------------------------------------------------------------------------
  // The checks of a receipt
  // ---------------------------------------------------------------------------------------------

  datatype Evidence = Evidence(bundle: Option<Value>, intent: Option<Value>, policy: Option<Value>, trace: Option<Value>)

  const INTENT_TAG := "CGEP/1:INTENT"
  const POLICY_TAG := "CGEP/1:POLICY"
  const TRACE_TAG := "CGEP/1:TRACE"
  const EVIDENCE_TAG := "CGEP/1:EVIDENCE"
  const RECEIPT_TAG := "CGEP/1:RECEIPT"
  const STATE_DELTA_TAG := "CGEP/1:STATEDELTA"

  function Grade(ok: bool): Outcome {
    if ok then PASS else FAIL
  }

  function Payload(receipt: seq<Member>): seq<Member> {
    Without(receipt, "receiptId")
  }

  /** A field holds the hash of a value. */
  predicate Commits(w: World, tag: string, v: Value, holder: seq<Member>, key: string) {
    match DomainHash(w.sha, w.host(), tag, v)
    case Some(hash) => Field(Obj(holder), key) == Some(Str(hash))
    case None => false
  }

  predicate Hashable(w: World, v: Option<Value>) {
    !Truthy(v) || CanonOf(w.host(), v.value).Text?
  }

  /** Everything that is hashed can be canonicalized, and everything that is compared can be read.
      Otherwise verification throws. */
  predicate Computable(w: World, receipt: seq<Member>, e: Evidence) {
    && CanonOf(w.host(), Obj(Payload(receipt))).Text?
    && Hashable(w, e.intent) && Hashable(w, e.policy) && Hashable(w, e.trace) && Hashable(w, e.bundle)
    && (Truthy(e.policy) && Truthy(e.trace) ==> ContextReadable(e.trace.value))
    && (Truthy(Field(Obj(receipt), "traceAvailability")) ==> AvailabilityReadable(w, receipt))
    && (Truthy(e.intent) && Truthy(e.trace) ==> Comparable(w, e.intent.value, e.trace.value, Obj(receipt)))
  }

  predicate OptsIntoDelta(e: Evidence) {
    Truthy(e.bundle) && Field(e.bundle.value, "stateDeltaScheme") == Some(Str(STATE_DELTA_TAG)) && Truthy(e.trace)
  }

  predicate DeltaMatches(w: World, e: Evidence)
    requires OptsIntoDelta(e)
  {
    Field(e.bundle.value, "stateDeltaHash") == Some(Str(w.deltaHash(e.trace.value)))
  }

  /** The number of frames that is declared, when it is looked at, is an integer. */
  predicate AvailabilityReadable(w: World, receipt: seq<Member>) {
    match Field(Obj(receipt), "traceAvailability")
    case None => true
    case Some(ta) =>
      Field(ta, "status") == Some(Str("TRACE_AVAILABLE")) && Truthy(Field(ta, "provider")) && Truthy(Field(ta, "frames")) ==>
        IntOf(w.co, Field(ta, "frames").value).Some?
  }

  /** The declaration of trace availability is well formed. */
  predicate AvailabilityOk(w: World, receipt: seq<Member>) {
    match Field(Obj(receipt), "traceAvailability")
    case None => false
    case Some(ta) =>
      if Field(ta, "status") == Some(Str("TRACE_AVAILABLE")) then
        Truthy(Field(ta, "provider")) && Truthy(Field(ta, "frames"))
        && match IntOf(w.co, Field(ta, "frames").value)
           case Some(n) => n > 0
           case None => false
      else Field(ta, "status") == Some(Str("TRACE_UNAVAILABLE")) && Truthy(Field(ta, "reason"))
  }

  predicate Names(v: Option<Value>, keys: seq<string>) {
    v.Some? && Truthy(v) && forall i :: 0 <= i < |keys| ==> Truthy(Field(v.value, keys[i]))
  }

  predicate Pinned(receipt: seq<Member>) {
    && Names(Field(Obj(receipt), "simulation"), ["blockNumber", "blockHash"])
    && Names(Field(Obj(receipt), "execution"), ["blockNumber", "blockHash"])
  }

  predicate Satisfied(w: World, e: Evidence) {
    Truthy(e.policy) && Truthy(e.trace) && ContextReadable(e.trace.value)
    && w.policySatisfied(e.policy.value, PolicyContextFromTrace(w, e.intent, e.trace.value))
  }

  predicate Signed(e: Evidence) {
    Truthy(e.intent) && Truthy(Field(e.intent.value, "signature"))
  }

  predicate Binds(w: World, receipt: seq<Member>, e: Evidence) {
    Truthy(e.intent) && Truthy(e.trace) && Bound(w, e.intent.value, e.trace.value, Obj(receipt))
  }

  /** What each check found; None where the check did not run. */
  datatype Findings = Findings(
    id: bool, intent: Option<bool>, policy: Option<bool>, trace: Option<bool>, bundle: Option<bool>, delta: Option<bool>,
    satisfied: Option<bool>, signer: Option<bool>, plan: Option<bool>, available: Option<bool>, bound: Option<bool>,
    pinned: bool)

  function Given(there: bool, ok: bool): Option<bool> {
    if there then Some(ok) else None
  }

  predicate HashFound(w: World, tag: string, v: Option<Value>, receipt: seq<Member>, key: string) {
    Truthy(v) && Commits(w, tag, v.value, receipt, key)
  }

  function Find(w: World, receipt: seq<Member>, e: Evidence): Findings {
    Findings(
      Commits(w, RECEIPT_TAG, Obj(Payload(receipt)), receipt, "receiptId"),
      Given(Truthy(e.intent), HashFound(w, INTENT_TAG, e.intent, receipt, "intentHash")),
      Given(Truthy(e.policy), HashFound(w, POLICY_TAG, e.policy, receipt, "policyHash")),
      Given(Truthy(e.trace), HashFound(w, TRACE_TAG, e.trace, receipt, "executionTraceHash")),
      Given(Truthy(e.bundle), HashFound(w, EVIDENCE_TAG, e.bundle, receipt, "evidenceRoot")),
      Given(OptsIntoDelta(e), OptsIntoDelta(e) && DeltaMatches(w, e)),
      Given(Truthy(e.policy) && Truthy(e.trace), Satisfied(w, e)),
      Given(Signed(e), Signed(e) && w.signatureValid(e.intent.value)),
      Given(Truthy(e.trace), Truthy(e.trace) && PlanValid(w.co, e.trace.value)),
      Given(Truthy(Field(Obj(receipt), "traceAvailability")), AvailabilityOk(w, receipt)),
      Given(Truthy(e.intent) && Truthy(e.trace), Binds(w, receipt, e)),
      Pinned(receipt))
  }

  /** A check that is recorded even when it did not run. */
  function Always(name: Name, o: Option<bool>): Check {
    Check(name, if o.Some? then Grade(o.value) else NOT_RUN)
  }

  /** A check that is pushed only when it ran. */
  function Pushed(name: Name, o: Option<bool>): seq<Check> {
    if o.Some? then [Check(name, Grade(o.value))] else []
  }

  function HashChecks(f: Findings): seq<Check> {
    [Check(RECEIPT_COMMITMENT, Grade(f.id)), Always(INTENT_HASH, f.intent), Always(POLICY_HASH, f.policy), Always(TRACE_HASH, f.trace)]
  }

  function EvidenceChecks(f: Findings): seq<Check> {
    Pushed(EVIDENCE_COMMITMENT, f.bundle) + Pushed(STATE_DELTA_CANONICAL, f.delta) + Pushed(POLICY_EVAL, f.satisfied)
    + Pushed(SIGNER_AUTHENTICATION, f.signer) + Pushed(REPLAY_CONSISTENCY, f.plan) + Pushed(TRACE_AVAILABILITY, f.available)
  }

  /** All checks, in the order in which they are pushed. */
  function Checks(f: Findings): seq<Check> {
    HashChecks(f) + EvidenceChecks(f) + Pushed(INTENT_EXECUTION_BINDING, f.bound) + [Check(STATE_PINNING, Grade(f.pinned))]
  }

  /** A receipt that names no level claims L2. */
  function ClaimedLevel(receipt: seq<Member>): string {
    match Field(Obj(receipt), "verificationLevel")
    case Some(Str(s)) => Or(s, "L2")
    case v => if Truthy(v) then "" else "L2"
  }

  function Judge(w: World, receipt: seq<Member>, e: Evidence): Verdict {
    EvaluateCheckVerdict(ClaimedLevel(receipt), Checks(Find(w, receipt, e)))
  }

  // ---------------------------------------------------------------------------------------------
  // The verifier
  // ---------------------------------------------------------------------------------------------

  /** Run the checks one after another. None when something that must be hashed cannot be. */
  method VerifyReceipt(w: World, receipt: seq<Member>, e: Evidence) returns (verdict: Option<Verdict>, checks: seq<Check>)
    ensures verdict.Some? <==> Computable(w, receipt, e)
    ensures verdict.Some? ==> checks == Checks(Find(w, receipt, e)) && verdict.value == Judge(w, receipt, e)
  {
    checks := [];
    if !Computable(w, receipt, e) { return None, checks; }
    ghost var f := Find(w, receipt, e);
    checks := RunHashChecks(w, receipt, e);
    var evidence := RunEvidenceChecks(w, receipt, e);
    checks := checks + evidence;
    if Truthy(e.intent) && Truthy(e.trace) {
      var valid, violations := VerifyIntentExecutionBinding(w, e.intent.value, e.trace.value, Obj(receipt));
      checks := checks + [Check(INTENT_EXECUTION_BINDING, Grade(valid.value))];
    } else {
      assert checks + Pushed(INTENT_EXECUTION_BINDING, f.bound) == checks;
    }
    checks := checks + [Check(STATE_PINNING, Grade(Pinned(receipt)))];
    return Some(EvaluateCheckVerdict(ClaimedLevel(receipt), checks)), checks;
  }

  /** Recompute a hash and compare it with the one in the receipt. */
  method CompareHash(w: World, tag: string, v: Value, receipt: seq<Member>, key: string) returns (ok: bool)
    ensures ok == Commits(w, tag, v, receipt, key)
  {
    var hash := DomainHash(w.sha, w.host(), tag, v);
    ok := hash.Some? && Field(Obj(receipt), key) == Some(Str(hash.value));
  }

  /** None when the value was not provided. */
  method CheckHash(w: World, tag: string, v: Option<Value>, receipt: seq<Member>, key: string) returns (o: Option<bool>)
    ensures o == Given(Truthy(v), HashFound(w, tag, v, receipt, key))
  {
    if !Truthy(v) { return None; }
    var ok := CompareHash(w, tag, v.value, receipt, key);
    return Some(ok);
  }

  method RunHashChecks(w: World, receipt: seq<Member>, e: Evidence) returns (checks: seq<Check>)
    ensures checks == HashChecks(Find(w, receipt, e))
  {
    var id := CompareHash(w, RECEIPT_TAG, Obj(Payload(receipt)), receipt, "receiptId");
    checks := [Check(RECEIPT_COMMITMENT, Grade(id))];
    var o := CheckHash(w, INTENT_TAG, e.intent, receipt, "intentHash");
    checks := checks + [Always(INTENT_HASH, o)];
    o := CheckHash(w, POLICY_TAG, e.policy, receipt, "policyHash");
    checks := checks + [Always(POLICY_HASH, o)];
    o := CheckHash(w, TRACE_TAG, e.trace, receipt, "executionTraceHash");
    checks := checks + [Always(TRACE_HASH, o)];
  }

  /** Plan the replay of the trace, if there is one. */
  method RunPlan(w: World, e: Evidence) returns (o: Option<bool>)
    ensures o == Given(Truthy(e.trace), Truthy(e.trace) && PlanValid(w.co, e.trace.value))
  {
    if !Truthy(e.trace) { return None; }
    var claim := ClaimOf(w.co, e.trace.value);
    var valid, errors, frames := R.PlanTraceReplay(claim);
    if claim.Some? { R.ErrorFreeIffCoherent(claim.value); }
    return Some(valid);
  }

  method RunEvidenceChecks(w: World, receipt: seq<Member>, e: Evidence) returns (checks: seq<Check>)
    ensures checks == EvidenceChecks(Find(w, receipt, e))
  {
    var bundle := CheckHash(w, EVIDENCE_TAG, e.bundle, receipt, "evidenceRoot");
    checks := Pushed(EVIDENCE_COMMITMENT, bundle);
    var delta := Given(OptsIntoDelta(e), OptsIntoDelta(e) && DeltaMatches(w, e));
    checks := checks + Pushed(STATE_DELTA_CANONICAL, delta);
    var satisfied := Given(Truthy(e.policy) && Truthy(e.trace), Satisfied(w, e));
    checks := checks + Pushed(POLICY_EVAL, satisfied);
    var signer := Given(Signed(e), Signed(e) && w.signatureValid(e.intent.value));
    checks := checks + Pushed(SIGNER_AUTHENTICATION, signer);
    var plan := RunPlan(w, e);
    checks := checks + Pushed(REPLAY_CONSISTENCY, plan);
    var available := Given(Truthy(Field(Obj(receipt), "traceAvailability")), AvailabilityOk(w, receipt));
    checks := checks + Pushed(TRACE_AVAILABILITY, available);
  }

  // ---------------------------------------------------------------------------------------------
  // What VERIFIED means
  // ---------------------------------------------------------------------------------------------

  /** The evidence is complete and every hash in the receipt is that of the evidence. */
  predicate HashesProven(w: World, receipt: seq<Member>, e: Evidence) {
    && Commits(w, RECEIPT_TAG, Obj(Payload(receipt)), receipt, "receiptId")
    && Truthy(e.intent) && Commits(w, INTENT_TAG, e.intent.value, receipt, "intentHash")
    && Truthy(e.policy) && Commits(w, POLICY_TAG, e.policy.value, receipt, "policyHash")
    && Truthy(e.trace) && Commits(w, TRACE_TAG, e.trace.value, receipt, "executionTraceHash")
    && (Truthy(e.bundle) ==> Commits(w, EVIDENCE_TAG, e.bundle.value, receipt, "evidenceRoot"))
  }

  /** The execution satisfies the policy and stays within the intent, the trace is coherent, and
      whatever else was declared or signed holds. */
  predicate ClaimsProven(w: World, receipt: seq<Member>, e: Evidence) {
    && (OptsIntoDelta(e) ==> DeltaMatches(w, e))
    && Satisfied(w, e) && (Signed(e) ==> w.signatureValid(e.intent.value)) && Truthy(e.trace) && PlanValid(w.co, e.trace.value)
    && (Truthy(Field(Obj(receipt), "traceAvailability")) ==> AvailabilityOk(w, receipt))
    && Binds(w, receipt, e) && Pinned(receipt)
  }

  ghost predicate NoneFail(checks: seq<Check>) {
    forall c :: c in checks ==> c.result != FAIL
  }

  lemma NoneFailJoin(a: seq<Check>, b: seq<Check>)
    ensures NoneFail(a + b) <==> NoneFail(a) && NoneFail(b)
  {
    forall c ensures c in a + b <==> c in a || c in b {}
  }

  lemma NoneFailPushed(name: Name, o: Option<bool>)
    ensures NoneFail(Pushed(name, o)) <==> o != Some(false)
  {
    if o.Some? { assert Pushed(name, o)[0] in Pushed(name, o); }
  }

  lemma HashChecksPass(f: Findings)
    ensures NoneFail(HashChecks(f)) <==> f.id && f.intent != Some(false) && f.policy != Some(false) && f.trace != Some(false)
  {
    var cs := HashChecks(f);
    assert cs[0] in cs && cs[1] in cs && cs[2] in cs && cs[3] in cs;
  }

  lemma EvidenceChecksPass(f: Findings)
    ensures NoneFail(EvidenceChecks(f)) <==>
              && f.bundle != Some(false) && f.delta != Some(false) && f.satisfied != Some(false)
              && f.signer != Some(false) && f.plan != Some(false) && f.available != Some(false)
  {
    var s0, s1, s2 := Pushed(EVIDENCE_COMMITMENT, f.bundle), Pushed(STATE_DELTA_CANONICAL, f.delta), Pushed(POLICY_EVAL, f.satisfied);
    var s3, s4 := Pushed(SIGNER_AUTHENTICATION, f.signer), Pushed(REPLAY_CONSISTENCY, f.plan);
    var s5 := Pushed(TRACE_AVAILABILITY, f.available);
    NoneFailJoin(s0 + s1 + s2 + s3 + s4, s5);
    NoneFailJoin(s0 + s1 + s2 + s3, s4);
    NoneFailJoin(s0 + s1 + s2, s3);
    NoneFailJoin(s0 + s1, s2);
    NoneFailJoin(s0, s1);
    NoneFailPushed(EVIDENCE_COMMITMENT, f.bundle);
    NoneFailPushed(STATE_DELTA_CANONICAL, f.delta);
    NoneFailPushed(POLICY_EVAL, f.satisfied);
    NoneFailPushed(SIGNER_AUTHENTICATION, f.signer);
    NoneFailPushed(REPLAY_CONSISTENCY, f.plan);
    NoneFailPushed(TRACE_AVAILABILITY, f.available);
  }

  /** Nothing failed. */
  predicate Clean(f: Findings) {
    && f.id && f.intent != Some(false) && f.policy != Some(false) && f.trace != Some(false)
    && f.bundle != Some(false) && f.delta != Some(false) && f.satisfied != Some(false)
    && f.signer != Some(false) && f.plan != Some(false) && f.available != Some(false)
    && f.bound != Some(false) && f.pinned
  }

  lemma NoneFailIffClean(f: Findings)
    ensures NoneFail(Checks(f)) <==> Clean(f)
  {
    var a, b, c := HashChecks(f), EvidenceChecks(f), Pushed(INTENT_EXECUTION_BINDING, f.bound);
    var d := [Check(STATE_PINNING, Grade(f.pinned))];
    NoneFailJoin(a + b + c, d);
    NoneFailJoin(a + b, c);
    NoneFailJoin(a, b);
    HashChecksPass(f);
    EvidenceChecksPass(f);
    NoneFailPushed(INTENT_EXECUTION_BINDING, f.bound);
    assert d[0] in d;
  }

  ghost predicate Absent(cs: seq<Check>, name: Name) {
    forall c :: c in cs ==> c.name != name
  }

  lemma {:induction false} ResultJoin(a: seq<Check>, b: seq<Check>, name: Name)
    requires Absent(b, name)
    ensures ResultOf(a + b, name) == ResultOf(a, name)
  {
    if b == [] {
      assert a + b == a;
    } else {
      var front, last := b[..|b| - 1], b[|b| - 1];
      assert b == front + [last];
      assert (a + b)[..|a + b| - 1] == a + front && last in b;
      assert forall c :: c in front ==> c in b;
      ResultJoin(a, front, name);
    }
  }

  lemma ResultLast(a: seq<Check>, c: Check)
    ensures ResultOf(a + [c], c.name) == Some(c.result)
  {
    assert (a + [c])[|a + [c]| - 1] == c;
  }

  lemma ResultSkip(a: seq<Check>, c: Check, name: Name)
    requires c.name != name
    ensures ResultOf(a + [c], name) == ResultOf(a, name)
  {
    assert (a + [c])[..|a + [c]| - 1] == a;
  }

  lemma FourResults(c0: Check, c1: Check, c2: Check, c3: Check, name: Name)
    ensures ResultOf([c0, c1, c2, c3], name)
            == if c3.name == name then Some(c3.result) else if c2.name == name then Some(c2.result)
               else if c1.name == name then Some(c1.result) else if c0.name == name then Some(c0.result) else None
  {
    assert [] + [c0] == [c0] && [c0] + [c1] == [c0, c1] && [c0, c1] + [c2] == [c0, c1, c2];
    assert [c0, c1, c2] + [c3] == [c0, c1, c2, c3];
    if c3.name == name { ResultLast([c0, c1, c2], c3); } else { ResultSkip([c0, c1, c2], c3, name); }
    if c2.name == name { ResultLast([c0, c1], c2); } else { ResultSkip([c0, c1], c2, name); }
    if c1.name == name { ResultLast([c0], c1); } else { ResultSkip([c0], c1, name); }
    if c0.name == name { ResultLast([], c0); } else { ResultSkip([], c0, name); }
  }

  /** No name is used twice, so the last result under a name is the one pushed. */
  lemma HashResults(f: Findings, name: Name)
    ensures ResultOf(HashChecks(f), name) ==
              match name
              case RECEIPT_COMMITMENT => Some(Grade(f.id))
              case INTENT_HASH => Some(Always(INTENT_HASH, f.intent).result)
              case POLICY_HASH => Some(Always(POLICY_HASH, f.policy).result)
              case TRACE_HASH => Some(Always(TRACE_HASH, f.trace).result)
              case _ => None
  {
    FourResults(Check(RECEIPT_COMMITMENT, Grade(f.id)), Always(INTENT_HASH, f.intent), Always(POLICY_HASH, f.policy),
                Always(TRACE_HASH, f.trace), name);
  }

  lemma EvidenceNames(f: Findings, name: Name)
    requires name in {RECEIPT_COMMITMENT, INTENT_HASH, POLICY_HASH, TRACE_HASH, INTENT_EXECUTION_BINDING, STATE_PINNING}
    ensures Absent(EvidenceChecks(f), name)
  {
  }

  lemma RequiredResults(f: Findings, name: Name)
    requires name in {RECEIPT_COMMITMENT, INTENT_HASH, POLICY_HASH, TRACE_HASH, INTENT_EXECUTION_BINDING, STATE_PINNING}
    ensures ResultOf(Checks(f), name) ==
              if name == STATE_PINNING then Some(Grade(f.pinned))
              else if name == INTENT_EXECUTION_BINDING then
                if f.bound.Some? then Some(Grade(f.bound.value)) else None
              else ResultOf(HashChecks(f), name)
  {
    var early, mid, last := HashChecks(f) + EvidenceChecks(f), Pushed(INTENT_EXECUTION_BINDING, f.bound), Check(STATE_PINNING, Grade(f.pinned));
    if name == STATE_PINNING {
      ResultLast(early + mid, last);
    } else {
      ResultSkip(early + mid, last, name);
      EvidenceNames(f, name);
      ResultJoin(HashChecks(f), EvidenceChecks(f), name);
      if name == INTENT_EXECUTION_BINDING && f.bound.Some? {
        ResultLast(early, mid[0]);
      } else {
        assert Absent(mid, name);
        ResultJoin(early, mid, name);
        HashResults(f, name);
      }
    }
  }

  ghost predicate AllPass(required: seq<Name>, checks: seq<Check>) {
    forall n :: n in required ==> ResultOf(checks, n) == Some(PASS)
  }

  lemma AllPassCons(n: Name, rest: seq<Name>, checks: seq<Check>)
    ensures AllPass([n] + rest, checks) <==> ResultOf(checks, n) == Some(PASS) && AllPass(rest, checks)
  {
    assert forall m :: m in [n] + rest <==> m == n || m in rest;
    assert n in [n] + rest;
  }

  lemma AllPassSix(a: Name, b: Name, c: Name, d: Name, e: Name, f: Name, checks: seq<Check>)
    ensures AllPass([a, b, c, d, e, f], checks) <==>
              && ResultOf(checks, a) == Some(PASS) && ResultOf(checks, b) == Some(PASS) && ResultOf(checks, c) == Some(PASS)
              && ResultOf(checks, d) == Some(PASS) && ResultOf(checks, e) == Some(PASS) && ResultOf(checks, f) == Some(PASS)
  {
    assert [a, b, c, d, e, f] == [a] + ([b] + ([c] + ([d] + ([e] + ([f] + [])))));
    AllPassCons(a, [b] + ([c] + ([d] + ([e] + ([f] + [])))), checks);
    AllPassCons(b, [c] + ([d] + ([e] + ([f] + []))), checks);
    AllPassCons(c, [d] + ([e] + ([f] + [])), checks);
    AllPassCons(d, [e] + ([f] + []), checks);
    AllPassCons(e, [f] + [], checks);
    AllPassCons(f, [], checks);
  }

  lemma RequiredAtL2(checks: seq<Check>)
    ensures EvaluateCheckVerdict("L2", checks).verdict == VERIFIED <==>
              && NoneFail(checks)
              && ResultOf(checks, RECEIPT_COMMITMENT) == Some(PASS) && ResultOf(checks, STATE_PINNING) == Some(PASS)
              && ResultOf(checks, INTENT_HASH) == Some(PASS) && ResultOf(checks, POLICY_HASH) == Some(PASS)
              && ResultOf(checks, TRACE_HASH) == Some(PASS) && ResultOf(checks, INTENT_EXECUTION_BINDING) == Some(PASS)
  {
    AllPassSix(RECEIPT_COMMITMENT, STATE_PINNING, INTENT_HASH, POLICY_HASH, TRACE_HASH, INTENT_EXECUTION_BINDING, checks);
    assert EvaluateCheckVerdict("L2", checks).verdict == VERIFIED <==>
             NoneFail(checks) && AllPass(RequiredByLevel("L2").value, checks);
  }

  lemma L2OfFindings(f: Findings)
    ensures EvaluateCheckVerdict("L2", Checks(f)).verdict == VERIFIED <==>
              Clean(f) && f.intent == Some(true) && f.policy == Some(true) && f.trace == Some(true) && f.bound == Some(true)
  {
    RequiredAtL2(Checks(f));
    NoneFailIffClean(f);
    RequiredResults(f, RECEIPT_COMMITMENT);
    RequiredResults(f, STATE_PINNING);
    RequiredResults(f, INTENT_HASH);
    RequiredResults(f, POLICY_HASH);
    RequiredResults(f, TRACE_HASH);
    RequiredResults(f, INTENT_EXECUTION_BINDING);
    HashResults(f, RECEIPT_COMMITMENT);
    HashResults(f, INTENT_HASH);
    HashResults(f, POLICY_HASH);
    HashResults(f, TRACE_HASH);
  }

  lemma HashesFound(w: World, receipt: seq<Member>, e: Evidence)
    ensures var f := Find(w, receipt, e);
            HashesProven(w, receipt, e) <==>
              f.id && f.intent == Some(true) && f.policy == Some(true) && f.trace == Some(true) && f.bundle != Some(false)
  {
  }

  lemma ClaimsFound(w: World, receipt: seq<Member>, e: Evidence)
    requires Truthy(e.intent) && Truthy(e.policy) && Truthy(e.trace)
    ensures var f := Find(w, receipt, e);
            ClaimsProven(w, receipt, e) <==>
              && f.delta != Some(false) && f.satisfied != Some(false) && f.signer != Some(false) && f.plan != Some(false)
              && f.available != Some(false) && f.bound == Some(true) && f.pinned
  {
  }

  /** At L2, VERIFIED means that the whole evidence is proven: the checks the level requires and
      also those it does not list. */
  lemma VerifiedAtL2Iff(w: World, receipt: seq<Member>, e: Evidence)
    requires ClaimedLevel(receipt) == "L2"
    ensures Judge(w, receipt, e).verdict == VERIFIED <==> HashesProven(w, receipt, e) && ClaimsProven(w, receipt, e)
  {
    L2OfFindings(Find(w, receipt, e));
    HashesFound(w, receipt, e);
    if HashesProven(w, receipt, e) { ClaimsFound(w, receipt, e); }
  }

  /** So a VERIFIED trace at L2 describes one call forest, and no other. */
  lemma VerifiedIsOneForest(w: World, receipt: seq<Member>, e: Evidence) returns (ts: seq<F.Tree<R.Frame>>)
    requires ClaimedLevel(receipt) == "L2" && Judge(w, receipt, e).verdict == VERIFIED
    ensures e.trace.Some? && ClaimOf(w.co, e.trace.value).Some?
    ensures Describes(ts, ClaimOf(w.co, e.trace.value).value)
    ensures forall us :: Describes(us, ClaimOf(w.co, e.trace.value).value) ==> us == ts
  {
    VerifiedAtL2Iff(w, receipt, e);
    ts := ValidPlanIsOneForest(w.co, e.trace.value);
  }

  // ---------------------------------------------------------------------------------------------
  // One receipt binds one execution
  // ---------------------------------------------------------------------------------------------

  ghost predicate WorldOk(w: World) {
    HashOk(w.sha, w.host())
  }

  ghost predicate DictEvidence(e: Evidence) {
    && (e.intent.Some? ==> IsDict(e.intent.value)) && (e.policy.Some? ==> IsDict(e.policy.value))
    && (e.trace.Some? ==> IsDict(e.trace.value))
  }

  /** Receipts with one id that commit to the hashes of two values commit to one normal form. */
  lemma SameCommitment(w: World, r: seq<Member>, s: seq<Member>, tag: string, v: Value, u: Value, key: string)
    requires WorldOk(w) && IsDict(Obj(r)) && IsDict(Obj(s)) && IsDict(v) && IsDict(u) && key != "receiptId"
    requires Commits(w, RECEIPT_TAG, Obj(Payload(r)), r, "receiptId") && Commits(w, RECEIPT_TAG, Obj(Payload(s)), s, "receiptId")
    requires Field(Obj(r), "receiptId") == Field(Obj(s), "receiptId")
    requires Commits(w, tag, v, r, key) && Commits(w, tag, u, s, key)
    ensures Normal(w.host(), v) == Normal(w.host(), u)
  {
    CommittedField(w.sha, w.host(), RECEIPT_TAG, r, s, "receiptId", key,
                   tag + CanonOf(w.host(), v).text, tag + CanonOf(w.host(), u).text);
    HashBindsNormalForm(w.sha, w.host(), tag, v, u);
  }

  /** Two receipts with the same id that are VERIFIED at L2 have canonically equal intent, policy and
      trace: one receipt binds one execution. */
  lemma OneReceiptOneExecution(w: World, r: seq<Member>, e: Evidence, s: seq<Member>, f: Evidence)
    requires WorldOk(w) && IsDict(Obj(r)) && IsDict(Obj(s)) && DictEvidence(e) && DictEvidence(f)
    requires ClaimedLevel(r) == "L2" && Judge(w, r, e).verdict == VERIFIED
    requires ClaimedLevel(s) == "L2" && Judge(w, s, f).verdict == VERIFIED
    requires Field(Obj(r), "receiptId") == Field(Obj(s), "receiptId")
    ensures e.intent.Some? && f.intent.Some? && Normal(w.host(), e.intent.value) == Normal(w.host(), f.intent.value)
    ensures e.policy.Some? && f.policy.Some? && Normal(w.host(), e.policy.value) == Normal(w.host(), f.policy.value)
    ensures e.trace.Some? && f.trace.Some? && Normal(w.host(), e.trace.value) == Normal(w.host(), f.trace.value)
  {
    VerifiedAtL2Iff(w, r, e);
    VerifiedAtL2Iff(w, s, f);
    SameCommitment(w, r, s, INTENT_TAG, e.intent.value, f.intent.value, "intentHash");
    SameCommitment(w, r, s, POLICY_TAG, e.policy.value, f.policy.value, "policyHash");
    SameCommitment(w, r, s, TRACE_TAG, e.trace.value, f.trace.value, "executionTraceHash");
  }

  /** Once a receipt is VERIFIED, presenting it with any canonically different intent, policy or
      trace is a contradiction, whatever else is presented. */
  lemma SubstitutionIsInvalid(w: World, r: seq<Member>, e: Evidence, f: Evidence)
    requires WorldOk(w) && IsDict(Obj(r)) && DictEvidence(e) && DictEvidence(f)
    requires ClaimedLevel(r) == "L2" && Judge(w, r, e).verdict == VERIFIED
    requires e.intent.Some? && e.policy.Some? && e.trace.Some?
    requires (Truthy(f.intent) && Normal(w.host(), f.intent.value) != Normal(w.host(), e.intent.value))
          || (Truthy(f.policy) && Normal(w.host(), f.policy.value) != Normal(w.host(), e.policy.value))
          || (Truthy(f.trace) && Normal(w.host(), f.trace.value) != Normal(w.host(), e.trace.value))
    ensures Judge(w, r, f).verdict == INVALID
  {
    VerifiedAtL2Iff(w, r, e);
    var found := Find(w, r, f);
    if Truthy(f.intent) && Normal(w.host(), f.intent.value) != Normal(w.host(), e.intent.value) {
      Substituted(w, r, INTENT_TAG, e.intent.value, f.intent.value, "intentHash");
      assert found.intent == Some(false);
    } else if Truthy(f.policy) && Normal(w.host(), f.policy.value) != Normal(w.host(), e.policy.value) {
      Substituted(w, r, POLICY_TAG, e.policy.value, f.policy.value, "policyHash");
      assert found.policy == Some(false);
    } else {
      Substituted(w, r, TRACE_TAG, e.trace.value, f.trace.value, "executionTraceHash");
      assert found.trace == Some(false);
    }
    FailedHash(found, ClaimedLevel(r));
  }

  lemma FailedHash(f: Findings, level: string)
    requires f.intent == Some(false) || f.policy == Some(false) || f.trace == Some(false)
    ensures EvaluateCheckVerdict(level, Checks(f)).verdict == INVALID
  {
    NoneFailIffClean(f);
  }

  lemma Substituted(w: World, r: seq<Member>, tag: string, v: Value, u: Value, key: string)
    requires WorldOk(w) && IsDict(v) && IsDict(u) && Commits(w, tag, v, r, key) && Normal(w.host(), v) != Normal(w.host(), u)
    ensures !Commits(w, tag, u, r, key)
  {
    if Commits(w, tag, u, r, key) { HashBindsNormalForm(w.sha, w.host(), tag, v, u); }
  }
}
