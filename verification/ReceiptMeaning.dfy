/** What the verdicts on a receipt mean, from the fields of the receipt and the evidence. */
module ReceiptMeaning {
  import opened Json
  import opened Canonical
  import opened Commitment
  import opened Fields
  import opened TraceClaim
  import opened Verifier

  // ---------------------------------------------------------------------------------------------
  // The verdicts
  // ---------------------------------------------------------------------------------------------

  /** Something that was shown or declared does not hold. */
  predicate Contradicted(w: World, receipt: seq<Member>, e: Evidence) {
    || !Commits(w, "CGEP/1:RECEIPT", Obj(Payload(receipt)), receipt, "receiptId")
    || (Truthy(e.intent) && !Commits(w, "CGEP/1:INTENT", e.intent.value, receipt, "intentHash"))
    || (Truthy(e.policy) && !Commits(w, "CGEP/1:POLICY", e.policy.value, receipt, "policyHash"))
    || (Truthy(e.trace) && !Commits(w, "CGEP/1:TRACE", e.trace.value, receipt, "executionTraceHash"))
    || (Truthy(e.bundle) && !Commits(w, "CGEP/1:EVIDENCE", e.bundle.value, receipt, "evidenceRoot"))
    || (OptsIntoDelta(e) && !DeltaMatches(w, e))
    || (Truthy(e.policy) && Truthy(e.trace) && !Satisfied(w, e))
    || (Signed(e) && !w.signatureValid(e.intent.value))
    || (Truthy(e.trace) && !PlanValid(w.co, e.trace.value))
    || (Truthy(Field(Obj(receipt), "traceAvailability")) && !AvailabilityOk(w, receipt))
    || (Truthy(e.intent) && Truthy(e.trace) && !Bound(w, e.intent.value, e.trace.value, Obj(receipt)))
    || !Pinned(receipt)
  }

  lemma ContradictedFound(w: World, receipt: seq<Member>, e: Evidence)
    ensures Contradicted(w, receipt, e) <==> !Clean(Find(w, receipt, e))
  {
  }

  lemma CleanVerdict(f: Findings, level: string)
    ensures EvaluateCheckVerdict(level, Checks(f)).verdict == INVALID <==> !Clean(f)
    ensures EvaluateCheckVerdict(level, Checks(f)).verdict == INCONCLUSIVE <==> Clean(f) && (level == "L3" || level == "L4")
  {
    NoneFailIffClean(f);
  }

  lemma AllPassTwo(a: Name, b: Name, checks: seq<Check>)
    ensures AllPass([a, b], checks) <==> ResultOf(checks, a) == Some(PASS) && ResultOf(checks, b) == Some(PASS)
  {
    assert [a, b] == [a] + ([b] + []);
    AllPassCons(a, [b] + [], checks);
    AllPassCons(b, [], checks);
  }

  lemma AllPassFour(a: Name, b: Name, c: Name, d: Name, checks: seq<Check>)
    ensures AllPass([a, b, c, d], checks) <==>
              && ResultOf(checks, a) == Some(PASS) && ResultOf(checks, b) == Some(PASS)
              && ResultOf(checks, c) == Some(PASS) && ResultOf(checks, d) == Some(PASS)
  {
    assert [a, b, c, d] == [a] + ([b] + [c, d]);
    AllPassCons(a, [b] + [c, d], checks);
    AllPassCons(b, [c, d], checks);
    AllPassTwo(c, d, checks);
  }

  lemma VerifiedIff(level: string, checks: seq<Check>)
    requires RequiredByLevel(level).Some?
    ensures EvaluateCheckVerdict(level, checks).verdict == VERIFIED <==> NoneFail(checks) && AllPass(RequiredByLevel(level).value, checks)
  {
  }

  lemma LevelZero(f: Findings)
    ensures EvaluateCheckVerdict("L0", Checks(f)).verdict == VERIFIED <==> Clean(f)
  {
    VerifiedIff("L0", Checks(f));
    NoneFailIffClean(f);
    AllPassTwo(RECEIPT_COMMITMENT, STATE_PINNING, Checks(f));
    RequiredResults(f, RECEIPT_COMMITMENT);
    RequiredResults(f, STATE_PINNING);
    HashResults(f, RECEIPT_COMMITMENT);
  }

  lemma LevelOne(f: Findings)
    ensures EvaluateCheckVerdict("L1", Checks(f)).verdict == VERIFIED <==> Clean(f) && f.intent == Some(true) && f.policy == Some(true)
  {
    VerifiedIff("L1", Checks(f));
    NoneFailIffClean(f);
    AllPassFour(RECEIPT_COMMITMENT, STATE_PINNING, INTENT_HASH, POLICY_HASH, Checks(f));
    RequiredResults(f, RECEIPT_COMMITMENT);
    RequiredResults(f, STATE_PINNING);
    RequiredResults(f, INTENT_HASH);
    RequiredResults(f, POLICY_HASH);
    HashResults(f, RECEIPT_COMMITMENT);
    HashResults(f, INTENT_HASH);
    HashResults(f, POLICY_HASH);
  }

  /** INVALID means that something shown or declared does not hold, at every level; otherwise the level
      decides what must have been shown. L2 is claimed when none is named. */
  lemma VerdictIff(w: World, receipt: seq<Member>, e: Evidence, level: string, v: VerdictKind)
    requires level == ClaimedLevel(receipt) && v == Judge(w, receipt, e).verdict
    ensures v == INVALID <==> Contradicted(w, receipt, e)
    ensures v == VERIFIED <==>
              && !Contradicted(w, receipt, e) && (level == "L0" || level == "L1" || level == "L2")
              && (level != "L0" ==> Truthy(e.intent) && Truthy(e.policy))
              && (level == "L2" ==> Truthy(e.trace))
    ensures v == INCONCLUSIVE <==> !Contradicted(w, receipt, e) && (level == "L3" || level == "L4")
    ensures Field(Obj(receipt), "verificationLevel") == None ==> level == "L2"
    ensures forall s :: Field(Obj(receipt), "verificationLevel") == Some(Str(s)) ==> level == if s == "" then "L2" else s
  {
    var f := Find(w, receipt, e);
    ContradictedFound(w, receipt, e);
    CleanVerdict(f, level);
    FoundWhenShown(w, receipt, e, f);
    if level == "L0" {
      LevelZero(f);
    } else if level == "L1" {
      LevelOne(f);
    } else if level == "L2" {
      L2OfFindings(f);
    }
  }

  lemma FoundWhenShown(w: World, receipt: seq<Member>, e: Evidence, f: Findings)
    requires f == Find(w, receipt, e)
    ensures f.intent.Some? == Truthy(e.intent) && f.policy.Some? == Truthy(e.policy) && f.trace.Some? == Truthy(e.trace)
    ensures f.bound.Some? == (Truthy(e.intent) && Truthy(e.trace))
  {
  }

  // ---------------------------------------------------------------------------------------------
  // What is checked
  // ---------------------------------------------------------------------------------------------

  /** A field of the receipt is the hash of the tag and the canonical text. */
  lemma CommitsIff(w: World, tag: string, v: Value, holder: seq<Member>, key: string, text: string)
    requires CanonOf(w.co.host, v) == Text(text)
    ensures Commits(w, tag, v, holder, key) <==> Field(Obj(holder), key) == Some(Str(w.sha(tag + text)))
  {
  }

  /** Both states are pinned by the number and the hash of a block. */
  lemma PinnedIff(receipt: seq<Member>, s: Option<Value>, x: Option<Value>)
    requires s == Field(Obj(receipt), "simulation") && x == Field(Obj(receipt), "execution")
    ensures Pinned(receipt) <==>
              && Truthy(s) && Truthy(Field(s.value, "blockNumber")) && Truthy(Field(s.value, "blockHash"))
              && Truthy(x) && Truthy(Field(x.value, "blockNumber")) && Truthy(Field(x.value, "blockHash"))
  {
    NamesTwo(s, "blockNumber", "blockHash");
    NamesTwo(x, "blockNumber", "blockHash");
  }

  lemma NamesTwo(v: Option<Value>, a: string, b: string)
    ensures Names(v, [a, b]) <==> Truthy(v) && Truthy(Field(v.value, a)) && Truthy(Field(v.value, b))
  {
    assert [a, b][0] == a && [a, b][1] == b;
  }

  /** A trace is available with a provider and a positive number of frames, or unavailable with a reason. */
  lemma AvailabilityIff(w: World, receipt: seq<Member>, ta: Value)
    requires Field(Obj(receipt), "traceAvailability") == Some(ta)
    ensures AvailabilityOk(w, receipt) <==>
              || (Field(ta, "status") == Some(Str("TRACE_AVAILABLE")) && Truthy(Field(ta, "provider")) && Truthy(Field(ta, "frames"))
                  && IntOf(w.co, Field(ta, "frames").value).Some? && IntOf(w.co, Field(ta, "frames").value).value > 0)
              || (Field(ta, "status") == Some(Str("TRACE_UNAVAILABLE")) && Truthy(Field(ta, "reason")))
  {
    assert "TRACE_AVAILABLE"[6] != "TRACE_UNAVAILABLE"[6];
  }

  /** The policy sees the value, target, selector and recipient of the trace, and the intent only where
      the trace says nothing. */
  lemma ContextIs(w: World, intent: Value, trace: Value, data: string, selector: string, c: Context)
    requires Field(trace, "calldata") == Some(Str(data)) && |data| >= 10
    requires selector == w.co.host.lower(data[..10]) && c == PolicyContextFromTrace(w, Some(intent), trace)
    ensures c.selector == selector
    ensures forall x :: Field(trace, "value") == Some(x) && x != Null ==> c.value == x
    ensures forall x :: Field(trace, "value") == None && Field(intent, "amount") == Some(x) && x != Null ==> c.value == x
    ensures c.target == if Truthy(Field(trace, "to")) then Field(trace, "to").value else Str("0x")
    ensures c.recipient == if selector == "0xa9059cbb" && |data| >= 74 then Str("0x" + data[34..74])
                           else if selector == "0x23b872dd" && |data| >= 138 then Str("0x" + data[98..138])
                           else if Truthy(Field(intent, "recipient")) then Field(intent, "recipient").value else Str("0x")
    ensures c.blockTimestamp == if Truthy(Field(trace, "blockTimestamp")) then Field(trace, "blockTimestamp").value else Str("0")
    ensures c.slippageBps == if Truthy(Field(trace, "slippageBps")) then Field(trace, "slippageBps").value else Str("0")
    ensures c.gasUsed == if Truthy(Field(trace, "gasUsed")) then Field(trace, "gasUsed").value else Str("0")
    ensures c.priceBps == if Truthy(Field(trace, "priceBps")) then Field(trace, "priceBps").value else Str("10000")
  {
  }

  /** The checks that run only when asked for: a recomputed state delta, a signature, a policy. */
  lemma OptionalChecksIff(w: World, e: Evidence)
    ensures OptsIntoDelta(e) <==>
              && Truthy(e.bundle) && Field(e.bundle.value, "stateDeltaScheme") == Some(Str("CGEP/1:STATEDELTA")) && Truthy(e.trace)
    ensures OptsIntoDelta(e) ==>
              (DeltaMatches(w, e) <==> Field(e.bundle.value, "stateDeltaHash") == Some(Str(w.deltaHash(e.trace.value))))
    ensures Signed(e) <==> Truthy(e.intent) && Truthy(Field(e.intent.value, "signature"))
    ensures Truthy(e.policy) && Truthy(e.trace) && ContextReadable(e.trace.value) ==>
              (Satisfied(w, e) <==> w.policySatisfied(e.policy.value, PolicyContextFromTrace(w, e.intent, e.trace.value)))
  {
  }

  /** The identity of a receipt is the hash of all its fields but the identity itself. */
  lemma PayloadIff(receipt: seq<Member>, m: Member)
    ensures m in Payload(receipt) <==> m in receipt && m.key != "receiptId"
  {
    WithoutMembers(receipt, "receiptId", m);
  }

  /** A value can be hashed. */
  predicate HasText(w: World, v: Option<Value>) {
    v.Some? && CanonOf(w.co.host, v.value).Text?
  }

  /** Verification throws exactly when something that is hashed has no canonical text, when call data that the
      policy looks at is not a text, when a declared number of frames that is looked at is not an integer,
      or when a comparison with the intent throws. */
  lemma ThrowsIff(w: World, receipt: seq<Member>, e: Evidence, ta: Option<Value>, data: Option<Value>)
    requires ta == Field(Obj(receipt), "traceAvailability")
    requires data == if e.trace.Some? then Field(e.trace.value, "calldata") else None
    ensures !Computable(w, receipt, e) <==>
              || !HasText(w, Some(Obj(Payload(receipt))))
              || (Truthy(e.intent) && !HasText(w, e.intent)) || (Truthy(e.policy) && !HasText(w, e.policy))
              || (Truthy(e.trace) && !HasText(w, e.trace)) || (Truthy(e.bundle) && !HasText(w, e.bundle))
              || (Truthy(e.policy) && Truthy(e.trace) && Truthy(data) && !data.value.Str?)
              || (Truthy(ta) && Field(ta.value, "status") == Some(Str("TRACE_AVAILABLE")) && Truthy(Field(ta.value, "provider"))
                  && Truthy(Field(ta.value, "frames")) && IntOf(w.co, Field(ta.value, "frames").value).None?)
              || (Truthy(e.intent) && Truthy(e.trace)
                  && exists name :: (name, None) in Comparisons(w, e.intent.value, e.trace.value, Obj(receipt)))
  {
    if Truthy(e.intent) && Truthy(e.trace) {
      ComparableIff(Comparisons(w, e.intent.value, e.trace.value, Obj(receipt)));
    }
  }

  lemma ComparableIff(cs: seq<(string, Option<bool>)>)
    ensures (forall c | c in cs :: c.1.Some?) <==> !exists name :: (name, None) in cs
  {
    forall c | c in cs && c.1 == None ensures exists name :: (name, None) in cs {
      assert c == (c.0, None);
    }
  }
}
