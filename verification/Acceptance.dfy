/** Acceptance of a delivery: the verdict over a list of checks, and the disposition of the held
    amount that follows from it. */
module Acceptance {
  import opened Ledger
  import opened LedgerInvariant
  import opened LedgerTheorems
  import opened LedgerObject

  datatype Verdict = PASS | FAIL | UNKNOWN
  datatype State = ACCEPTED | REJECTED | UNDECIDED

  /** The seven kinds of check with their arguments; an argument of the wrong type is None. */
  datatype Kind =
    | DigestMatch(digest: Option<string>)
    | ArtifactPresent(count: Option<int>)
    | NoForbiddenCalls(forbidden: Option<seq<string>>)
    | BudgetWithinCeiling(jobId: string)
    | ReplayMatch
    | PublisherApproval
    | HumanJudgment

  datatype Replay = MATCH | MISMATCH | NoReplay

  datatype Evidence = Evidence(
    artifactSha256: Option<string>, artifactCount: Option<int>, calls: Option<seq<string>>,
    replay: Replay, publisherApproved: Option<bool>)

  const NO_EVIDENCE := Evidence(None, None, None, NoReplay, None)

  predicate Nonempty(s: Option<string>) {
    s.Some? && s.value != ""
  }

  predicate NonNegative(n: Option<int>) {
    n.Some? && n.value >= 0
  }

  function EvaluateCheck(k: Kind, e: Evidence, ledger: Option<Book>): Verdict {
    match k
    case DigestMatch(want) =>
      if !Nonempty(want) || !Nonempty(e.artifactSha256) then UNKNOWN
      else if want == e.artifactSha256 then PASS else FAIL
    case ArtifactPresent(want) =>
      if !NonNegative(want) || !NonNegative(e.artifactCount) then UNKNOWN
      else if e.artifactCount.value >= want.value then PASS else FAIL
    case NoForbiddenCalls(forbidden) =>
      if forbidden.None? || e.calls.None? then UNKNOWN
      else if exists c :: c in e.calls.value && c in forbidden.value then FAIL else PASS
    case BudgetWithinCeiling(jobId) =>
      if ledger.None? || jobId !in ledger.value.jobs then UNKNOWN
      else if ledger.value.jobs[jobId].committed > ledger.value.jobs[jobId].ceiling then FAIL else PASS
    case ReplayMatch =>
      (match e.replay case MATCH => PASS case MISMATCH => FAIL case NoReplay => UNKNOWN)
    case PublisherApproval =>
      (match e.publisherApproved case Some(true) => PASS case Some(false) => FAIL case None => UNKNOWN)
    case HumanJudgment => UNKNOWN
  }

  /** On every ledger that calls can produce, the budget check never fails. */
  lemma BudgetCheckNeverFails(ops: seq<Op>, jobId: string, e: Evidence)
    ensures EvaluateCheck(BudgetWithinCeiling(jobId), e, Some(Run(ops)))
         == if jobId in Run(ops).jobs then PASS else UNKNOWN
  {
    RunInv(ops);
    if jobId in Run(ops).jobs { JobWithinCeilingInv(Run(ops), jobId); }
  }

  function DispositionOf(s: State): Target {
    match s case ACCEPTED => ToReleased case REJECTED => ToRefunded case UNDECIDED => ToHeld
  }

  datatype Basis = MACHINE | JUDGMENT

  datatype Spec = Spec(jobId: string, basis: Basis, checks: seq<Kind>)

  /** The book of a ledger, if one is supplied. */
  function BookOf(ledger: BudgetLedger?): Option<Book>
    reads ledger
  {
    if ledger == null then None else Some(ledger.TheBook())
  }

  /** Evaluate every check, aggregate, and apply the disposition to the job's held amount. A spec
      without checks is undecided; without checks or without a job nothing moves. On a ledger that
      calls can produce, no budget check fails. */
  method EvaluateAcceptance(spec: Spec, e: Evidence, ledger: BudgetLedger?) returns (state: State, results: seq<Verdict>)
    requires ledger != null ==> ledger.Valid()
    modifies ledger
    ensures |results| == |spec.checks|
    ensures forall i :: 0 <= i < |results| ==> results[i] == EvaluateCheck(spec.checks[i], e, old(BookOf(ledger)))
    ensures state == REJECTED <==> FAIL in results
    ensures state == ACCEPTED <==> results != [] && forall i :: 0 <= i < |results| ==> results[i] == PASS
    ensures ledger != null ==> ledger.Valid()
    ensures ledger != null ==> forall i :: 0 <= i < |results| && spec.checks[i].BudgetWithinCeiling? ==> results[i] != FAIL
    ensures ledger != null && (spec.checks == [] || spec.jobId == "") ==> ledger.TheBook() == old(ledger.TheBook())
    ensures ledger != null && spec.checks != [] && spec.jobId != "" ==>
              ledger.TheBook() == DispositionStep(old(ledger.TheBook()), spec.jobId, DispositionOf(state), Absent).0
  {
    if spec.checks == [] { return UNDECIDED, []; }
    var book := BookOf(ledger);
    results := seq(|spec.checks|, i requires 0 <= i < |spec.checks| => EvaluateCheck(spec.checks[i], e, book));
    var anyFail := FAIL in results;
    var anyUnknown := UNKNOWN in results;
    state := if anyFail then REJECTED else if anyUnknown then UNDECIDED else ACCEPTED;
    if ledger != null {
      forall i | 0 <= i < |results| && spec.checks[i].BudgetWithinCeiling? ensures results[i] != FAIL {
        BudgetCheckNeverFails(ledger.history, spec.checks[i].jobId, e);
      }
    }
    if ledger != null && spec.jobId != "" {
      var applied := ledger.Disposition(spec.jobId, DispositionOf(state), Absent);
    }
  }

  /** What the three verdicts do to a job that holds money: everything held is released, everything
      held is refunded, or nothing changes at all. */
  lemma DispositionMovesAll(b: Book, jobId: string, state: State)
    requires Inv(b) && jobId in b.jobs && b.jobs[jobId].held > 0
    ensures var b', j := DispositionStep(b, jobId, DispositionOf(state), Absent).0, b.jobs[jobId];
            match state
            case ACCEPTED => b' == b.(jobs := b.jobs[jobId := j.(held := 0, released := j.released + j.held, state := JobReleased)])
            case REJECTED => b' == b.(jobs := b.jobs[jobId := j.(held := 0, refunded := j.refunded + j.held, state := JobRefunded)])
            case UNDECIDED => b' == b
  {
  }

  /** A spec that leans on human judgement can never be accepted, whatever the evidence. */
  lemma JudgmentNeverAccepted(spec: Spec, e: Evidence, ledger: Option<Book>, i: nat)
    requires i < |spec.checks| && spec.checks[i] == HumanJudgment
    ensures !(forall k :: 0 <= k < |spec.checks| ==> EvaluateCheck(spec.checks[k], e, ledger) == PASS)
  {
    assert EvaluateCheck(spec.checks[i], e, ledger) == UNKNOWN;
  }

  // ---------------------------------------------------------------------------------------------
  // Building a spec
  // ---------------------------------------------------------------------------------------------

  /** A check as declared: its kind, if it is one of the seven, and its id, if one is given. */
  datatype Declared = Declared(kind: Option<Kind>, id: Option<string>)

  datatype BuildResult =
    | NoJobId | NoChecks | UnknownCheckKind | InvalidCheckId | DuplicateCheckId | InvalidBasis | Built(spec: Spec)

  predicate GoodIds(cs: seq<Declared>) {
    && (forall i :: 0 <= i < |cs| ==> cs[i].id != Some(""))
    && (forall i, j :: 0 <= i < j < |cs| && cs[i].id.Some? ==> cs[i].id != cs[j].id)
  }

  /** The kinds that no machine decides. */
  predicate NeedsJudgment(k: Kind) {
    k.PublisherApproval? || k.HumanJudgment?
  }

  predicate WellDeclared(jobId: string, cs: seq<Declared>) {
    jobId != "" && cs != [] && forall c :: c in cs ==> c.kind.Some?
  }

  /** Go through the ids, refusing empty and repeated ones. */
  method CheckIds(cs: seq<Declared>) returns (bad: Option<BuildResult>)
    ensures bad.None? <==> GoodIds(cs)
    ensures bad.Some? ==> bad.value == InvalidCheckId || bad.value == DuplicateCheckId
    ensures bad == Some(InvalidCheckId) ==> exists i :: 0 <= i < |cs| && cs[i].id == Some("") && GoodIds(cs[..i])
    ensures bad == Some(DuplicateCheckId) ==>
              exists i, j :: 0 <= i < j < |cs| && cs[i].id.Some? && cs[i].id == cs[j].id && GoodIds(cs[..j])
  {
    var ids: set<string> := {};
    for n := 0 to |cs|
      invariant GoodIds(cs[..n])
      invariant forall x :: x in ids <==> exists i :: 0 <= i < n && cs[i].id == Some(x)
    {
      if cs[n].id.Some? {
        if cs[n].id.value == "" {
          assert cs[n].id == Some("");
          return Some(InvalidCheckId);
        }
        if cs[n].id.value in ids {
          var i :| 0 <= i < n && cs[i].id == Some(cs[n].id.value);
          return Some(DuplicateCheckId);
        }
        ids := ids + {cs[n].id.value};
      }
      assert cs[..n + 1] == cs[..n] + [cs[n]];
      assert forall i :: 0 <= i < n ==> cs[..n][i] == cs[i];
    }
    assert cs[..|cs|] == cs;
    return None;
  }

  /** Refuse empty specs, unknown kinds, empty ids, repeated ids and an unknown basis, in this order.
      Without a basis, one that follows from the kinds is declared. */
  method BuildAcceptanceSpec(jobId: string, cs: seq<Declared>, basis: string := "") returns (r: BuildResult)
    ensures r == NoJobId <==> jobId == ""
    ensures r == NoChecks <==> jobId != "" && cs == []
    ensures r == UnknownCheckKind <==> jobId != "" && exists c :: c in cs && c.kind == None
    ensures r == InvalidCheckId || r == DuplicateCheckId <==> WellDeclared(jobId, cs) && !GoodIds(cs)
    ensures r == InvalidCheckId ==> exists i :: 0 <= i < |cs| && cs[i].id == Some("") && GoodIds(cs[..i])
    ensures r == DuplicateCheckId ==>
              exists i, j :: 0 <= i < j < |cs| && cs[i].id.Some? && cs[i].id == cs[j].id && GoodIds(cs[..j])
    ensures r == InvalidBasis <==> WellDeclared(jobId, cs) && GoodIds(cs) && basis !in ["", "MACHINE", "JUDGMENT"]
    ensures r.Built? ==> r.spec.jobId == jobId && |r.spec.checks| == |cs|
    ensures r.Built? ==> forall i :: 0 <= i < |cs| ==> cs[i].kind == Some(r.spec.checks[i])
    ensures r.Built? ==> (r.spec.basis == JUDGMENT <==>
              basis == "JUDGMENT" || (basis == "" && exists k :: k in r.spec.checks && NeedsJudgment(k)))
  {
    if jobId == "" { return NoJobId; }
    if cs == [] { return NoChecks; }
    if exists c :: c in cs && c.kind == None { return UnknownCheckKind; }
    var bad := CheckIds(cs);
    if bad.Some? { return bad.value; }
    assert forall c :: c in cs ==> c.kind.Some?;
    var kinds := seq(|cs|, i requires 0 <= i < |cs| && cs[i].kind.Some? => cs[i].kind.value);
    var declared := if basis != "" then basis else if exists k :: k in kinds && NeedsJudgment(k) then "JUDGMENT" else "MACHINE";
    if declared !in ["MACHINE", "JUDGMENT"] { return InvalidBasis; }
    return Built(Spec(jobId, if declared == "JUDGMENT" then JUDGMENT else MACHINE, kinds));
  }

  /** When each check passes and when it fails. */
  lemma CheckIff(e: Evidence, ledger: Option<Book>, text: string, count: int, calls: seq<string>, job: string)
    ensures EvaluateCheck(DigestMatch(Some(text)), e, ledger) == PASS <==> text != "" && e.artifactSha256 == Some(text)
    ensures EvaluateCheck(DigestMatch(Some(text)), e, ledger) == FAIL <==>
              text != "" && e.artifactSha256.Some? && e.artifactSha256.value !in {"", text}
    ensures EvaluateCheck(ArtifactPresent(Some(count)), e, ledger) == PASS <==>
              0 <= count && e.artifactCount.Some? && count <= e.artifactCount.value
    ensures EvaluateCheck(ArtifactPresent(Some(count)), e, ledger) == FAIL <==>
              e.artifactCount.Some? && 0 <= e.artifactCount.value < count
    ensures EvaluateCheck(NoForbiddenCalls(Some(calls)), e, ledger) == PASS <==>
              e.calls.Some? && forall c :: c in calls ==> c !in e.calls.value
    ensures EvaluateCheck(NoForbiddenCalls(Some(calls)), e, ledger) == FAIL <==>
              e.calls.Some? && exists c :: c in calls && c in e.calls.value
    ensures EvaluateCheck(BudgetWithinCeiling(job), e, ledger) == PASS <==>
              ledger.Some? && job in ledger.value.jobs && ledger.value.jobs[job].committed <= ledger.value.jobs[job].ceiling
    ensures EvaluateCheck(ReplayMatch, e, ledger) == PASS <==> e.replay == MATCH
    ensures EvaluateCheck(ReplayMatch, e, ledger) == FAIL <==> e.replay == MISMATCH
    ensures EvaluateCheck(PublisherApproval, e, ledger) == PASS <==> e.publisherApproved == Some(true)
    ensures EvaluateCheck(PublisherApproval, e, ledger) == FAIL <==> e.publisherApproved == Some(false)
    ensures EvaluateCheck(HumanJudgment, e, ledger) == UNKNOWN
    ensures forall k :: k in {DigestMatch(None), ArtifactPresent(None), NoForbiddenCalls(None)} ==> EvaluateCheck(k, e, ledger) == UNKNOWN
  {
  }
}
