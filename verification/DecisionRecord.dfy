/** Frozen decision records: the record's reference is the hash of its other fields. */
module DecisionRecord {
  import opened Json
  import opened JsonParse
  import opened JsonRoundTrip
  import opened Canonical
  import opened Commitment
  import opened LowerCase
  import opened StringOrder

  const DECISION_DOMAIN := "CGEP/1:FW-DECISION"
  const OWN := "decisionRef"

  function DecisionRecordRef(sha: string -> string, h: Host, core: seq<Member>): Option<string> {
    HashOf(sha, h, DECISION_DOMAIN, Without(core, OWN))
  }

  datatype Frozen = Frozen(record: seq<Member>, canonical: string, decisionRef: string)

  /** Freeze: hash what the canonical text parses back to, and add the hash as a field. None when
      the record cannot be canonicalized. */
  function FreezeDecisionRecord(sha: string -> string, h: Host, core: seq<Member>): Option<Frozen> {
    var body := Without(core, OWN);
    match CanonOf(h, Obj(body))
    case Refused(_) => None
    case Text(canonical) =>
      match ReadDocument(h, canonical, Depth(Obj(body)))
      case Err(_) => None
      case Ok(parsed) =>
        match DomainHash(sha, h, DECISION_DOMAIN, parsed)
        case None => None
        case Some(decisionRef) => Some(Frozen(body + [Member(OWN, Str(decisionRef))], canonical, decisionRef))
  }

  lemma {:induction false} WithoutAppended(ms: seq<Member>, key: string, v: Value)
    ensures Without(Without(ms, key) + [Member(key, v)], key) == Without(ms, key)
  {
    WithoutJoin(Without(ms, key), [Member(key, v)], key);
    WithoutTwice(ms, key);
    assert [Member(key, v)][1..] == [];
  }

  lemma {:induction false} WithoutJoin(a: seq<Member>, b: seq<Member>, key: string)
    ensures Without(a + b, key) == Without(a, key) + Without(b, key)
  {
    if a == [] {
      assert a + b == b;
    } else {
      assert (a + b)[1..] == a[1..] + b && (a + b)[0] == a[0];
      WithoutJoin(a[1..], b, key);
    }
  }

  lemma {:induction false} WithoutTwice(ms: seq<Member>, key: string)
    ensures Without(Without(ms, key), key) == Without(ms, key)
  {
    if ms != [] {
      var rest := Without(ms[1..], key);
      WithoutTwice(ms[1..], key);
      if ms[0].key == key {
        assert Without(ms, key) == rest;
      } else {
        assert Without(ms, key) == [ms[0]] + rest && ([ms[0]] + rest)[1..] == rest;
      }
    }
  }

  /** Hashing the parsed canonical text is hashing the body itself. */
  lemma ParsedHash(sha: string -> string, h: Host, body: seq<Member>)
    requires HostOk(h) && IsDict(Obj(body)) && CanonOf(h, Obj(body)).Text?
    ensures var p := ReadDocument(h, CanonOf(h, Obj(body)).text, Depth(Obj(body)));
            p.Ok? && DomainHash(sha, h, DECISION_DOMAIN, p.value) == HashOf(sha, h, DECISION_DOMAIN, body)
  {
    var v := Obj(body);
    NormalIsDict(h, v);
    NormalDepth(h, v, Depth(v));
    ParseInvertsSerialize(h, Normal(h, v), Depth(v));
    NormalTwice(h, v);
  }

  /** A frozen record re-derives its own reference, whatever the given record claimed. Freezing fails
      exactly when the record has no reference. */
  lemma FrozenRefRederives(sha: string -> string, h: Host, core: seq<Member>)
    requires HostOk(h) && IsDict(Obj(core))
    ensures FreezeDecisionRecord(sha, h, core).None? <==> DecisionRecordRef(sha, h, core).None?
    ensures var f := FreezeDecisionRecord(sha, h, core);
            f.Some? ==>
              && DecisionRecordRef(sha, h, f.value.record) == Some(f.value.decisionRef)
              && DecisionRecordRef(sha, h, core) == Some(f.value.decisionRef)
  {
    WithoutDict(core, OWN);
    var body := Without(core, OWN);
    if CanonOf(h, Obj(body)).Text? {
      ParsedHash(sha, h, body);
      var f := FreezeDecisionRecord(sha, h, core);
      if f.Some? { WithoutAppended(core, OWN, Str(f.value.decisionRef)); }
    }
  }

  /** What the reference is: the hash, under its tag, of the canonical text of the other fields. It is
      added to them as the field decisionRef. */
  lemma ReferenceIs(sha: string -> string, h: Host, core: seq<Member>, text: string)
    requires HostOk(h) && IsDict(Obj(core)) && CanonOf(h, Obj(Without(core, "decisionRef"))) == Text(text)
    ensures DecisionRecordRef(sha, h, core) == Some(sha("CGEP/1:FW-DECISION" + text))
    ensures var f := FreezeDecisionRecord(sha, h, core);
            f.Some? && f.value.canonical == text && f.value.decisionRef == sha("CGEP/1:FW-DECISION" + text)
            && f.value.record == Without(core, "decisionRef") + [Member("decisionRef", Str(sha("CGEP/1:FW-DECISION" + text)))]
  {
    WithoutDict(core, OWN);
    ParsedHash(sha, h, Without(core, OWN));
  }

  /** Two records carry the same reference exactly when their other fields have one normal form. */
  lemma RefBindsContent(sha: string -> string, h: Host, a: seq<Member>, b: seq<Member>)
    requires HostOk(h) && Injective(sha) && IsDict(Obj(a)) && IsDict(Obj(b))
    requires FreezeDecisionRecord(sha, h, a).Some? && FreezeDecisionRecord(sha, h, b).Some?
    ensures FreezeDecisionRecord(sha, h, a).value.decisionRef == FreezeDecisionRecord(sha, h, b).value.decisionRef
            <==> Normal(h, Obj(Without(a, OWN))) == Normal(h, Obj(Without(b, OWN)))
  {
    FrozenRefRederives(sha, h, a);
    FrozenRefRederives(sha, h, b);
    WithoutDict(a, OWN);
    WithoutDict(b, OWN);
    HashBindsNormalForm(sha, h, DECISION_DOMAIN, Obj(Without(a, OWN)), Obj(Without(b, OWN)));
  }

  /** A record of one text field. */
  function Claiming(text: string): seq<Member> {
    [Member("to", Str(text))]
  }

  lemma ClaimingFacts(h: Host, text: string)
    requires "0x" <= text
    ensures IsDict(Obj(Claiming(text))) && Without(Claiming(text), OWN) == Claiming(text)
    ensures CanonOf(h, Obj(Claiming(text))).Text?
    ensures Normal(h, Obj(Claiming(text))) == Obj([Member("to", Str(h.lower(text)))])
  {
    var ms := Claiming(text);
    assert ms[1..] == [] && Without(ms[1..], OWN) == [];
    assert KeyList(ms) == ["to"] && ["to"][1..] == [];
    assert Sort(["to"]) == ["to"];
  }

  /** The description says that different content never claims one reference. Two records that differ
      in the case of an address do, under every host that lowers one to the other. */
  lemma CaseIsNotBound(sha: string -> string, h: Host)
    requires HostOk(h) && Injective(sha) && h.lower("0xAB") == "0xab"
    ensures var a, b := Claiming("0xAB"), Claiming("0xab");
            && a != b && FreezeDecisionRecord(sha, h, a).Some? && FreezeDecisionRecord(sha, h, b).Some?
            && FreezeDecisionRecord(sha, h, a).value.decisionRef == FreezeDecisionRecord(sha, h, b).value.decisionRef
  {
    var a, b := Claiming("0xAB"), Claiming("0xab");
    ClaimingFacts(h, "0xAB");
    ClaimingFacts(h, "0xab");
    assert h.lower(h.lower("0xAB")) == h.lower("0xAB");
    assert a[0].value.s != b[0].value.s;
    FrozenRefRederives(sha, h, a);
    FrozenRefRederives(sha, h, b);
    RefBindsContent(sha, h, a, b);
  }

  /** There is such a host, and a hash to go with it. */
  lemma LoweringHostExists() returns (sha: string -> string, h: Host)
    ensures HostOk(h) && Injective(sha) && h.lower("0xAB") == "0xab"
  {
    var g := HostExists();
    h := Host(g.toDouble, g.hexVal, Lower, g.repr, g.wide);
    sha := (s: string) => s;
    forall s: string ensures h.lower(h.lower(s)) == h.lower(s) && ("0x" <= s ==> "0x" <= h.lower(s)) { LowerTwice(s); }
    assert Lower("0xAB") == "0xab";
  }
}
