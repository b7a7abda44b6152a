/** The canonical form: sorted keys, lower-cased 0x-strings, safe integers only. The canonicalizer
    prints exactly the compact text of the normal form, so its output determines that form. */
module Canonical {
  import opened Json
  import opened JsonParse
  import opened JsonRoundTrip
  import opened StringOrder

  datatype CanonError = UnsafeInfinity | NonInteger | UnsafeNumber(r: real)
  datatype Canon = Text(text: string) | Refused(error: CanonError)

  function KeyList(ms: seq<Member>): seq<string> {
    seq(|ms|, i requires 0 <= i < |ms| => ms[i].key)
  }

  predicate HasKey(ms: seq<Member>, key: string) {
    exists i :: 0 <= i < |ms| && ms[i].key == key
  }

  /** The value of a key. */
  function Get(ms: seq<Member>, key: string): (v: Value)
    requires HasKey(ms, key)
    ensures Member(key, v) in ms
    decreases ms
  {
    if ms[0].key == key then ms[0].value
    else
      assert HasKey(ms[1..], key) by {
        var i :| 0 <= i < |ms| && ms[i].key == key;
        assert ms[1..][i - 1] == ms[i];
      }
      Get(ms[1..], key)
  }

  predicate HasKeys(ms: seq<Member>, keys: seq<string>) {
    forall i :: 0 <= i < |keys| ==> HasKey(ms, keys[i])
  }

  // ---------------------------------------------------------------------------------------------
  // The normal form
  // ---------------------------------------------------------------------------------------------

  /** Lower-case 0x-strings, and list the members of every object by ascending key. */
  function Normal(h: Host, v: Value): Value
    decreases v, 0, 0
  {
    match v
    case Str(s) => if "0x" <= s then Str(h.lower(s)) else v
    case Arr(es) => Arr(NormalElems(h, es))
    case Obj(ms) =>
      SortedHasKeys(ms);
      Obj(NormalMembers(h, ms, Sort(KeyList(ms))))
    case _ => v
  }

  function NormalElems(h: Host, es: seq<Value>): (r: seq<Value>)
    ensures |r| == |es| && forall i :: 0 <= i < |es| ==> r[i] == Normal(h, es[i])
    decreases es, 0, 0
  {
    if es == [] then [] else [Normal(h, es[0])] + NormalElems(h, es[1..])
  }

  function NormalMembers(h: Host, ms: seq<Member>, keys: seq<string>): (r: seq<Member>)
    requires HasKeys(ms, keys)
    ensures |r| == |keys| && forall i :: 0 <= i < |keys| ==> r[i] == Member(keys[i], Normal(h, Get(ms, keys[i])))
    decreases ms, 0, |keys|
  {
    if keys == [] then []
    else
      var v := Get(ms, keys[0]);
      assert Member(keys[0], v) in ms;
      [Member(keys[0], Normal(h, v))] + NormalMembers(h, ms, keys[1..])
  }

  lemma {:induction false} InsertElements(x: string, s: seq<string>, y: string)
    requires y in Insert(x, s)
    ensures y == x || y in s
  {
    if s != [] && !Before(x, s[0]) && y != s[0] { InsertElements(x, s[1..], y); }
  }

  lemma {:induction false} SortElements(s: seq<string>, y: string)
    requires y in Sort(s)
    ensures y in s
  {
    if s != [] {
      InsertElements(s[0], Sort(s[1..]), y);
      if y != s[0] { SortElements(s[1..], y); }
    }
  }

  lemma SortedHasKeys(ms: seq<Member>)
    ensures HasKeys(ms, Sort(KeyList(ms)))
  {
    var keys := Sort(KeyList(ms));
    forall j | 0 <= j < |keys| ensures HasKey(ms, keys[j]) {
      SortElements(KeyList(ms), keys[j]);
      var i :| 0 <= i < |ms| && KeyList(ms)[i] == keys[j];
      assert ms[i].key == keys[j];
    }
  }

  /** The sorted keys of a dictionary are its keys, ascending. */
  lemma SortedKeys(ms: seq<Member>)
    requires DistinctKeys(ms)
    ensures Ascending(Sort(KeyList(ms)))
    ensures forall k :: k in Sort(KeyList(ms)) <==> HasKey(ms, k)
  {
    var ks := KeyList(ms);
    SortFacts(ks);
    forall k ensures k in ks <==> HasKey(ms, k) {
      if k in ks {
        var i :| 0 <= i < |ms| && ks[i] == k;
        assert ms[i].key == k;
      }
      if HasKey(ms, k) {
        var i :| 0 <= i < |ms| && ms[i].key == k;
        assert ks[i] == k;
      }
    }
  }

  lemma GetUnique(ms: seq<Member>, m: Member)
    requires DistinctKeys(ms) && m in ms
    ensures HasKey(ms, m.key) && Get(ms, m.key) == m.value
  {
    var i :| 0 <= i < |ms| && ms[i] == m;
    assert ms[i].key == m.key;
    var v := Get(ms, m.key);
    var j :| 0 <= j < |ms| && ms[j] == Member(m.key, v);
    if i < j { assert ms[i].key != ms[j].key; }
    if j < i { assert ms[j].key != ms[i].key; }
  }

  lemma SameKey(ms: seq<Member>, ns: seq<Member>, key: string)
    requires forall m :: m in ms ==> m in ns
    ensures HasKey(ms, key) ==> HasKey(ns, key)
  {
    if HasKey(ms, key) {
      var i :| 0 <= i < |ms| && ms[i].key == key;
      assert ms[i] in ns;
    }
  }

  /** The order of a dictionary's members does not reach its normal form. */
  lemma OrderInsensitive(h: Host, ms: seq<Member>, ns: seq<Member>)
    requires DistinctKeys(ms) && DistinctKeys(ns) && forall m :: m in ms <==> m in ns
    ensures Normal(h, Obj(ms)) == Normal(h, Obj(ns))
  {
    SortedKeys(ms);
    SortedKeys(ns);
    SortedHasKeys(ms);
    SortedHasKeys(ns);
    var ks := Sort(KeyList(ms));
    forall k ensures HasKey(ms, k) <==> HasKey(ns, k) {
      SameKey(ms, ns, k);
      SameKey(ns, ms, k);
    }
    AscendingUnique(ks, Sort(KeyList(ns)));
    var a, b := NormalMembers(h, ms, ks), NormalMembers(h, ns, ks);
    forall i | 0 <= i < |ks| ensures a[i] == b[i] {
      var v := Get(ms, ks[i]);
      GetUnique(ns, Member(ks[i], v));
    }
    assert a == b;
  }

  // ---------------------------------------------------------------------------------------------
  // Refusals
  // ---------------------------------------------------------------------------------------------

  function NumError(x: Double): Option<CanonError> {
    if x.NonFinite? then Some(UnsafeInfinity)
    else if x.r.Floor as real != x.r then Some(NonInteger)
    else if IsSafeInt(x.r) then None
    else Some(UnsafeNumber(x.r))
  }

  /** The first number that cannot be canonicalized, in printing order. */
  function FirstError(v: Value): (e: Option<CanonError>)
    ensures e == None <==> AllSafe(v)
    decreases v, 0
  {
    match v
    case Num(x) => NumError(x)
    case Arr(es) => FirstElemError(es)
    case Obj(ms) => FirstMemberError(ms)
    case _ => None
  }

  lemma ElemsSafeCons(es: seq<Value>)
    requires es != []
    ensures (forall x | x in es :: AllSafe(x)) <==> AllSafe(es[0]) && forall x | x in es[1..] :: AllSafe(x)
  {
    assert es == [es[0]] + es[1..];
    assert forall x | x in es[1..] :: x in es;
    assert forall x | x in es :: x == es[0] || x in es[1..];
  }

  function FirstElemError(es: seq<Value>): (e: Option<CanonError>)
    ensures e == None <==> forall x | x in es :: AllSafe(x)
    decreases es, 0
  {
    if es == [] then None
    else
      ElemsSafeCons(es);
      var e := FirstError(es[0]);
      if e.Some? then e else FirstElemError(es[1..])
  }

  function FirstMemberError(ms: seq<Member>): (e: Option<CanonError>)
    ensures e == None <==> forall m | m in ms :: AllSafe(m.value)
    decreases ms, 0
  {
    if ms == [] then None
    else
      assert ms == [ms[0]] + ms[1..];
      var e := FirstError(ms[0].value);
      if e.Some? then e else FirstMemberError(ms[1..])
  }

  /** What canonicalization gives: the compact text of the normal form, or the first refusal in it. */
  function CanonOf(h: Host, v: Value): Canon {
    match FirstError(Normal(h, v))
    case None => Text(Ser(h, Normal(h, v)))
    case Some(e) => Refused(e)
  }

  // ---------------------------------------------------------------------------------------------
  // The canonicalizer
  // ---------------------------------------------------------------------------------------------

  method Canonicalize(h: Host, v: Value) returns (r: Canon)
    requires HostOk(h) && IsDict(v)
    ensures r == CanonOf(h, v)
    decreases v, 0, 0
  {
    match v
    case Null => return Text("null");
    case Bool(b) => return Text(if b then "true" else "false");
    case Num(x) =>
      if x == Fin(0.0) { return Text("0"); }
      if x.NonFinite? { return Refused(UnsafeInfinity); }
      if x.r.Floor as real != x.r { return Refused(NonInteger); }
      if !(-MAX_SAFE <= x.r.Floor <= MAX_SAFE) { return Refused(UnsafeNumber(x.r)); }
      var t := FmtF64(h, x);
      return Text(t);
    case Str(s) => return Text(if "0x" <= s then Quote(h.lower(s)) else Quote(s));
    case Arr(es) =>
      var body := CanonElems(h, es);
      if body.Refused? { return body; }
      return Text("[" + body.text + "]");
    case Obj(ms) =>
      var body := CanonMembers(h, ms);
      if body.Refused? { return body; }
      return Text("{" + body.text + "}");
  }

  /** The elements of an array, joined by commas. */
  method CanonElems(h: Host, es: seq<Value>) returns (r: Canon)
    requires HostOk(h) && forall e | e in es :: IsDict(e)
    ensures r == match FirstElemError(NormalElems(h, es))
                 case None => Text(SerElems(h, NormalElems(h, es)))
                 case Some(e) => Refused(e)
    decreases es, 0, 0
  {
    ghost var ns := NormalElems(h, es);
    var text := "";
    assert ns[0..] == ns;
    for i := 0 to |es|
      invariant text + ElemsFrom(h, ns, i) == SerElems(h, ns)
      invariant FirstElemError(ns) == FirstElemError(ns[i..])
    {
      assert ns[i..][1..] == ns[i + 1..] && ns[i..][0] == ns[i];
      ElemsStep(h, ns, i, text);
      if i > 0 { text := text + ","; } else { assert text + "" == text; }
      var part := Canonicalize(h, es[i]);
      if part.Refused? { return part; }
      text := text + part.text;
    }
    return Text(text);
  }

  /** The members of an object by ascending key, joined by commas. */
  method CanonMembers(h: Host, ms: seq<Member>) returns (r: Canon)
    requires HostOk(h) && IsDict(Obj(ms))
    ensures var ns := Normal(h, Obj(ms)).members;
            r == match FirstMemberError(ns) case None => Text(SerMembers(h, ns)) case Some(e) => Refused(e)
    decreases ms, 0, 0
  {
    var keys := Sort(KeyList(ms));
    SortedHasKeys(ms);
    ghost var ns := NormalMembers(h, ms, keys);
    var text := "";
    assert ns[0..] == ns;
    for i := 0 to |keys|
      invariant text + MembersFrom(h, ns, i) == SerMembers(h, ns)
      invariant FirstMemberError(ns) == FirstMemberError(ns[i..])
    {
      assert ns[i..][1..] == ns[i + 1..] && ns[i..][0] == ns[i];
      MembersStep(h, ns, i, text);
      if i > 0 { text := text + ","; } else { assert text + "" == text; }
      var v := Get(ms, keys[i]);
      assert Member(keys[i], v) in ms;
      var part := Canonicalize(h, v);
      if part.Refused? { return part; }
      MemberText(h, ns[i], text);
      text := text + Quote(keys[i]) + ":" + part.text;
    }
    return Text(text);
  }

  lemma MemberText(h: Host, m: Member, text: string)
    ensures text + Quote(m.key) + ":" + Ser(h, m.value) == text + SerMember(h, m)
  {
  }

  // ---------------------------------------------------------------------------------------------
  // What the normal form keeps
  // ---------------------------------------------------------------------------------------------

  lemma {:induction false} NormalIsDict(h: Host, v: Value)
    requires IsDict(v)
    ensures IsDict(Normal(h, v))
    decreases v
  {
    match v
    case Arr(es) =>
      forall e | e in NormalElems(h, es) ensures IsDict(e) {
        var i :| 0 <= i < |es| && NormalElems(h, es)[i] == e;
        NormalIsDict(h, es[i]);
      }
    case Obj(ms) =>
      SortedKeys(ms);
      SortedHasKeys(ms);
      var keys := Sort(KeyList(ms));
      var ns := NormalMembers(h, ms, keys);
      forall i, j | 0 <= i < j < |ns| ensures ns[i].key != ns[j].key {
        BeforeIrreflexive(keys[i]);
      }
      forall m | m in ns ensures IsDict(m.value) {
        var i :| 0 <= i < |keys| && ns[i] == m;
        var v' := Get(ms, keys[i]);
        assert Member(keys[i], v') in ms;
        NormalIsDict(h, v');
      }
    case _ =>
  }

  /** The keys of every object in the value come in ascending order, and each once. */
  ghost predicate KeysAscend(v: Value) {
    match v
    case Arr(es) => forall e | e in es :: KeysAscend(e)
    case Obj(ms) =>
      && (forall i, j :: 0 <= i < j < |ms| ==> Precedes(ms[i].key, ms[j].key))
      && (forall m | m in ms :: KeysAscend(m.value))
    case _ => true
  }

  lemma {:induction false} NormalKeysAscend(h: Host, v: Value)
    requires IsDict(v)
    ensures KeysAscend(Normal(h, v))
    decreases v
  {
    match v
    case Arr(es) =>
      forall e | e in NormalElems(h, es) ensures KeysAscend(e) {
        var i :| 0 <= i < |es| && NormalElems(h, es)[i] == e;
        NormalKeysAscend(h, es[i]);
      }
    case Obj(ms) =>
      SortedKeys(ms);
      SortedHasKeys(ms);
      var keys := Sort(KeyList(ms));
      AscendingIff(keys);
      var ns := NormalMembers(h, ms, keys);
      forall m | m in ns ensures KeysAscend(m.value) {
        var i :| 0 <= i < |keys| && ns[i] == m;
        assert Member(keys[i], Get(ms, keys[i])) in ms;
        NormalKeysAscend(h, Get(ms, keys[i]));
      }
    case _ =>
  }

  /** Normalizing keeps every number. */
  lemma {:induction false} NormalSafe(h: Host, v: Value)
    requires IsDict(v)
    ensures AllSafe(Normal(h, v)) <==> AllSafe(v)
    decreases v, 1
  {
    match v
    case Arr(es) =>
      var ns := NormalElems(h, es);
      forall i | 0 <= i < |es| ensures AllSafe(ns[i]) <==> AllSafe(es[i]) { NormalSafe(h, es[i]); }
      SafeElems(es);
      SafeElems(ns);
    case Obj(ms) => NormalMembersSafe(h, ms);
    case _ =>
  }

  lemma SafeElems(es: seq<Value>)
    ensures AllSafe(Arr(es)) <==> forall i :: 0 <= i < |es| ==> AllSafe(es[i])
  {
  }

  lemma SafeMembers(ms: seq<Member>)
    ensures AllSafe(Obj(ms)) <==> forall i :: 0 <= i < |ms| ==> AllSafe(ms[i].value)
  {
  }

  lemma {:induction false} NormalMembersSafe(h: Host, ms: seq<Member>)
    requires IsDict(Obj(ms))
    ensures AllSafe(Normal(h, Obj(ms))) <==> AllSafe(Obj(ms))
    decreases Obj(ms), 0
  {
    SortedHasKeys(ms);
    var keys := Sort(KeyList(ms));
    var ns := NormalMembers(h, ms, keys);
    SafeMembers(ms);
    SafeMembers(ns);
    forall i | 0 <= i < |keys| ensures AllSafe(ns[i].value) <==> AllSafe(Get(ms, keys[i])) {
      assert Member(keys[i], Get(ms, keys[i])) in ms;
      NormalSafe(h, Get(ms, keys[i]));
    }
    if AllSafe(Obj(ns)) {
      forall j | 0 <= j < |ms| ensures AllSafe(ms[j].value) {
        var i := KeyIndex(ms, ms[j]);
        assert AllSafe(ns[i].value);
      }
    }
  }

  /** The canonicalizer accepts exactly the values in which every number is a safe integer. */
  lemma AcceptedIffSafe(h: Host, v: Value)
    requires IsDict(v)
    ensures CanonOf(h, v).Text? <==> AllSafe(v)
  {
    NormalSafe(h, v);
  }

  /** Normalizing keeps the nesting depth. */
  lemma {:induction false} NormalDepth(h: Host, v: Value, n: nat)
    requires IsDict(v)
    ensures Depth(Normal(h, v)) <= n <==> Depth(v) <= n
    decreases v, 1
  {
    if n > 0 {
      match v
      case Arr(es) => NormalElemsDepth(h, es, n - 1);
      case Obj(ms) =>
        SortedHasKeys(ms);
        NormalMembersDepth(h, ms, n - 1);
      case _ =>
    }
  }

  lemma {:induction false} NormalElemsDepth(h: Host, es: seq<Value>, n: nat)
    requires forall e | e in es :: IsDict(e)
    ensures DepthElems(NormalElems(h, es)) <= n <==> DepthElems(es) <= n
    decreases es, 0
  {
    var ns := NormalElems(h, es);
    DepthElemsBound(es, n);
    DepthElemsBound(ns, n);
    forall i | 0 <= i < |es| ensures Depth(ns[i]) <= n <==> Depth(es[i]) <= n {
      NormalDepth(h, es[i], n);
    }
  }

  lemma {:induction false} NormalMembersDepth(h: Host, ms: seq<Member>, n: nat)
    requires IsDict(Obj(ms)) && HasKeys(ms, Sort(KeyList(ms)))
    ensures DepthMembers(NormalMembers(h, ms, Sort(KeyList(ms)))) <= n <==> DepthMembers(ms) <= n
    decreases ms, 0
  {
    var keys := Sort(KeyList(ms));
    var ns := NormalMembers(h, ms, keys);
    DepthMembersBound(ms, n);
    DepthMembersBound(ns, n);
    forall i | 0 <= i < |keys| ensures Depth(ns[i].value) <= n <==> Depth(Get(ms, keys[i])) <= n {
      assert Member(keys[i], Get(ms, keys[i])) in ms;
      NormalDepth(h, Get(ms, keys[i]), n);
    }
    if forall i :: 0 <= i < |ns| ==> Depth(ns[i].value) <= n {
      forall j | 0 <= j < |ms| ensures Depth(ms[j].value) <= n {
        var i := KeyIndex(ms, ms[j]);
        assert Depth(ns[i].value) <= n;
      }
    }
    if forall j :: 0 <= j < |ms| ==> Depth(ms[j].value) <= n {
      forall i | 0 <= i < |ns| ensures Depth(ns[i].value) <= n {
        var j :| 0 <= j < |ms| && ms[j] == Member(keys[i], Get(ms, keys[i]));
      }
    }
  }

  lemma KeyIndex(ms: seq<Member>, m: Member) returns (i: nat)
    requires DistinctKeys(ms) && m in ms
    ensures i < |Sort(KeyList(ms))| && Sort(KeyList(ms))[i] == m.key
    ensures HasKey(ms, m.key) && Get(ms, m.key) == m.value
  {
    SortedKeys(ms);
    GetUnique(ms, m);
    i :| 0 <= i < |Sort(KeyList(ms))| && Sort(KeyList(ms))[i] == m.key;
  }

  lemma {:induction false} NormalTwice(h: Host, v: Value)
    requires HostOk(h) && IsDict(v)
    ensures Normal(h, Normal(h, v)) == Normal(h, v)
    decreases v
  {
    match v
    case Str(s) => if "0x" <= s { assert "0x" <= h.lower(s); }
    case Arr(es) =>
      var ns := NormalElems(h, es);
      forall i | 0 <= i < |es| ensures Normal(h, ns[i]) == ns[i] {
        NormalTwice(h, es[i]);
      }
      assert NormalElems(h, ns) == ns;
    case Obj(ms) =>
      var keys := Sort(KeyList(ms));
      SortedKeys(ms);
      SortedHasKeys(ms);
      var ns := NormalMembers(h, ms, keys);
      NormalIsDict(h, v);
      SortedKeys(ns);
      SortedHasKeys(ns);
      var keys' := Sort(KeyList(ns));
      SameKeys(ns, keys);
      AscendingUnique(keys, keys');
      var again := NormalMembers(h, ns, keys');
      forall i | 0 <= i < |keys| ensures again[i] == ns[i] {
        assert ns[i] in ns;
        GetUnique(ns, ns[i]);
        assert Member(keys[i], Get(ms, keys[i])) in ms;
        NormalTwice(h, Get(ms, keys[i]));
      }
      assert again == ns;
    case _ =>
  }

  lemma SameKeys(ns: seq<Member>, keys: seq<string>)
    requires |ns| == |keys| && forall i :: 0 <= i < |keys| ==> ns[i].key == keys[i]
    ensures forall k :: k in keys <==> HasKey(ns, k)
  {
    forall k | k in keys ensures HasKey(ns, k) {
      var i :| 0 <= i < |keys| && keys[i] == k;
      assert ns[i].key == k;
    }
  }

  /** What the normal form of a value is: texts that start with 0x are lowered, and lists keep their order. */
  lemma NormalMeans(h: Host, s: string, es: seq<Value>)
    ensures Normal(h, Str(s)) == if |s| >= 2 && s[0] == '0' && s[1] == 'x' then Str(h.lower(s)) else Str(s)
    ensures Normal(h, Arr(es)).Arr? && |Normal(h, Arr(es)).elems| == |es|
    ensures forall i :: 0 <= i < |es| ==> Normal(h, Arr(es)).elems[i] == Normal(h, es[i])
  {
    assert "0x" <= s <==> |s| >= 2 && s[0] == '0' && s[1] == 'x';
  }

  /** An object keeps its keys, each with the normal form of its value. */
  lemma NormalMemberIff(h: Host, ms: seq<Member>, k: string, x: Value)
    requires DistinctKeys(ms)
    ensures Normal(h, Obj(ms)).Obj?
    ensures Member(k, x) in Normal(h, Obj(ms)).members <==> exists v :: Member(k, v) in ms && x == Normal(h, v)
  {
    SortedHasKeys(ms);
    SortedKeys(ms);
    NormalMembersIff(h, ms, Sort(KeyList(ms)), NormalMembers(h, ms, Sort(KeyList(ms))), k, x);
  }

  lemma NormalMembersIff(h: Host, ms: seq<Member>, keys: seq<string>, ns: seq<Member>, k: string, x: Value)
    requires DistinctKeys(ms) && HasKeys(ms, keys) && ns == NormalMembers(h, ms, keys)
    requires forall y :: y in keys <==> HasKey(ms, y)
    ensures Member(k, x) in ns <==> exists v :: Member(k, v) in ms && x == Normal(h, v)
  {
    if v :| Member(k, v) in ms && x == Normal(h, v) {
      GetUnique(ms, Member(k, v));
      var i :| 0 <= i < |keys| && keys[i] == k;
      assert ns[i] == Member(k, x);
    }
    if Member(k, x) in ns {
      var i :| 0 <= i < |ns| && ns[i] == Member(k, x);
      assert keys[i] == k;
      assert Member(k, Get(ms, k)) in ms;
    }
  }

  // ---------------------------------------------------------------------------------------------
  // Main results
  // ---------------------------------------------------------------------------------------------

  /** Parsing canonical text gives the normal form, exactly when the value is within the depth cap. */
  lemma CanonicalParses(h: Host, v: Value)
    requires HostOk(h) && IsDict(v) && CanonOf(h, v).Text?
    ensures ReadDocument(h, CanonOf(h, v).text, MAX_DEPTH)
         == if Depth(v) <= MAX_DEPTH then Ok(Normal(h, v)) else Err(TooDeep)
  {
    NormalIsDict(h, v);
    NormalDepth(h, v, MAX_DEPTH);
    ParseInvertsSerialize(h, Normal(h, v), MAX_DEPTH);
  }

  /** Reading canonical text back gives objects whose keys ascend, at every depth. */
  lemma CanonicalKeysAscend(h: Host, v: Value)
    requires HostOk(h) && IsDict(v) && CanonOf(h, v).Text? && Depth(v) <= MAX_DEPTH
    ensures ReadDocument(h, CanonOf(h, v).text, MAX_DEPTH).Ok?
    ensures KeysAscend(ReadDocument(h, CanonOf(h, v).text, MAX_DEPTH).value)
  {
    CanonicalParses(h, v);
    NormalKeysAscend(h, v);
  }

  /** Two values have the same canonical text exactly when they have the same normal form. */
  lemma CanonicalDetermines(h: Host, v: Value, w: Value)
    requires HostOk(h) && IsDict(v) && IsDict(w) && CanonOf(h, v).Text? && CanonOf(h, w).Text?
    ensures CanonOf(h, v) == CanonOf(h, w) <==> Normal(h, v) == Normal(h, w)
  {
    NormalIsDict(h, v);
    NormalIsDict(h, w);
    if CanonOf(h, v) == CanonOf(h, w) { SerInjective(h, Normal(h, v), Normal(h, w)); }
  }

  /** Canonicalizing what the canonical text parses to changes nothing. */
  lemma CanonicalIdempotent(h: Host, v: Value)
    requires HostOk(h) && IsDict(v) && CanonOf(h, v).Text? && Depth(v) <= MAX_DEPTH
    ensures var p := ReadDocument(h, CanonOf(h, v).text, MAX_DEPTH);
            p.Ok? && CanonOf(h, p.value) == CanonOf(h, v)
  {
    CanonicalParses(h, v);
    NormalTwice(h, v);
  }

  // ---------------------------------------------------------------------------------------------
  // Domain-separated hashing
  // ---------------------------------------------------------------------------------------------

  /** The hash of the tag followed by the canonical text. */
  function DomainHash<H>(sha: string -> H, h: Host, tag: string, v: Value): Option<H> {
    match CanonOf(h, v)
    case Text(t) => Some(sha(tag + t))
    case Refused(_) => None
  }

  ghost predicate Injective<H(!new)>(sha: string -> H) {
    forall s, t :: sha(s) == sha(t) ==> s == t
  }

  /** Under one tag, equal hashes mean equal normal forms, and equal normal forms equal hashes. */
  lemma HashBindsNormalForm<H(!new)>(sha: string -> H, h: Host, tag: string, v: Value, w: Value)
    requires HostOk(h) && IsDict(v) && IsDict(w) && Injective(sha)
    requires CanonOf(h, v).Text? && CanonOf(h, w).Text?
    ensures DomainHash(sha, h, tag, v) == DomainHash(sha, h, tag, w) <==> Normal(h, v) == Normal(h, w)
  {
    var a, b := CanonOf(h, v).text, CanonOf(h, w).text;
    if sha(tag + a) == sha(tag + b) {
      assert (tag + a)[|tag|..] == a && (tag + b)[|tag|..] == b;
    }
    CanonicalDetermines(h, v, w);
  }
}
