/** EIP-712 encodeType: the closure of a possibly cyclic graph of struct types. */
module Eip712 {
  import opened StringOrder

  datatype Field = Field(typ: string, name: string)

  /** Struct types by name. */
  type Types = map<string, seq<Field>>

  const DOMAIN := "EIP712Domain"

  /** A type name without one trailing pair of brackets. */
  function Base(typ: string): string {
    if |typ| >= 2 && typ[|typ| - 2..] == "[]" then typ[..|typ| - 2] else typ
  }

  function FieldsOf(types: Types, n: string): seq<Field> {
    if n in types then types[n] else []
  }

  /** The algorithm follows a field from a to the struct b: the fields of the domain are not followed. */
  ghost predicate Edge(types: Types, a: string, b: string) {
    a != DOMAIN && b in types && exists i :: 0 <= i < |FieldsOf(types, a)| && Base(FieldsOf(types, a)[i].typ) == b
  }

  ghost predicate Path(types: Types, path: seq<string>) {
    path != [] && forall i :: 0 < i < |path| ==> Edge(types, path[i - 1], path[i])
  }

  ghost predicate Reachable(types: Types, p: string, n: string) {
    exists path: seq<string> :: Path(types, path) && path[0] == p && path[|path| - 1] == n
  }

  lemma ReachableSelf(types: Types, p: string)
    ensures Reachable(types, p, p)
  {
    assert Path(types, [p]) && [p][0] == p;
  }

  lemma ReachableStep(types: Types, p: string, a: string, b: string)
    requires Reachable(types, p, a) && Edge(types, a, b)
    ensures Reachable(types, p, b)
  {
    var path: seq<string> :| Path(types, path) && path[0] == p && path[|path| - 1] == a;
    var longer := path + [b];
    assert Path(types, longer) && longer[0] == p && longer[|longer| - 1] == b;
  }

  /** A set that holds p and is closed under the edges holds everything reachable from p. */
  lemma {:induction false} ClosedHolds(types: Types, found: set<string>, path: seq<string>)
    requires Path(types, path) && path[0] in found
    requires forall a, b :: a in found && Edge(types, a, b) ==> b in found
    ensures path[|path| - 1] in found
  {
    if |path| > 1 {
      var front := path[..|path| - 1];
      ClosedHolds(types, found, front);
      assert Edge(types, path[|path| - 2], path[|path| - 1]);
    }
  }

  // ---------------------------------------------------------------------------------------------
  // The worklist
  // ---------------------------------------------------------------------------------------------

  ghost predicate Distinct(s: seq<string>) {
    forall i, j :: 0 <= i < j < |s| ==> s[i] != s[j]
  }

  /** What is seen is reachable; a seen type waits in the queue or has all its targets seen. */
  ghost predicate Explored(types: Types, p: string, seen: seq<string>, queue: seq<string>) {
    && Distinct(seen) && p in seen
    && (forall n :: n in seen ==> Reachable(types, p, n) && (n in types || n == p))
    && (forall n :: n in queue ==> n in seen)
    && (forall a, b :: a in seen && a !in queue && Edge(types, a, b) ==> b in seen)
  }

  lemma {:induction false} DistinctSize(s: seq<string>, names: set<string>)
    requires Distinct(s) && forall n :: n in s ==> n in names
    ensures |s| <= |names|
  {
    if s != [] {
      var front, last := s[..|s| - 1], s[|s| - 1];
      assert forall n :: n in front ==> n in s && n != last;
      DistinctSize(front, names - {last});
    }
  }

  /** Follow the fields of one struct: targets not seen before are marked and queued. */
  method Visit(types: Types, ghost p: string, name: string, seen: seq<string>, queue: seq<string>)
    returns (seen': seq<string>, queue': seq<string>)
    requires Explored(types, p, seen, [name] + queue) && name != DOMAIN
    ensures Explored(types, p, seen', queue')
    ensures seen <= seen' && (|seen'| == |seen| ==> queue' == queue)
  {
    seen', queue' := seen, queue;
    var fields := FieldsOf(types, name);
    for i := 0 to |fields|
      invariant Explored(types, p, seen', [name] + queue')
      invariant forall k :: 0 <= k < i && Base(fields[k].typ) in types ==> Base(fields[k].typ) in seen'
      invariant seen <= seen' && (|seen'| == |seen| ==> queue' == queue)
    {
      var base := Base(fields[i].typ);
      if base in types && base !in seen' {
        Discover(types, p, name, seen', queue', i);
        seen', queue' := seen' + [base], queue' + [base];
      }
    }
    Finish(types, p, name, seen', queue');
  }

  lemma Discover(types: Types, p: string, name: string, seen: seq<string>, queue: seq<string>, i: nat)
    requires Explored(types, p, seen, [name] + queue) && name != DOMAIN && i < |FieldsOf(types, name)|
    requires Base(FieldsOf(types, name)[i].typ) in types && Base(FieldsOf(types, name)[i].typ) !in seen
    ensures var base := Base(FieldsOf(types, name)[i].typ); Explored(types, p, seen + [base], [name] + (queue + [base]))
  {
    var base := Base(FieldsOf(types, name)[i].typ);
    assert ([name] + queue)[0] == name;
    assert Edge(types, name, base);
    ReachableStep(types, p, name, base);
    Push(types, p, seen, [name] + queue, base);
    assert [name] + (queue + [base]) == ([name] + queue) + [base];
  }

  lemma Push(types: Types, p: string, seen: seq<string>, queue: seq<string>, base: string)
    requires Explored(types, p, seen, queue)
    requires base in types && base !in seen && Reachable(types, p, base)
    ensures Explored(types, p, seen + [base], queue + [base])
  {
  }

  lemma Finish(types: Types, p: string, name: string, seen: seq<string>, queue: seq<string>)
    requires Explored(types, p, seen, [name] + queue)
    requires forall k :: 0 <= k < |FieldsOf(types, name)| && Base(FieldsOf(types, name)[k].typ) in types ==>
               Base(FieldsOf(types, name)[k].typ) in seen
    ensures Explored(types, p, seen, queue)
  {
    forall n ensures n in [name] + queue <==> n == name || n in queue {}
  }

  lemma SkipDomain(types: Types, p: string, seen: seq<string>, queue: seq<string>)
    requires Explored(types, p, seen, [DOMAIN] + queue)
    ensures Explored(types, p, seen, queue)
  {
    forall n ensures n in [DOMAIN] + queue <==> n == DOMAIN || n in queue {}
  }

  /** Take the first type off the queue and follow its fields, unless it is the domain. */
  method Advance(types: Types, ghost p: string, seen: seq<string>, queue: seq<string>)
    returns (seen': seq<string>, queue': seq<string>)
    requires Explored(types, p, seen, queue) && queue != []
    ensures Explored(types, p, seen', queue')
    ensures |seen'| > |seen| || (|seen'| == |seen| && |queue'| < |queue|)
  {
    var name, rest := queue[0], queue[1..];
    assert queue == [name] + rest;
    if name == DOMAIN {
      SkipDomain(types, p, seen, rest);
      return seen, rest;
    }
    seen', queue' := Visit(types, p, name, seen, rest);
  }

  lemma SeenSize(types: Types, p: string, seen: seq<string>, queue: seq<string>)
    requires Explored(types, p, seen, queue)
    ensures |seen| <= |types.Keys + {p}|
  {
    DistinctSize(seen, types.Keys + {p});
  }

  lemma Start(types: Types, p: string)
    ensures Explored(types, p, [p], [p])
  {
    ReachableSelf(types, p);
  }

  /** Everything reachable from p, each once, whether or not the graph has cycles. */
  method Collect(types: Types, p: string) returns (seen: seq<string>)
    ensures Distinct(seen) && p in seen
    ensures forall n :: n in seen <==> Reachable(types, p, n)
  {
    seen := [p];
    var queue := [p];
    Start(types, p);
    while queue != []
      invariant Explored(types, p, seen, queue)
      decreases |types.Keys + {p}| - |seen|, |queue|
    {
      SeenSize(types, p, seen, queue);
      seen, queue := Advance(types, p, seen, queue);
      SeenSize(types, p, seen, queue);
    }
    AllFound(types, p, seen);
  }

  lemma AllFound(types: Types, p: string, seen: seq<string>)
    requires Explored(types, p, seen, [])
    ensures forall n :: n in seen <==> Reachable(types, p, n)
  {
    var found := set n | n in seen;
    forall n | Reachable(types, p, n) ensures n in seen {
      var path: seq<string> :| Path(types, path) && path[0] == p && path[|path| - 1] == n;
      ClosedHolds(types, found, path);
    }
  }

  // ---------------------------------------------------------------------------------------------
  // The text
  // ---------------------------------------------------------------------------------------------

  function Params(fields: seq<Field>): string {
    if fields == [] then ""
    else if |fields| == 1 then fields[0].typ + " " + fields[0].name
    else Params(fields[..|fields| - 1]) + "," + fields[|fields| - 1].typ + " " + fields[|fields| - 1].name
  }

  function Signature(types: Types, n: string): string {
    n + "(" + Params(FieldsOf(types, n)) + ")"
  }

  function Signatures(types: Types, names: seq<string>): string {
    if names == [] then "" else Signatures(types, names[..|names| - 1]) + Signature(types, names[|names| - 1])
  }

  /** The dependencies of p: the other reachable types, in strictly ascending order. */
  ghost predicate Dependencies(types: Types, p: string, deps: seq<string>) {
    Ascending(deps) && forall n :: n in deps <==> Reachable(types, p, n) && n != p
  }

  /** The list without x. */
  function Without(s: seq<string>, x: string): seq<string> {
    if s == [] then []
    else Without(s[..|s| - 1], x) + if s[|s| - 1] == x then [] else [s[|s| - 1]]
  }

  lemma {:induction false} WithoutFacts(s: seq<string>, x: string)
    requires Distinct(s)
    ensures Distinct(Without(s, x))
    ensures forall n :: n in Without(s, x) <==> n in s && n != x
  {
    if s != [] {
      var front := s[..|s| - 1];
      assert s == front + [s[|s| - 1]];
      WithoutFacts(front, x);
      forall i | 0 <= i < |Without(front, x)| ensures Without(front, x)[i] != s[|s| - 1] {
        assert Without(front, x)[i] in front;
      }
    }
  }

  method DependencyList(p: string, types: Types) returns (deps: seq<string>)
    ensures Dependencies(types, p, deps)
  {
    var seen := Collect(types, p);
    WithoutFacts(seen, p);
    SortFacts(Without(seen, p));
    return Sort(Without(seen, p));
  }

  /** The primary type, then exactly the types reachable from it, each once, in ascending order. */
  method EncodeType(p: string, types: Types) returns (out: string, ghost deps: seq<string>)
    ensures Dependencies(types, p, deps)
    ensures out == p + "(" + Params(FieldsOf(types, p)) + ")" + Signatures(types, deps)
  {
    var dependencies := DependencyList(p, types);
    out, deps := Signature(types, p), dependencies;
    for i := 0 to |dependencies|
      invariant out == Signature(types, p) + Signatures(types, dependencies[..i])
    {
      assert dependencies[..i + 1][..i] == dependencies[..i];
      out := out + Signature(types, dependencies[i]);
    }
    assert dependencies[..|dependencies|] == dependencies;
  }

  /** The dependencies come in the order of their characters. */
  lemma DependenciesPrecede(types: Types, p: string, deps: seq<string>)
    requires Dependencies(types, p, deps)
    ensures forall i, j :: 0 <= i < j < |deps| ==> Precedes(deps[i], deps[j])
  {
    AscendingIff(deps);
  }

  /** What is followed: from a struct other than the domain to a struct that is the type of a field,
      or of the elements of a field that is an array without a length. */
  lemma EdgeIff(types: Types, a: string, b: string)
    ensures Edge(types, a, b) <==>
              && a != "EIP712Domain" && a in types && b in types
              && exists i :: 0 <= i < |types[a]| && Refers(types[a][i].typ, b)
  {
    if Edge(types, a, b) {
      var i :| 0 <= i < |FieldsOf(types, a)| && Base(FieldsOf(types, a)[i].typ) == b;
      BaseIff(types[a][i].typ, b);
    }
    if a in types && exists i :: 0 <= i < |types[a]| && Refers(types[a][i].typ, b) {
      var i :| 0 <= i < |types[a]| && Refers(types[a][i].typ, b);
      BaseIff(types[a][i].typ, b);
      assert FieldsOf(types, a)[i].typ == types[a][i].typ;
    }
  }

  /** A type that is b, or a list of b. */
  predicate Refers(typ: string, b: string) {
    typ == b + "[]" || (typ == b && !IsList(typ))
  }

  predicate IsList(typ: string) {
    |typ| >= 2 && typ[|typ| - 2] == '[' && typ[|typ| - 1] == ']'
  }

  lemma BaseIff(typ: string, b: string)
    ensures Base(typ) == b <==> Refers(typ, b)
  {
    if IsList(typ) {
      ListBase(typ, |typ| - 2);
      assert (b + "[]")[..|b|] == b;
    } else {
      NoListBase(typ);
      assert typ != b + "[]" by { NotList(typ, b + "[]", |b|); }
    }
  }

  lemma ListBase(typ: string, k: nat)
    requires IsList(typ) && k == |typ| - 2
    ensures Base(typ) == typ[..k] && typ == typ[..k] + "[]"
  {
    assert typ[k..] == "[]";
  }

  lemma NoListBase(typ: string)
    requires !IsList(typ)
    ensures Base(typ) == typ
  {
    if |typ| >= 2 {
      assert typ[|typ| - 2..][0] == typ[|typ| - 2] && typ[|typ| - 2..][1] == typ[|typ| - 1];
    }
  }

  lemma NotList(typ: string, list: string, k: nat)
    requires !IsList(typ) && k + 2 == |list| && list[k] == '[' && list[k + 1] == ']'
    ensures typ != list
  {
  }

  // ---------------------------------------------------------------------------------------------
  // The text is that of the standard
  // ---------------------------------------------------------------------------------------------

  /** One field is its type, a space and its name; fields are separated by commas. */
  lemma {:induction false} ParamsJoin(a: seq<Field>, b: seq<Field>)
    requires a != [] && b != []
    ensures Params(a + b) == Params(a) + "," + Params(b)
  {
    var last := b[|b| - 1];
    ParamsLast(a + b, a + b[..|b| - 1], last);
    if |b| > 1 {
      ParamsLast(b, b[..|b| - 1], last);
      ParamsJoin(a, b[..|b| - 1]);
      Associate(Params(a), ",", Params(b[..|b| - 1]), last.typ + " " + last.name);
    }
  }

  lemma Associate(a: string, comma: string, b: string, c: string)
    ensures a + comma + b + comma + c == a + comma + (b + comma + c)
  {
  }

  lemma ParamsLast(fields: seq<Field>, front: seq<Field>, last: Field)
    requires fields == front + [last]
    ensures Params(fields) == (if front == [] then "" else Params(front) + ",") + (last.typ + " " + last.name)
  {
    assert fields[..|fields| - 1] == front;
  }

  /** Each struct stands in the text as its name and its fields in parentheses, in the order of the names. */
  lemma {:induction false} SignaturesJoin(types: Types, a: seq<string>, n: string, b: seq<string>)
    ensures Signatures(types, a + [n] + b) == Signatures(types, a) + (n + "(" + Params(FieldsOf(types, n)) + ")") + Signatures(types, b)
  {
    if b == [] {
      assert a + [n] + b == a + [n] && (a + [n])[..|a|] == a;
      assert Signatures(types, b) == "";
    } else {
      var front, last := b[..|b| - 1], b[|b| - 1];
      SignaturesJoin(types, a, n, front);
      assert (a + [n] + b)[..|a + [n] + b| - 1] == a + [n] + front;
      AssociateFour(Signatures(types, a), Signature(types, n), Signatures(types, front), Signature(types, last));
    }
  }

  lemma AssociateFour(a: string, b: string, c: string, d: string)
    ensures a + b + c + d == a + b + (c + d)
  {
  }

  /** There is one list of dependencies, so the text is determined. */
  lemma DependenciesUnique(types: Types, p: string, s: seq<string>, t: seq<string>)
    requires Dependencies(types, p, s) && Dependencies(types, p, t)
    ensures s == t
  {
    AscendingUnique(s, t);
  }

  // ---------------------------------------------------------------------------------------------
  // Against the standard
  // ---------------------------------------------------------------------------------------------

  function LastOpen(s: string): (k: int)
    ensures -1 <= k < |s| && (k >= 0 ==> s[k] == '[')
  {
    if s == "" then -1 else if s[|s| - 1] == '[' then |s| - 1 else LastOpen(s[..|s| - 1])
  }

  /** The element type of an array type of any dimensions, fixed or not. */
  function Element(typ: string): string
    decreases |typ|
  {
    if typ != "" && typ[|typ| - 1] == ']' && LastOpen(typ) >= 0 then Element(typ[..LastOpen(typ)]) else typ
  }

  /** The standard follows every field whose element type is a struct. */
  ghost predicate References(types: Types, a: string, b: string) {
    b in types && exists i :: 0 <= i < |FieldsOf(types, a)| && Element(FieldsOf(types, a)[i].typ) == b
  }

  ghost predicate RefPath(types: Types, path: seq<string>) {
    path != [] && forall i :: 0 < i < |path| ==> References(types, path[i - 1], path[i])
  }

  ghost predicate Referenced(types: Types, p: string, n: string) {
    exists path: seq<string> :: RefPath(types, path) && path[0] == p && path[|path| - 1] == n
  }

  /** Struct names end in a letter or digit, not in a bracket. */
  ghost predicate PlainNames(types: Types) {
    forall n :: n in types ==> n == "" || n[|n| - 1] != ']'
  }

  lemma {:induction false} LastOpenOf(s: string)
    ensures LastOpen(s + "[]") == |s|
  {
    var t := s + "[]";
    assert t[..|t| - 1] == s + "[" && (s + "[")[|s|] == '[';
  }

  lemma ElementOfBase(typ: string)
    requires Base(typ) == "" || Base(typ)[|Base(typ)| - 1] != ']'
    ensures Element(typ) == Base(typ)
  {
    var b := Base(typ);
    assert Element(b) == b;
    if typ != b {
      assert typ == b + "[]" && typ[..|b|] == b;
      LastOpenOf(b);
    }
  }

  /** Whatever the algorithm follows, the standard follows. */
  lemma EdgeIsReference(types: Types, a: string, b: string)
    requires PlainNames(types) && Edge(types, a, b)
    ensures References(types, a, b)
  {
    var i :| 0 <= i < |FieldsOf(types, a)| && Base(FieldsOf(types, a)[i].typ) == b;
    ElementOfBase(FieldsOf(types, a)[i].typ);
  }

  /** A reference that the algorithm does not follow: the type is the domain, or the field is an array
      that stripping one pair of brackets does not reduce to its element type. */
  ghost predicate Skipped(types: Types, a: string, b: string) {
    b in types && exists i :: 0 <= i < |FieldsOf(types, a)| && Element(FieldsOf(types, a)[i].typ) == b
                   && (a == DOMAIN || Base(FieldsOf(types, a)[i].typ) != b)
  }

  lemma {:induction false} PathIsReferenced(types: Types, path: seq<string>)
    requires PlainNames(types) && Path(types, path)
    ensures RefPath(types, path)
  {
    forall i | 0 < i < |path| ensures References(types, path[i - 1], path[i]) {
      EdgeIsReference(types, path[i - 1], path[i]);
    }
  }

  lemma {:induction false} RefPathHolds(types: Types, p: string, path: seq<string>)
    requires RefPath(types, path) && path[0] == p
    requires forall a, b :: Reachable(types, p, a) && Skipped(types, a, b) ==> Reachable(types, p, b)
    ensures Reachable(types, p, path[|path| - 1])
  {
    if |path| == 1 {
      ReachableSelf(types, p);
    } else {
      var front := path[..|path| - 1];
      RefPathHolds(types, p, front);
      var a, b := front[|front| - 1], path[|path| - 1];
      assert References(types, a, b);
      if !Skipped(types, a, b) {
        assert Edge(types, a, b);
        ReachableStep(types, p, a, b);
      }
    }
  }

  lemma ReferencedStep(types: Types, p: string, a: string, b: string)
    requires Referenced(types, p, a) && References(types, a, b)
    ensures Referenced(types, p, b)
  {
    var path: seq<string> :| RefPath(types, path) && path[0] == p && path[|path| - 1] == a;
    var longer := path + [b];
    assert RefPath(types, longer) && longer[0] == p && longer[|longer| - 1] == b;
  }

  /** The dependencies are those that the standard asks for exactly when every skipped reference of a
      found type leads to a type that is found anyway. */
  lemma StandardIff(types: Types, p: string)
    requires PlainNames(types)
    ensures (forall n :: Reachable(types, p, n) <==> Referenced(types, p, n))
            <==> (forall a, b :: Reachable(types, p, a) && Skipped(types, a, b) ==> Reachable(types, p, b))
  {
    forall n | Reachable(types, p, n) ensures Referenced(types, p, n) {
      var path: seq<string> :| Path(types, path) && path[0] == p && path[|path| - 1] == n;
      PathIsReferenced(types, path);
    }
    if forall a, b :: Reachable(types, p, a) && Skipped(types, a, b) ==> Reachable(types, p, b) {
      forall n | Referenced(types, p, n) ensures Reachable(types, p, n) {
        var path: seq<string> :| RefPath(types, path) && path[0] == p && path[|path| - 1] == n;
        RefPathHolds(types, p, path);
      }
    }
    if forall n :: Reachable(types, p, n) <==> Referenced(types, p, n) {
      forall a, b | Reachable(types, p, a) && Skipped(types, a, b) ensures Reachable(types, p, b) {
        ReferencedStep(types, p, a, b);
      }
    }
  }

  lemma ElementOfFixedArray()
    ensures Base("B[2]") == "B[2]" && Element("B[2]") == "B"
  {
    var typ := "B[2]";
    assert typ[..3] == "B[2" && typ[..3][..2] == "B[" && typ[..1] == "B";
    assert LastOpen("B[") == 1;
    assert LastOpen("B[2") == 1;
    assert Element("B") == "B";
  }

  /** A fixed-size array of structs: the struct is referenced but not found. */
  lemma FixedArrayMissed()
    ensures var types: Types := map["A" := [Field("B[2]", "x")], "B" := []];
            PlainNames(types) && Referenced(types, "A", "B") && !Reachable(types, "A", "B")
  {
    var types: Types := map["A" := [Field("B[2]", "x")], "B" := []];
    ElementOfFixedArray();
    assert FieldsOf(types, "A")[0].typ == "B[2]";
    assert References(types, "A", "B");
    var path := ["A", "B"];
    assert RefPath(types, path) && path[0] == "A" && path[|path| - 1] == "B";
    if Reachable(types, "A", "B") {
      var q: seq<string> :| Path(types, q) && q[0] == "A" && q[|q| - 1] == "B";
      ClosedHolds(types, {"A"}, q);
    }
  }
}
