/** Records that carry the hash of their own remaining fields. */
module Commitment {
  import opened Json
  import opened JsonParse
  import opened JsonRoundTrip
  import opened StringOrder
  import opened Canonical

  /** What the theorems ask of the hash: different inputs give different texts, and a text is
      lower-case hexadecimal after "0x". */
  ghost predicate HashOk(sha: string -> string, h: Host) {
    Injective(sha) && HostOk(h) && forall s: string :: "0x" <= sha(s) && h.lower(sha(s)) == sha(s)
  }

  /** The hypothesis can be met. */
  lemma HashExists() returns (sha: string -> string, h: Host)
    ensures HashOk(sha, h)
  {
    var g := HostExists();
    h := Host(g.toDouble, g.hexVal, (s: string) => s, g.repr, g.wide);
    sha := (s: string) => "0x" + s;
    forall s: string, t: string | sha(s) == sha(t) ensures s == t {
      assert sha(s)[2..] == s && sha(t)[2..] == t;
    }
  }

  /** The members with the given key left out. */
  function Without(ms: seq<Member>, key: string): seq<Member> {
    if ms == [] then []
    else (if ms[0].key == key then [] else [ms[0]]) + Without(ms[1..], key)
  }

  lemma {:induction false} WithoutMembers(ms: seq<Member>, key: string, m: Member)
    ensures m in Without(ms, key) <==> m in ms && m.key != key
  {
    if ms != [] {
      assert ms == [ms[0]] + ms[1..];
      WithoutMembers(ms[1..], key, m);
    }
  }

  lemma {:induction false} WithoutDistinct(ms: seq<Member>, key: string)
    requires DistinctKeys(ms)
    ensures DistinctKeys(Without(ms, key))
  {
    if ms != [] {
      assert DistinctKeys(ms[1..]);
      WithoutDistinct(ms[1..], key);
      var rest := Without(ms[1..], key);
      forall i | 0 <= i < |rest| ensures rest[i].key != ms[0].key {
        WithoutMembers(ms[1..], key, rest[i]);
        var k :| 0 <= k < |ms[1..]| && ms[1..][k] == rest[i];
        assert ms[k + 1] == rest[i];
      }
    }
  }

  lemma WithoutDict(ms: seq<Member>, key: string)
    requires IsDict(Obj(ms))
    ensures IsDict(Obj(Without(ms, key)))
  {
    WithoutDistinct(ms, key);
    forall m | m in Without(ms, key) ensures IsDict(m.value) { WithoutMembers(ms, key, m); }
  }

  lemma WithoutField(ms: seq<Member>, key: string, k: string)
    requires DistinctKeys(ms) && k != key
    ensures HasKey(Without(ms, key), k) <==> HasKey(ms, k)
    ensures HasKey(ms, k) ==> Get(Without(ms, key), k) == Get(ms, k)
  {
    var rest := Without(ms, key);
    WithoutDistinct(ms, key);
    if HasKey(ms, k) {
      var m := Member(k, Get(ms, k));
      WithoutMembers(ms, key, m);
      GetUnique(rest, m);
    }
    if HasKey(rest, k) {
      var m := Member(k, Get(rest, k));
      WithoutMembers(ms, key, m);
      GetUnique(ms, m);
    }
  }

  /** Objects with one normal form have the same keys, with values of one normal form. */
  lemma NormalFields(h: Host, ms: seq<Member>, ns: seq<Member>, key: string)
    requires DistinctKeys(ms) && DistinctKeys(ns) && Normal(h, Obj(ms)) == Normal(h, Obj(ns))
    ensures HasKey(ms, key) <==> HasKey(ns, key)
    ensures HasKey(ms, key) ==> Normal(h, Get(ms, key)) == Normal(h, Get(ns, key))
  {
    SortedKeys(ms);
    SortedKeys(ns);
    SortedHasKeys(ms);
    SortedHasKeys(ns);
    var ks, ls := Sort(KeyList(ms)), Sort(KeyList(ns));
    var a, b := NormalMembers(h, ms, ks), NormalMembers(h, ns, ls);
    assert a == b;
    assert ks == ls by {
      forall i | 0 <= i < |ks| ensures ks[i] == ls[i] { assert a[i].key == b[i].key; }
    }
    if HasKey(ms, key) {
      assert key in ks;
      var i :| 0 <= i < |ks| && ks[i] == key;
      assert a[i].value == b[i].value;
    }
  }

  /** The hash of an object under a tag. */
  function HashOf(sha: string -> string, h: Host, tag: string, ms: seq<Member>): Option<string> {
    DomainHash(sha, h, tag, Obj(ms))
  }

  /** Objects hashed under different tags never share a hash. */
  lemma DomainsDisjoint(sha: string -> string, h: Host, t: string, ms: seq<Member>, u: string, ns: seq<Member>)
    requires Injective(sha) && t != u && '{' !in t && '{' !in u
    requires HashOf(sha, h, t, ms).Some? && HashOf(sha, h, u, ns).Some?
    ensures HashOf(sha, h, t, ms) != HashOf(sha, h, u, ns)
  {
    ObjectText(h, ms);
    ObjectText(h, ns);
    var a, b := CanonOf(h, Obj(ms)).text, CanonOf(h, Obj(ns)).text;
    if sha(t + a) == sha(u + b) { SplitAtBrace(t, a, u, b); }
  }

  lemma ObjectText(h: Host, ms: seq<Member>)
    requires CanonOf(h, Obj(ms)).Text?
    ensures CanonOf(h, Obj(ms)).text != "" && CanonOf(h, Obj(ms)).text[0] == '{'
  {
    assert Normal(h, Obj(ms)).Obj?;
  }

  lemma FirstBrace(t: string, a: string)
    requires '{' !in t && a != "" && a[0] == '{'
    ensures |t| < |t + a| && (t + a)[|t|] == '{' && forall i :: 0 <= i < |t| ==> (t + a)[i] != '{'
  {
  }

  lemma SplitAtBrace(t: string, a: string, u: string, b: string)
    requires '{' !in t && '{' !in u && a != "" && a[0] == '{' && b != "" && b[0] == '{' && t + a == u + b
    ensures t == u
  {
    FirstBrace(t, a);
    FirstBrace(u, b);
    assert (t + a)[..|t|] == t && (u + b)[..|u|] == u;
  }

  /** Two records whose remaining fields have one hash: a field that commits to a hash commits both
      to the same one. */
  lemma CommittedField(sha: string -> string, h: Host, tag: string, ms: seq<Member>, ns: seq<Member>,
                       own: string, key: string, a: string, b: string)
    requires HashOk(sha, h) && IsDict(Obj(ms)) && IsDict(Obj(ns)) && key != own
    requires HashOf(sha, h, tag, Without(ms, own)).Some?
    requires HashOf(sha, h, tag, Without(ms, own)) == HashOf(sha, h, tag, Without(ns, own))
    requires HasKey(ms, key) && Get(ms, key) == Str(sha(a)) && HasKey(ns, key) && Get(ns, key) == Str(sha(b))
    ensures a == b
  {
    var p, q := Without(ms, own), Without(ns, own);
    WithoutDict(ms, own);
    WithoutDict(ns, own);
    HashBindsNormalForm(sha, h, tag, Obj(p), Obj(q));
    WithoutField(ms, own, key);
    WithoutField(ns, own, key);
    NormalFields(h, p, q, key);
    assert Normal(h, Str(sha(a))) == Str(sha(a)) && Normal(h, Str(sha(b))) == Str(sha(b));
  }
}
