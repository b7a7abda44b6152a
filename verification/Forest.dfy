/** Ordered forests and their preorder lists with depths. */
module Forest {
  datatype Tree<T> = Node(data: T, kids: seq<Tree<T>>)
  datatype Item<T> = Item(depth: nat, data: T)

  /** Depth-first: a node, then its children one level deeper, then its right siblings. */
  function Flat<T>(ts: seq<Tree<T>>, d: nat): seq<Item<T>>
    decreases ts
  {
    if ts == [] then [] else [Item(d, ts[0].data)] + Flat(ts[0].kids, d + 1) + Flat(ts[1..], d)
  }

  /** The depth rule: the list starts at depth d and never goes below it, and an entry lies at most
      one level below the one before it. */
  ghost predicate Legal<T>(s: seq<Item<T>>, d: nat) {
    && (s != [] ==> s[0].depth == d)
    && (forall i :: 0 <= i < |s| ==> s[i].depth >= d)
    && (forall i :: 0 < i < |s| ==> s[i].depth <= s[i - 1].depth + 1)
  }

  /** The number of leading entries that lie deeper than d. */
  function Run<T>(s: seq<Item<T>>, d: nat): (n: nat)
    ensures n <= |s|
  {
    if s == [] || s[0].depth <= d then 0 else 1 + Run(s[1..], d)
  }

  /** Read a forest back from its list. */
  function Build<T>(s: seq<Item<T>>, d: nat): seq<Tree<T>>
    decreases |s|
  {
    if s == [] then []
    else
      var n := Run(s[1..], d);
      [Node(s[0].data, Build(s[1..][..n], d + 1))] + Build(s[1..][n..], d)
  }

  lemma {:induction false} RunSplits<T>(s: seq<Item<T>>, d: nat)
    ensures var n := Run(s, d);
            (forall i :: 0 <= i < n ==> s[i].depth > d) && (n < |s| ==> s[n].depth <= d)
  {
    if s != [] && s[0].depth > d {
      RunSplits(s[1..], d);
      assert forall i :: 0 < i < |s| ==> s[i] == s[1..][i - 1];
    }
  }

  lemma {:induction false} RunOf<T>(a: seq<Item<T>>, b: seq<Item<T>>, d: nat)
    requires forall i :: 0 <= i < |a| ==> a[i].depth > d
    requires b != [] ==> b[0].depth <= d
    ensures Run(a + b, d) == |a|
  {
    if a == [] {
      assert a + b == b;
    } else {
      assert (a + b)[1..] == a[1..] + b && (a + b)[0] == a[0];
      RunOf(a[1..], b, d);
    }
  }

  /** A flattened forest obeys the depth rule. */
  lemma {:induction false} FlatLegal<T>(ts: seq<Tree<T>>, d: nat)
    ensures Legal(Flat(ts, d), d)
    ensures ts != [] <==> Flat(ts, d) != []
    decreases ts
  {
    if ts != [] {
      FlatLegal(ts[0].kids, d + 1);
      FlatLegal(ts[1..], d);
      LegalJoin(Item(d, ts[0].data), Flat(ts[0].kids, d + 1), Flat(ts[1..], d));
    }
  }

  lemma LegalJoin<T>(head: Item<T>, a: seq<Item<T>>, b: seq<Item<T>>)
    requires Legal(a, head.depth + 1) && Legal(b, head.depth)
    ensures Legal([head] + a + b, head.depth)
  {
    var s := [head] + a + b;
    forall i | 0 <= i < |s|
      ensures s[i].depth >= head.depth && (i > 0 ==> s[i].depth <= s[i - 1].depth + 1)
    {
      if 0 < i <= |a| {
        assert s[i] == a[i - 1];
      } else if |a| < i {
        assert s[i] == b[i - 1 - |a|];
      }
    }
  }

  lemma LegalParts<T>(s: seq<Item<T>>, d: nat)
    requires Legal(s, d) && s != []
    ensures var n := Run(s[1..], d);
            Legal(s[1..][..n], d + 1) && Legal(s[1..][n..], d)
  {
    var t := s[1..];
    var n := Run(t, d);
    RunSplits(t, d);
    assert forall i :: 0 <= i < |t| ==> t[i] == s[i + 1];
    assert forall i :: 0 <= i < |t[n..]| ==> t[n..][i] == s[i + 1 + n];
  }

  /** Every list that obeys the depth rule is the preorder of the forest read from it. */
  lemma {:induction false} FlatOfBuild<T>(s: seq<Item<T>>, d: nat)
    requires Legal(s, d)
    ensures Flat(Build(s, d), d) == s
    decreases |s|
  {
    if s != [] {
      var t := s[1..];
      var n := Run(t, d);
      LegalParts(s, d);
      FlatOfBuild(t[..n], d + 1);
      FlatOfBuild(t[n..], d);
      var ts := [Node(s[0].data, Build(t[..n], d + 1))] + Build(t[n..], d);
      assert Build(s, d) == ts && ts[1..] == Build(t[n..], d);
      assert s == [Item(d, s[0].data)] + t[..n] + t[n..];
    }
  }

  lemma BuildStep<T>(head: Item<T>, a: seq<Item<T>>, b: seq<Item<T>>)
    requires Legal(a, head.depth + 1) && Legal(b, head.depth)
    ensures Build([head] + a + b, head.depth) == [Node(head.data, Build(a, head.depth + 1))] + Build(b, head.depth)
  {
    RunOf(a, b, head.depth);
    var s := [head] + a + b;
    assert s[1..] == a + b;
    assert s[1..][..|a|] == a && s[1..][|a|..] == b;
  }

  /** Reading back a flattened forest gives that forest. */
  lemma {:induction false} BuildOfFlat<T>(ts: seq<Tree<T>>, d: nat)
    ensures Build(Flat(ts, d), d) == ts
    decreases ts
  {
    if ts != [] {
      BuildOfFlat(ts[0].kids, d + 1);
      BuildOfFlat(ts[1..], d);
      FlatLegal(ts[0].kids, d + 1);
      FlatLegal(ts[1..], d);
      BuildStep(Item(d, ts[0].data), Flat(ts[0].kids, d + 1), Flat(ts[1..], d));
      assert ts == [Node(ts[0].data, ts[0].kids)] + ts[1..];
    }
  }

  /** A list obeys the depth rule exactly when it is the preorder of a forest, and of one only. */
  lemma LegalIffPreorder<T>(s: seq<Item<T>>, d: nat)
    ensures Legal(s, d) <==> exists ts: seq<Tree<T>> :: Flat(ts, d) == s
    ensures forall ts: seq<Tree<T>>, us: seq<Tree<T>> :: Flat(ts, d) == s && Flat(us, d) == s ==> ts == us
  {
    if Legal(s, d) { FlatOfBuild(s, d); }
    forall ts: seq<Tree<T>> | Flat(ts, d) == s ensures Legal(s, d) && Build(s, d) == ts {
      FlatLegal(ts, d);
      BuildOfFlat(ts, d);
    }
  }
}
