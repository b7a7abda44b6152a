/** Selective disclosure: commitment to an ordered list of fields by a Merkle root, inclusion paths,
    and their verification. The leaf and node hashes are parameters; what is assumed of them is that
    they are injective and never collide with each other. */
module Merkle {
  datatype Option<+T> = None | Some(value: T)

  ghost predicate Separate<D(!new), H(!new)>(leaf: D -> H, node: (H, H) -> H) {
    && (forall x, y :: leaf(x) == leaf(y) ==> x == y)
    && (forall a, b, c, d :: node(a, b) == node(c, d) ==> a == c && b == d)
    && (forall x, a, b :: leaf(x) != node(a, b))
  }

  /** A digest type for which the assumption holds. */
  datatype Digest<D> = LeafDigest(data: D) | NodeDigest(left: Digest<D>, right: Digest<D>)

  lemma SeparateExists<D(!new)>()
    ensures Separate<D, Digest<D>>(x => LeafDigest(x), (a, b) => NodeDigest(a, b))
  {
  }

  // ---------------------------------------------------------------------------------------------
  // Layers, roots and paths
  // ---------------------------------------------------------------------------------------------

  /** What is hashed with the item at an even position: its right neighbour, or itself at the end. */
  function Partner<H>(hs: seq<H>, i: nat): H
    requires i < |hs|
  {
    if i + 1 < |hs| then hs[i + 1] else hs[i]
  }

  /** One layer up: neighbours are hashed in pairs, and a last odd one is hashed with itself. */
  function LayerUp<H>(node: (H, H) -> H, hs: seq<H>): (up: seq<H>)
    ensures |up| == (|hs| + 1) / 2
    ensures forall i :: 0 <= i < |up| ==> up[i] == node(hs[2 * i], Partner(hs, 2 * i))
  {
    seq((|hs| + 1) / 2, i requires 0 <= i < (|hs| + 1) / 2 => node(hs[2 * i], Partner(hs, 2 * i)))
  }

  function Root<H>(node: (H, H) -> H, hs: seq<H>): H
    requires hs != []
    decreases |hs|
  {
    if |hs| == 1 then hs[0] else Root(node, LayerUp(node, hs))
  }

  /** The number of layers above the leaves. */
  function Levels(n: nat): nat
    requires n > 0
  {
    if n == 1 then 0 else 1 + Levels((n + 1) / 2)
  }

  function Sibling<H>(hs: seq<H>, i: nat): H
    requires i < |hs|
  {
    if i % 2 == 1 then hs[i - 1] else Partner(hs, i)
  }

  /** The siblings on the way from position i to the root. */
  function Path<H>(node: (H, H) -> H, hs: seq<H>, i: nat): seq<H>
    requires i < |hs|
    decreases |hs|
  {
    if |hs| == 1 then [] else [Sibling(hs, i)] + Path(node, LayerUp(node, hs), i / 2)
  }

  /** A claimed position as it arrives: a number, rounded towards zero and with or without a
      fraction, or what does not convert to one. */
  datatype Index = Number(rounded: int, fraction: bool) | NotANumber

  function Whole(i: int): Index {
    Number(i, false)
  }

  /** The remainder by two is zero: the hash goes to the left of its sibling. */
  predicate GoesLeft(i: Index) {
    i.Number? && !i.fraction && i.rounded % 2 == 0
  }

  /** The position one layer up: what is left of the remainder by two, halved. */
  function Up(i: Index): Index {
    if i.NotANumber? then i
    else Whole(if i.rounded >= 0 then i.rounded / 2 else -((-i.rounded) / 2))
  }

  /** On which side the hash goes in each of n steps. */
  function Turns(i: Index, n: nat): (ts: seq<bool>)
    ensures |ts| == n
    decreases n
  {
    if n == 0 then [] else [GoesLeft(i)] + Turns(Up(i), n - 1)
  }

  /** Hash h with siblings, each time on the given side. */
  function Fold<H>(node: (H, H) -> H, h: H, turns: seq<bool>, path: seq<H>): H
    requires |turns| == |path|
    decreases |path|
  {
    if path == [] then h
    else Fold(node, if turns[0] then node(h, path[0]) else node(path[0], h), turns[1..], path[1..])
  }

  /** Recompute a root from a hash, a claimed position and siblings. */
  function Recompute<H>(node: (H, H) -> H, h: H, i: Index, path: seq<H>): H {
    Fold(node, h, Turns(i, |path|), path)
  }

  lemma RecomputeStep<H>(node: (H, H) -> H, h: H, i: Index, path: seq<H>)
    requires path != []
    ensures Recompute(node, h, i, path)
         == Recompute(node, if GoesLeft(i) then node(h, path[0]) else node(path[0], h), Up(i), path[1..])
  {
    assert Turns(i, |path|)[1..] == Turns(Up(i), |path| - 1);
  }

  function Leaves<D, H>(leaf: D -> H, fields: seq<D>): (hs: seq<H>)
    ensures |hs| == |fields| && forall i :: 0 <= i < |fields| ==> hs[i] == leaf(fields[i])
  {
    seq(|fields|, i requires 0 <= i < |fields| => leaf(fields[i]))
  }

  // ---------------------------------------------------------------------------------------------
  // The operations
  // ---------------------------------------------------------------------------------------------

  method ComputeLayerUp<H>(node: (H, H) -> H, hs: seq<H>) returns (out: seq<H>)
    ensures out == LayerUp(node, hs)
  {
    out := [];
    var i := 0;
    while i < |hs|
      invariant 0 <= i <= |hs| + 1 && i % 2 == 0
      invariant |out| == i / 2 && forall k :: 0 <= k < |out| ==> out[k] == node(hs[2 * k], Partner(hs, 2 * k))
    {
      var l := hs[i];
      var r := if i + 1 < |hs| then hs[i + 1] else hs[i];
      out := out + [node(l, r)];
      i := i + 2;
    }
    assert out == LayerUp(node, hs);
  }

  /** Commit to a list of fields; an empty list has no root. */
  method Commit<D, H>(leaf: D -> H, node: (H, H) -> H, fields: seq<D>) returns (root: Option<H>, levels: seq<seq<H>>)
    ensures fields == [] ==> root == None && levels == []
    ensures fields != [] ==> root == Some(Root(node, Leaves(leaf, fields)))
    ensures fields != [] ==> |levels| == Levels(|fields|) + 1 && levels[0] == Leaves(leaf, fields)
    ensures forall k :: 0 < k < |levels| ==> levels[k] == LayerUp(node, levels[k - 1])
  {
    if fields == [] { return None, []; }
    var hashes := Leaves(leaf, fields);
    levels := [hashes];
    while |hashes| > 1
      invariant hashes != [] && levels != [] && levels[|levels| - 1] == hashes && levels[0] == Leaves(leaf, fields)
      invariant Root(node, hashes) == Root(node, Leaves(leaf, fields))
      invariant |levels| + Levels(|hashes|) == Levels(|fields|) + 1
      invariant forall k :: 0 < k < |levels| ==> levels[k] == LayerUp(node, levels[k - 1])
      decreases |hashes|
    {
      hashes := ComputeLayerUp(node, hashes);
      levels := levels + [hashes];
    }
    root := Some(hashes[0]);
  }

  /** The inclusion path of one field, if the index is valid. */
  method Prove<D, H>(leaf: D -> H, node: (H, H) -> H, fields: seq<D>, index: int) returns (r: Option<seq<H>>)
    ensures r == if 0 <= index < |fields| then Some(Path(node, Leaves(leaf, fields), index)) else None
  {
    if fields == [] { return None; }
    if index < 0 || index >= |fields| { return None; }
    var hashes := Leaves(leaf, fields);
    ghost var whole := Path(node, hashes, index);
    var proof: seq<H> := [];
    var i: nat := index;
    assert proof + whole == whole;
    while |hashes| > 1
      invariant i < |hashes|
      invariant proof + Path(node, hashes, i) == whole
      decreases |hashes|
    {
      var sib := if i % 2 == 0 then (if i + 1 < |hashes| then hashes[i + 1] else hashes[i]) else hashes[i - 1];
      assert sib == Sibling(hashes, i);
      MovePrefix(proof, sib, Path(node, LayerUp(node, hashes), i / 2));
      proof := proof + [sib];
      hashes := ComputeLayerUp(node, hashes);
      i := i / 2;
    }
    assert proof + [] == proof;
    r := Some(proof);
  }

  lemma MovePrefix<T>(a: seq<T>, x: T, b: seq<T>)
    ensures a + ([x] + b) == (a + [x]) + b
  {
  }

  datatype Token = VERIFIED | INVALID | NOT_PROVEN

  /** A digest as it arrives in text: 64 hexadecimal digits, or something else. */
  datatype Wire<H> = Hex(h: H) | Malformed

  predicate AllHex<H>(path: seq<Wire<H>>) {
    forall i :: 0 <= i < |path| ==> path[i].Hex?
  }

  function Digests<H>(path: seq<Wire<H>>): (hs: seq<H>)
    requires AllHex(path)
    ensures |hs| == |path| && forall i :: 0 <= i < |path| ==> hs[i] == path[i].h
  {
    seq(|path|, i requires 0 <= i < |path| => path[i].h)
  }

  /** Verify one disclosed field against a committed root. Nothing disclosed or no usable root is
      NOT_PROVEN; a missing or malformed path, or a root that does not recompute, is INVALID. */
  method Verify<D, H(==)>(leaf: D -> H, node: (H, H) -> H, disclosed: Option<D>,
                          root: Wire<H>, index: Index, hasHashes: bool, path: Option<seq<Wire<H>>>) returns (t: Token)
    ensures t == VERIFIED <==>
              && disclosed.Some? && hasHashes && path.Some? && AllHex(path.value)
              && root == Hex(Recompute(node, leaf(disclosed.value), index, Digests(path.value)))
    ensures t == NOT_PROVEN <==> disclosed.None? || (path.Some? && hasHashes && root.Malformed?)
  {
    if disclosed.None? { return NOT_PROVEN; }
    if path.None? || !hasHashes { return INVALID; }
    if root.Malformed? { return NOT_PROVEN; }
    var h := leaf(disclosed.value);
    var i := index;
    for k := 0 to |path.value|
      invariant AllHex(path.value[..k])
      invariant AllHex(path.value) ==>
                  Recompute(node, h, i, Digests(path.value)[k..]) == Recompute(node, leaf(disclosed.value), index, Digests(path.value))
    {
      if path.value[k].Malformed? { return INVALID; }
      var sibling := path.value[k].h;
      if AllHex(path.value) {
        RecomputeStep(node, h, i, Digests(path.value)[k..]);
        assert Digests(path.value)[k..][1..] == Digests(path.value)[k + 1..];
      }
      h := if GoesLeft(i) then node(h, sibling) else node(sibling, h);
      i := Up(i);
      assert path.value[..k + 1] == path.value[..k] + [path.value[k]];
    }
    assert path.value[..|path.value|] == path.value;
    t := if root.h == h then VERIFIED else INVALID;
  }

  // ---------------------------------------------------------------------------------------------
  // Completeness
  // ---------------------------------------------------------------------------------------------

  /** Folding the path of a position from its hash gives the root. */
  lemma {:induction false} PathFolds<H>(node: (H, H) -> H, hs: seq<H>, i: nat)
    requires i < |hs|
    ensures Recompute(node, hs[i], Whole(i), Path(node, hs, i)) == Root(node, hs)
    ensures |Path(node, hs, i)| == Levels(|hs|)
    decreases |hs|
  {
    if |hs| > 1 {
      var up := LayerUp(node, hs);
      PathFolds(node, up, i / 2);
      PathStep(node, hs, i);
      RecomputeStep(node, hs[i], Whole(i), Path(node, hs, i));
      assert Path(node, hs, i)[1..] == Path(node, up, i / 2);
    }
  }

  lemma PathStep<H>(node: (H, H) -> H, hs: seq<H>, i: nat)
    requires i < |hs|
    ensures Up(Whole(i)) == Whole(i / 2) && i / 2 < (|hs| + 1) / 2
    ensures LayerUp(node, hs)[i / 2] == if GoesLeft(Whole(i)) then node(hs[i], Sibling(hs, i)) else node(Sibling(hs, i), hs[i])
  {
    assert i == 2 * (i / 2) + i % 2;
  }

  // ---------------------------------------------------------------------------------------------
  // Soundness
  // ---------------------------------------------------------------------------------------------

  /** Every branch below h reaches a leaf after exactly k nodes. */
  ghost predicate Full<D(!new), H(!new)>(leaf: D -> H, node: (H, H) -> H, h: H, k: nat) {
    if k == 0 then exists x :: h == leaf(x)
    else exists a, b :: h == node(a, b) && Full(leaf, node, a, k - 1) && Full(leaf, node, b, k - 1)
  }

  /** Some branch below h reaches a leaf after exactly k nodes. */
  ghost predicate Spine<D(!new), H(!new)>(leaf: D -> H, node: (H, H) -> H, h: H, k: nat) {
    if k == 0 then exists x :: h == leaf(x)
    else exists a, b :: h == node(a, b) && (Spine(leaf, node, a, k - 1) || Spine(leaf, node, b, k - 1))
  }

  lemma {:induction false} SpineOfFull<D(!new), H(!new)>(leaf: D -> H, node: (H, H) -> H, h: H, k: nat, j: nat)
    requires Separate(leaf, node) && Full(leaf, node, h, k) && Spine(leaf, node, h, j)
    ensures j == k
    decreases k
  {
    if k > 0 && j > 0 {
      var a, b :| h == node(a, b) && Full(leaf, node, a, k - 1) && Full(leaf, node, b, k - 1);
      var c, d :| h == node(c, d) && (Spine(leaf, node, c, j - 1) || Spine(leaf, node, d, j - 1));
      if Spine(leaf, node, c, j - 1) {
        SpineOfFull(leaf, node, a, k - 1, j - 1);
      } else {
        SpineOfFull(leaf, node, b, k - 1, j - 1);
      }
    }
  }

  lemma {:induction false} FoldSpine<D(!new), H(!new)>(leaf: D -> H, node: (H, H) -> H, h: H, turns: seq<bool>, path: seq<H>, k: nat)
    requires |turns| == |path| && Spine(leaf, node, h, k)
    ensures Spine(leaf, node, Fold(node, h, turns, path), k + |path|)
    decreases |path|
  {
    if path != [] {
      var up := if turns[0] then node(h, path[0]) else node(path[0], h);
      assert Spine(leaf, node, up, k + 1);
      FoldSpine(leaf, node, up, turns[1..], path[1..], k + 1);
    }
  }

  lemma {:induction false} RootFull<D(!new), H(!new)>(leaf: D -> H, node: (H, H) -> H, hs: seq<H>, k: nat)
    requires hs != [] && forall i :: 0 <= i < |hs| ==> Full(leaf, node, hs[i], k)
    ensures Full(leaf, node, Root(node, hs), k + Levels(|hs|))
    decreases |hs|
  {
    if |hs| > 1 {
      var up := LayerUp(node, hs);
      forall i | 0 <= i < |up| ensures Full(leaf, node, up[i], k + 1) {
        var a, b := hs[2 * i], Partner(hs, 2 * i);
        assert up[i] == node(a, b) && Full(leaf, node, a, k) && Full(leaf, node, b, k);
      }
      RootFull(leaf, node, up, k + 1);
    }
  }

  /** A path of the right length that folds to the root starts at one of the hashes, and at the one
      in the claimed position if that position exists. */
  lemma {:induction false} FoldFinds<D(!new), H(!new)>(leaf: D -> H, node: (H, H) -> H, hs: seq<H>, h: H,
                                                       turns: seq<bool>, i: int, path: seq<H>) returns (p: nat)
    requires Separate(leaf, node) && hs != [] && |path| == Levels(|hs|) && |turns| == |path|
    requires Fold(node, h, turns, path) == Root(node, hs)
    ensures p < |hs| && hs[p] == h
    ensures 0 <= i < |hs| && turns == Turns(Whole(i), |path|) ==> p == i
    decreases |hs|
  {
    if |hs| == 1 {
      p := 0;
    } else {
      var l, r := if turns[0] then h else path[0], if turns[0] then path[0] else h;
      var up := LayerUp(node, hs);
      if i >= 0 { TurnsTail(i, |path|); }
      var q := FoldFinds(leaf, node, up, node(l, r), turns[1..], i / 2, path[1..]);
      p := if turns[0] || 2 * q + 1 >= |hs| then 2 * q else 2 * q + 1;
    }
  }

  lemma TurnsTail(i: nat, n: nat)
    requires n > 0
    ensures Turns(Whole(i), n)[0] <==> i % 2 == 0
    ensures Turns(Whole(i), n)[1..] == Turns(Whole(i / 2), n - 1)
  {
  }

  /** Soundness: if a disclosed field folds to the root committed for a list, with any siblings on
      any sides, then the path has the length of the tree and the field is in the list. */
  lemma Soundness<D(!new), H(!new)>(leaf: D -> H, node: (H, H) -> H, fields: seq<D>, disclosed: D, turns: seq<bool>, path: seq<H>)
    requires Separate(leaf, node) && fields != [] && |turns| == |path|
    requires Fold(node, leaf(disclosed), turns, path) == Root(node, Leaves(leaf, fields))
    ensures |path| == Levels(|fields|)
    ensures disclosed in fields
  {
    PathLength(leaf, node, fields, disclosed, turns, path);
    var p := FoldFinds(leaf, node, Leaves(leaf, fields), leaf(disclosed), turns, -1, path);
    assert leaf(fields[p]) == leaf(disclosed);
  }

  /** So whatever position is claimed, even one that is not a number, a value that verifies is one of
      the fields, and the one in that position whenever it is a position of the list. */
  lemma VerifiedField<D(!new), H(!new)>(leaf: D -> H, node: (H, H) -> H, fields: seq<D>, disclosed: D, index: Index, path: seq<H>)
    requires Separate(leaf, node) && fields != []
    requires Recompute(node, leaf(disclosed), index, path) == Root(node, Leaves(leaf, fields))
    ensures |path| == Levels(|fields|)
    ensures disclosed in fields
    ensures forall i: nat | i < |fields| && index == Whole(i) :: fields[i] == disclosed
  {
    Soundness(leaf, node, fields, disclosed, Turns(index, |path|), path);
    forall i: nat | i < |fields| && index == Whole(i) ensures fields[i] == disclosed {
      var p := FoldFinds(leaf, node, Leaves(leaf, fields), leaf(disclosed), Turns(index, |path|), i, path);
      assert leaf(fields[p]) == leaf(disclosed);
    }
  }

  lemma PathLength<D(!new), H(!new)>(leaf: D -> H, node: (H, H) -> H, fields: seq<D>, disclosed: D, turns: seq<bool>, path: seq<H>)
    requires Separate(leaf, node) && fields != [] && |turns| == |path|
    requires Fold(node, leaf(disclosed), turns, path) == Root(node, Leaves(leaf, fields))
    ensures |path| == Levels(|fields|)
  {
    FoldOfLeaf(leaf, node, disclosed, turns, path);
    RootOfLeaves(leaf, node, fields);
    SpineOfFull(leaf, node, Root(node, Leaves(leaf, fields)), Levels(|fields|), |path|);
  }

  lemma FoldOfLeaf<D(!new), H(!new)>(leaf: D -> H, node: (H, H) -> H, disclosed: D, turns: seq<bool>, path: seq<H>)
    requires |turns| == |path|
    ensures Spine(leaf, node, Fold(node, leaf(disclosed), turns, path), |path|)
  {
    assert Spine(leaf, node, leaf(disclosed), 0);
    FoldSpine(leaf, node, leaf(disclosed), turns, path, 0);
  }

  lemma RootOfLeaves<D(!new), H(!new)>(leaf: D -> H, node: (H, H) -> H, fields: seq<D>)
    requires fields != []
    ensures Full(leaf, node, Root(node, Leaves(leaf, fields)), Levels(|fields|))
  {
    var hs := Leaves(leaf, fields);
    forall j | 0 <= j < |hs| ensures Full(leaf, node, hs[j], 0) { assert hs[j] == leaf(fields[j]); }
    RootFull(leaf, node, hs, 0);
  }

  // ---------------------------------------------------------------------------------------------
  // What a root determines
  // ---------------------------------------------------------------------------------------------

  lemma {:induction false} EqualRoots<D(!new), H(!new)>(leaf: D -> H, node: (H, H) -> H, hs: seq<H>, gs: seq<H>)
    requires Separate(leaf, node) && hs != [] && |hs| == |gs| && Root(node, hs) == Root(node, gs)
    ensures hs == gs
    decreases |hs|
  {
    if |hs| > 1 {
      var a, b := LayerUp(node, hs), LayerUp(node, gs);
      EqualRoots(leaf, node, a, b);
      forall i | 0 <= i < |hs| ensures hs[i] == gs[i] {
        assert a[i / 2] == b[i / 2];
        assert i == 2 * (i / 2) || i == 2 * (i / 2) + 1;
      }
    }
  }

  /** Lists of the same length with the same root are the same list. */
  lemma RootDeterminesFields<D(!new), H(!new)>(leaf: D -> H, node: (H, H) -> H, f: seq<D>, g: seq<D>)
    requires Separate(leaf, node) && f != [] && |f| == |g|
    requires Root(node, Leaves(leaf, f)) == Root(node, Leaves(leaf, g))
    ensures f == g
  {
    var hs, gs := Leaves(leaf, f), Leaves(leaf, g);
    EqualRoots(leaf, node, hs, gs);
    forall i | 0 <= i < |f| ensures f[i] == g[i] {
      assert leaf(f[i]) == hs[i] == gs[i] == leaf(g[i]);
    }
  }

  /** The list as the tree sees it, with every odd last item repeated on each layer: the root of the
      tree whose leaves are one-element lists and whose nodes concatenate. */
  function Join<D>(a: seq<D>, b: seq<D>): seq<D> {
    a + b
  }

  function Singles<D>(fields: seq<D>): (ss: seq<seq<D>>)
    ensures |ss| == |fields| && forall i :: 0 <= i < |fields| ==> ss[i] == [fields[i]]
  {
    seq(|fields|, i requires 0 <= i < |fields| => [fields[i]])
  }

  function Expanded<D>(fields: seq<D>): seq<D>
    requires fields != []
  {
    Root(Join<D>, Singles(fields))
  }

  function Pow2(k: nat): (p: nat)
    ensures p > 0
  {
    if k == 0 then 1 else 2 * Pow2(k - 1)
  }

  /** The hash of a complete tree of k layers over 2^k fields. */
  function Complete<D, H>(leaf: D -> H, node: (H, H) -> H, s: seq<D>, k: nat): H
    requires |s| == Pow2(k)
    decreases k
  {
    if k == 0 then leaf(s[0])
    else node(Complete(leaf, node, s[..Pow2(k - 1)], k - 1), Complete(leaf, node, s[Pow2(k - 1)..], k - 1))
  }

  lemma CompleteJoin<D, H>(leaf: D -> H, node: (H, H) -> H, a: seq<D>, b: seq<D>, k: nat)
    requires |a| == Pow2(k) && |b| == Pow2(k)
    ensures |Join(a, b)| == Pow2(k + 1)
    ensures Complete(leaf, node, Join(a, b), k + 1) == node(Complete(leaf, node, a, k), Complete(leaf, node, b, k))
  {
    assert (a + b)[..Pow2(k)] == a && (a + b)[Pow2(k)..] == b;
  }

  /** Layers of hashes and layers of lists correspond. */
  ghost predicate Matching<D, H>(leaf: D -> H, node: (H, H) -> H, hs: seq<H>, ss: seq<seq<D>>, k: nat) {
    |hs| == |ss| && forall i :: 0 <= i < |hs| ==> |ss[i]| == Pow2(k) && hs[i] == Complete(leaf, node, ss[i], k)
  }

  lemma MatchingUp<D, H>(leaf: D -> H, node: (H, H) -> H, hs: seq<H>, ss: seq<seq<D>>, k: nat)
    requires Matching(leaf, node, hs, ss, k)
    ensures Matching(leaf, node, LayerUp(node, hs), LayerUp(Join<D>, ss), k + 1)
  {
    var up, us := LayerUp(node, hs), LayerUp(Join<D>, ss);
    forall i | 0 <= i < |up| ensures |us[i]| == Pow2(k + 1) && up[i] == Complete(leaf, node, us[i], k + 1) {
      var j := if 2 * i + 1 < |hs| then 2 * i + 1 else 2 * i;
      assert us[i] == Join(ss[2 * i], ss[j]) && up[i] == node(hs[2 * i], hs[j]);
      CompleteJoin(leaf, node, ss[2 * i], ss[j], k);
    }
  }

  lemma {:induction false} MatchingRoots<D, H>(leaf: D -> H, node: (H, H) -> H, hs: seq<H>, ss: seq<seq<D>>, k: nat)
    requires hs != [] && Matching(leaf, node, hs, ss, k)
    ensures var s, n := Root(Join<D>, ss), k + Levels(|hs|);
            |s| == Pow2(n) && Root(node, hs) == Complete(leaf, node, s, n)
    decreases |hs|
  {
    if |hs| > 1 {
      var up, us := LayerUp(node, hs), LayerUp(Join<D>, ss);
      MatchingUp(leaf, node, hs, ss, k);
      MatchingRoots(leaf, node, up, us, k + 1);
      assert k + Levels(|hs|) == k + 1 + Levels(|up|);
    }
  }

  lemma ExpandedRoot<D, H>(leaf: D -> H, node: (H, H) -> H, fields: seq<D>)
    requires fields != []
    ensures var s, n := Expanded(fields), Levels(|fields|);
            |s| == Pow2(n) && Root(node, Leaves(leaf, fields)) == Complete(leaf, node, s, n)
  {
    LeavesMatch(leaf, node, fields);
    MatchingRoots(leaf, node, Leaves(leaf, fields), Singles(fields), 0);
  }

  lemma LeavesMatch<D, H>(leaf: D -> H, node: (H, H) -> H, fields: seq<D>)
    ensures Matching(leaf, node, Leaves(leaf, fields), Singles(fields), 0)
  {
    var hs, ss := Leaves(leaf, fields), Singles(fields);
    forall i | 0 <= i < |hs| ensures |ss[i]| == Pow2(0) && hs[i] == Complete(leaf, node, ss[i], 0) {
      assert ss[i][0] == fields[i];
    }
  }

  lemma {:induction false} CompleteInjective<D(!new), H(!new)>(leaf: D -> H, node: (H, H) -> H, s: seq<D>, t: seq<D>, k: nat, l: nat)
    requires Separate(leaf, node) && |s| == Pow2(k) && |t| == Pow2(l)
    requires Complete(leaf, node, s, k) == Complete(leaf, node, t, l)
    ensures s == t && k == l
    decreases k
  {
    if k == 0 && l == 0 {
      assert s == [s[0]] && t == [t[0]];
    } else if k > 0 && l > 0 {
      CompleteInjective(leaf, node, s[..Pow2(k - 1)], t[..Pow2(l - 1)], k - 1, l - 1);
      CompleteInjective(leaf, node, s[Pow2(k - 1)..], t[Pow2(l - 1)..], k - 1, l - 1);
      assert s == s[..Pow2(k - 1)] + s[Pow2(k - 1)..] && t == t[..Pow2(l - 1)] + t[Pow2(l - 1)..];
    }
  }

  lemma {:induction false} Pow2Injective(k: nat, l: nat)
    requires Pow2(k) == Pow2(l)
    ensures k == l
  {
    if k > 0 && l > 0 { Pow2Injective(k - 1, l - 1); }
  }

  /** Without the lengths, a root determines the list exactly up to the repetitions of the tree. */
  lemma RootsEqualIff<D(!new), H(!new)>(leaf: D -> H, node: (H, H) -> H, f: seq<D>, g: seq<D>)
    requires Separate(leaf, node) && f != [] && g != []
    ensures Root(node, Leaves(leaf, f)) == Root(node, Leaves(leaf, g)) <==> Expanded(f) == Expanded(g)
  {
    ExpandedRoot(leaf, node, f);
    ExpandedRoot(leaf, node, g);
    var s, t, k, l := Expanded(f), Expanded(g), Levels(|f|), Levels(|g|);
    if s == t {
      Pow2Injective(k, l);
    }
    if Root(node, Leaves(leaf, f)) == Root(node, Leaves(leaf, g)) {
      CompleteInjective(leaf, node, s, t, k, l);
    }
  }

  /** So the root alone does not determine the length: a third field and its repetition commit alike. */
  lemma RepeatedLastField<D, H>(leaf: D -> H, node: (H, H) -> H, a: D, b: D, c: D)
    ensures Root(node, Leaves(leaf, [a, b, c])) == Root(node, Leaves(leaf, [a, b, c, c]))
  {
    var hs, gs := Leaves(leaf, [a, b, c]), Leaves(leaf, [a, b, c, c]);
    assert LayerUp(node, hs) == LayerUp(node, gs);
  }

  // ---------------------------------------------------------------------------------------------
  // What the tree looks like
  // ---------------------------------------------------------------------------------------------

  function Append<D>(ss: seq<seq<D>>): seq<D> {
    if ss == [] then [] else ss[0] + Append(ss[1..])
  }

  lemma {:induction false} AppendUp<D>(ss: seq<seq<D>>)
    ensures Append(ss) <= Append(LayerUp(Join<D>, ss))
    decreases |ss|
  {
    var us := LayerUp(Join<D>, ss);
    if |ss| == 1 {
      assert us == [ss[0] + ss[0]] && ss[1..] == [] && us[1..] == [];
      assert Append(ss) == ss[0] && Append(us) == ss[0] + ss[0];
    } else if |ss| >= 2 {
      AppendUp(ss[2..]);
      LayerFirst(ss);
      assert Append(ss) == ss[0] + (ss[1] + Append(ss[1..][1..])) && ss[1..][1..] == ss[2..];
      assert Append(us) == (ss[0] + ss[1]) + Append(LayerUp(Join<D>, ss[2..]));
      Longer(ss[0] + ss[1], Append(ss[2..]), Append(LayerUp(Join<D>, ss[2..])));
    }
  }

  lemma LayerFirst<D>(ss: seq<seq<D>>)
    requires |ss| >= 2
    ensures var us := LayerUp(Join<D>, ss);
            us != [] && us[0] == ss[0] + ss[1] && us[1..] == LayerUp(Join<D>, ss[2..])
  {
    var us, vs := LayerUp(Join<D>, ss), LayerUp(Join<D>, ss[2..]);
    forall i | 0 <= i < |vs| ensures us[1..][i] == vs[i] {
      assert us[i + 1] == Join(ss[2 * i + 2], Partner(ss, 2 * i + 2)) && ss[2..][2 * i] == ss[2 * i + 2];
      assert Partner(ss[2..], 2 * i) == Partner(ss, 2 * i + 2);
    }
  }

  lemma Longer<D>(a: seq<D>, b: seq<D>, c: seq<D>)
    requires b <= c
    ensures a + b <= a + c
  {
  }

  lemma {:induction false} AppendRoot<D>(ss: seq<seq<D>>)
    requires ss != []
    ensures Append(ss) <= Root(Join<D>, ss)
    ensures forall x :: x in Root(Join<D>, ss) ==> exists i :: 0 <= i < |ss| && x in ss[i]
    decreases |ss|
  {
    if |ss| == 1 {
      assert ss[1..] == [] && Append(ss) == ss[0] + [];
    } else {
      var us := LayerUp(Join<D>, ss);
      AppendUp(ss);
      AppendRoot(us);
      forall x | x in Root(Join<D>, ss) ensures exists i :: 0 <= i < |ss| && x in ss[i] {
        var i :| 0 <= i < |us| && x in us[i];
        assert us[i] == ss[2 * i] + Partner(ss, 2 * i);
      }
    }
  }

  lemma {:induction false} AppendSingles<D>(fields: seq<D>)
    ensures Append(Singles(fields)) == fields
  {
    if fields != [] {
      AppendSingles(fields[1..]);
      assert Singles(fields)[1..] == Singles(fields[1..]);
    }
  }

  /** The completed list starts with the fields, in order, and repeats only fields; its length is the
      least power of two that is not below theirs. So the root is that of the complete binary tree over
      the fields when their number is a power of two. */
  lemma CompletionMeans<D, H>(leaf: D -> H, node: (H, H) -> H, fields: seq<D>)
    requires fields != []
    ensures fields <= Expanded(fields) && forall x :: x in Expanded(fields) ==> x in fields
    ensures var n := Levels(|fields|);
            && |Expanded(fields)| == Pow2(n) && |fields| <= Pow2(n) && (|fields| > 1 ==> Pow2(n) < 2 * |fields|)
            && (|fields| == Pow2(n) ==> Root(node, Leaves(leaf, fields)) == Complete(leaf, node, fields, n))
  {
    AppendRoot(Singles(fields));
    AppendSingles(fields);
    forall x | x in Expanded(fields) ensures x in fields {
      var i :| 0 <= i < |Singles(fields)| && x in Singles(fields)[i];
      assert Singles(fields)[i] == [fields[i]];
    }
    ExpandedRoot(leaf, node, fields);
    LevelsAre(|fields|);
    if |fields| == Pow2(Levels(|fields|)) { assert Expanded(fields) == fields; }
  }

  lemma {:induction false} LevelsAre(n: nat)
    requires n > 0
    ensures n <= Pow2(Levels(n)) && (n > 1 ==> Pow2(Levels(n)) < 2 * n)
  {
    if n > 1 { LevelsAre((n + 1) / 2); }
  }

  /** On which side the hash goes at step k: to the left exactly when the claimed position, rounded towards
      zero, has a zero at binary place k; a fraction sends it to the right at first, and what is not a
      number always. */
  lemma {:induction false} TurnsMean(i: Index, n: nat, k: nat)
    requires k < n
    ensures i.NotANumber? ==> !Turns(i, n)[k]
    ensures i.Number? ==> (Turns(i, n)[k] <==> (k > 0 || !i.fraction) && (Magnitude(i.rounded) / Pow2(k)) % 2 == 0)
    decreases k
  {
    if k > 0 {
      TurnsMean(Up(i), n - 1, k - 1);
      assert Turns(i, n)[k] == Turns(Up(i), n - 1)[k - 1];
      if i.Number? {
        assert Magnitude(Up(i).rounded) == Magnitude(i.rounded) / 2;
        HalvedTwice(Magnitude(i.rounded), Pow2(k - 1));
      }
    } else if i.Number? {
      assert Magnitude(i.rounded) % 2 == i.rounded % 2;
    }
  }

  function Magnitude(i: int): nat {
    if i >= 0 then i else -i
  }

  lemma HalvedTwice(a: nat, p: nat)
    requires p > 0
    ensures (a / 2) / p == a / (2 * p)
  {
    var q, r := (a / 2) / p, (a / 2) % p;
    assert a / 2 == p * q + r && a == 2 * (a / 2) + a % 2;
    QuotientIs(a, 2 * p, q, 2 * r + a % 2);
  }

  lemma QuotientIs(a: nat, m: nat, q: nat, r: nat)
    requires m > 0 && a == m * q + r && r < m
    ensures a / m == q
  {
    var q', r' := a / m, a % m;
    assert a == m * q' + r';
    if q' < q { LessTimes(m, q', q); } else if q < q' { LessTimes(m, q, q'); }
  }

  lemma LessTimes(m: nat, x: nat, y: nat)
    requires x < y
    ensures m * x + m <= m * y
  {
    assert m * y == m * x + m * (y - x);
    if y - x > 1 { assert m * (y - x) == m + m * (y - x - 1); }
  }
}
