/** Strings in code point order, and sorting by a string key. */
module StringOrder {
  /** a sorts strictly before b. */
  predicate Before(a: string, b: string) {
    if a == "" then b != ""
    else b != "" && (a[0] < b[0] || (a[0] == b[0] && Before(a[1..], b[1..])))
  }

  /** What the order is: a is a proper prefix of b, or has the smaller character at the first place
      where they differ. */
  ghost predicate Precedes(a: string, b: string) {
    exists n :: 0 <= n <= |a| && n < |b| && a[..n] == b[..n] && (n == |a| || a[n] < b[n])
  }

  lemma {:induction false} BeforeIff(a: string, b: string)
    ensures Before(a, b) <==> exists n :: 0 <= n <= |a| && n < |b| && a[..n] == b[..n] && (n == |a| || a[n] < b[n])
  {
    if a != "" && b != "" && a[0] == b[0] {
      var s, t := a[1..], b[1..];
      BeforeIff(s, t);
      if Before(s, t) {
        var n :| 0 <= n <= |s| && n < |t| && s[..n] == t[..n] && (n == |s| || s[n] < t[n]);
        LongerPrefix(a, b, n);
      }
      forall n | 0 <= n <= |a| && n < |b| && a[..n] == b[..n] && (n == |a| || a[n] < b[n]) ensures Before(s, t) {
        assert n > 0;
        assert s[..n - 1] == a[..n][1..] && t[..n - 1] == b[..n][1..];
      }
    } else if b != "" {
      assert a[..0] == b[..0];
      forall n | 0 <= n <= |a| && n < |b| ensures n > 0 && a[..n] == b[..n] ==> a[0] == b[0] { SharedFirst(a, b, n); }
    }
  }

  lemma SharedFirst(a: string, b: string, n: nat)
    requires n <= |a| && n <= |b|
    ensures n > 0 && a[..n] == b[..n] ==> a[0] == b[0]
  {
    if n > 0 { assert a[..n][0] == a[0] && b[..n][0] == b[0]; }
  }

  lemma LongerPrefix(a: string, b: string, n: nat)
    requires a != "" && b != "" && a[0] == b[0] && n < |a| && n < |b| && a[1..][..n] == b[1..][..n]
    ensures a[..n + 1] == b[..n + 1]
  {
    assert a[..n + 1] == [a[0]] + a[1..][..n] && b[..n + 1] == [b[0]] + b[1..][..n];
  }

  lemma {:induction false} BeforeIrreflexive(a: string)
    ensures !Before(a, a)
  {
    if a != "" { BeforeIrreflexive(a[1..]); }
  }

  lemma {:induction false} BeforeTransitive(a: string, b: string, c: string)
    requires Before(a, b) && Before(b, c)
    ensures Before(a, c)
  {
    if a != "" && a[0] == b[0] && b[0] == c[0] { BeforeTransitive(a[1..], b[1..], c[1..]); }
  }

  lemma {:induction false} BeforeTotal(a: string, b: string)
    ensures a == b || Before(a, b) || Before(b, a)
  {
    if a != "" && b != "" && a[0] == b[0] {
      BeforeTotal(a[1..], b[1..]);
      assert a == [a[0]] + a[1..] && b == [b[0]] + b[1..];
    }
  }

  lemma BeforeAsymmetric(a: string, b: string)
    requires Before(a, b)
    ensures !Before(b, a)
  {
    if Before(b, a) {
      BeforeTransitive(a, b, a);
      BeforeIrreflexive(a);
    }
  }

  /** Strictly increasing, so without repetition. */
  ghost predicate Ascending(s: seq<string>) {
    forall i, j :: 0 <= i < j < |s| ==> Before(s[i], s[j])
  }

  lemma AscendingIff(s: seq<string>)
    ensures Ascending(s) <==> forall i, j :: 0 <= i < j < |s| ==> Precedes(s[i], s[j])
  {
    forall i, j | 0 <= i < j < |s| ensures Before(s[i], s[j]) <==> Precedes(s[i], s[j]) { BeforeIff(s[i], s[j]); }
  }

  /** Insert into an ascending sequence. */
  function Insert(x: string, s: seq<string>): seq<string> {
    if s == [] || Before(x, s[0]) then [x] + s else [s[0]] + Insert(x, s[1..])
  }

  function Sort(s: seq<string>): seq<string> {
    if s == [] then [] else Insert(s[0], Sort(s[1..]))
  }

  lemma {:induction false} InsertFacts(x: string, s: seq<string>)
    requires Ascending(s) && x !in s
    ensures Ascending(Insert(x, s))
    ensures forall y :: y in Insert(x, s) <==> y == x || y in s
  {
    if s == [] || Before(x, s[0]) {
      forall j | 0 <= j < |s| ensures Before(x, s[j]) {
        if j > 0 { BeforeTransitive(x, s[0], s[j]); }
      }
    } else {
      BeforeTotal(x, s[0]);
      InsertFacts(x, s[1..]);
      var r := Insert(x, s[1..]);
      assert s == [s[0]] + s[1..];
      forall j | 0 <= j < |r| ensures Before(s[0], r[j]) {
        assert r[j] == x || r[j] in s[1..];
      }
    }
  }

  /** Sorting distinct strings gives an ascending sequence of the same strings. */
  lemma {:induction false} SortFacts(s: seq<string>)
    requires forall i, j :: 0 <= i < j < |s| ==> s[i] != s[j]
    ensures Ascending(Sort(s))
    ensures forall y :: y in Sort(s) <==> y in s
  {
    if s != [] {
      assert s == [s[0]] + s[1..];
      SortFacts(s[1..]);
      InsertFacts(s[0], Sort(s[1..]));
    }
  }

  /** An ascending sequence is determined by its elements. */
  lemma {:induction false} AscendingUnique(s: seq<string>, t: seq<string>)
    requires Ascending(s) && Ascending(t) && forall y :: y in s <==> y in t
    ensures s == t
  {
    assert t != [] ==> t[0] in s;
    if s != [] {
      assert s[0] in t && t != [] && t[0] in s;
      if s[0] != t[0] {
        var i :| 0 <= i < |t| && t[i] == s[0];
        var j :| 0 <= j < |s| && s[j] == t[0];
        BeforeAsymmetric(s[0], t[0]);
      }
      assert s == [s[0]] + s[1..] && t == [t[0]] + t[1..];
      TailElements(s);
      TailElements(t);
      AscendingUnique(s[1..], t[1..]);
    }
  }

  lemma TailElements(s: seq<string>)
    requires Ascending(s) && s != []
    ensures forall y :: y in s[1..] <==> y in s && y != s[0]
  {
    assert s == [s[0]] + s[1..];
    forall y | y in s[1..] ensures y != s[0] {
      var k :| 0 <= k < |s[1..]| && s[1..][k] == y;
      assert s[k + 1] == y;
      BeforeIrreflexive(s[0]);
    }
  }
}
