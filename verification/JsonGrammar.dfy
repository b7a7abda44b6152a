/** A grammar of JSON texts, and that the parser accepts exactly the texts of this grammar, with the
    values that they denote. */
module JsonGrammar {
  import opened Json
  import opened JsonParse
  import opened JsonText

  // ---------------------------------------------------------------------------------------------
  // The grammar: which text denotes which value (RFC 8259)
  // ---------------------------------------------------------------------------------------------

  predicate Space(w: string) {
    forall i :: 0 <= i < |w| ==> w[i] in {' ', '\t', '\n', '\r'}
  }

  /** The letter after a backslash, and the character meant. */
  predicate Escaped(e: char, c: char) {
    || (e == '"' && c == '"') || (e == '\\' && c == '\\') || (e == '/' && c == '/')
    || (e == 'b' && c == 8 as char) || (e == 'f' && c == 12 as char)
    || (e == 'n' && c == '\n') || (e == 'r' && c == '\r') || (e == 't' && c == '\t')
  }

  /** The character of a code unit; half of a surrogate pair stands for U+FFFD. */
  predicate CodeUnit(cp: int, c: char) {
    0 <= cp <= 0xFFFF && c == if 0xD800 <= cp <= 0xDFFF then 0xFFFD as char else cp as char
  }

  /** A character of a string: itself, a short escape, or four hexadecimal digits. */
  predicate CharText(h: Host, w: string, c: char) {
    || (|w| == 1 && w[0] == c && c != '"' && c != '\\' && c >= ' ')
    || (|w| == 2 && w[0] == '\\' && Escaped(w[1], c))
    || (|w| == 6 && w[0] == '\\' && w[1] == 'u' && h.hexVal(w[2..]).Some? && CodeUnit(h.hexVal(w[2..]).value, c))
  }

  ghost predicate CharsText(h: Host, w: string, t: string)
    decreases |t|
  {
    if t == "" then w == ""
    else exists k :: 0 < k <= |w| && CharText(h, w[..k], t[0]) && CharsText(h, w[k..], t[1..])
  }

  predicate Enclosed(w: string, open: char, close: char) {
    |w| >= 2 && w[0] == open && w[|w| - 1] == close
  }

  function Inner(w: string): string
    requires |w| >= 2
  {
    w[1..|w| - 1]
  }

  ghost predicate StringText(h: Host, w: string, t: string) {
    Enclosed(w, '"', '"') && CharsText(h, Inner(w), t)
  }

  ghost predicate NumberText(h: Host, w: string, x: Double) {
    x == h.toDouble(w) && exists a, b, c :: w == a + b + c && IsInteger(a) && IsFraction(b) && IsExponent(c)
  }

  /** Set the members one after another: a repeated key keeps its place and takes the last value. */
  function PutAll(ms: seq<Member>, ps: seq<Member>): seq<Member>
    decreases |ps|
  {
    if ps == [] then ms else PutAll(Put(ms, ps[0].key, ps[0].value), ps[1..])
  }

  /** A text denotes a value nested at most so many levels. */
  ghost predicate ValueText(h: Host, w: string, v: Value, levels: nat)
    decreases |w|, 0
  {
    levels > 0
    && match v
       case Null => w == "null"
       case Bool(b) => w == if b then "true" else "false"
       case Num(x) => NumberText(h, w, x)
       case Str(t) => StringText(h, w, t)
       case Arr(es) => Enclosed(w, '[', ']') && if es == [] then Space(Inner(w)) else ElemsText(h, Inner(w), es, levels - 1)
       case Obj(ms) =>
         Enclosed(w, '{', '}')
         && if ms == [] then Space(Inner(w))
            else exists ps: seq<Member> :: MembersText(h, Inner(w), ps, levels - 1) && ms == PutAll([], ps)
  }

  /** A value with white space around it. */
  ghost predicate ElemText(h: Host, w: string, v: Value, levels: nat)
    decreases |w|, 1
  {
    exists a: nat, b: nat :: a <= b <= |w| && Space(w[..a]) && Space(w[b..]) && ValueText(h, w[a..b], v, levels)
  }

  /** Values separated by commas. */
  ghost predicate ElemsText(h: Host, w: string, es: seq<Value>, levels: nat)
    decreases |w|, 2
  {
    if |es| <= 1 then es != [] && ElemText(h, w, es[0], levels)
    else exists k :: 0 <= k < |w| && w[k] == ',' && ElemText(h, w[..k], es[0], levels) && ElemsText(h, w[k + 1..], es[1..], levels)
  }

  ghost predicate KeyText(h: Host, w: string, key: string) {
    exists a: nat, b: nat :: a <= b <= |w| && Space(w[..a]) && Space(w[b..]) && StringText(h, w[a..b], key)
  }

  /** A key, a colon and a value. */
  ghost predicate MemberText(h: Host, w: string, m: Member, levels: nat)
    decreases |w|, 2
  {
    exists k :: 0 <= k < |w| && w[k] == ':' && KeyText(h, w[..k], m.key) && ElemText(h, w[k + 1..], m.value, levels)
  }

  ghost predicate MembersText(h: Host, w: string, ps: seq<Member>, levels: nat)
    decreases |w|, 3
  {
    if |ps| <= 1 then ps != [] && MemberText(h, w, ps[0], levels)
    else exists k :: 0 <= k < |w| && w[k] == ',' && MemberText(h, w[..k], ps[0], levels) && MembersText(h, w[k + 1..], ps[1..], levels)
  }

  // ---------------------------------------------------------------------------------------------
  // Putting texts together
  // ---------------------------------------------------------------------------------------------

  lemma CharsCons(h: Host, w: string, c: char, rest: string, t: string)
    requires CharText(h, w, c) && CharsText(h, rest, t)
    ensures CharsText(h, w + rest, [c] + t)
  {
    var all := w + rest;
    assert all[..|w|] == w && all[|w|..] == rest && ([c] + t)[1..] == t;
  }

  lemma EnclosedIs(open: char, body: string, close: char)
    ensures var w := [open] + body + [close];
            Enclosed(w, open, close) && Inner(w) == body
  {
  }

  lemma ElemOf(h: Host, before: string, w: string, after: string, v: Value, levels: nat)
    requires Space(before) && Space(after) && ValueText(h, w, v, levels)
    ensures ElemText(h, before + w + after, v, levels)
  {
    var all, a, b := before + w + after, |before|, |before| + |w|;
    assert all[..a] == before && all[b..] == after && all[a..b] == w;
  }

  lemma KeyOf(h: Host, before: string, w: string, after: string, key: string)
    requires Space(before) && Space(after) && StringText(h, w, key)
    ensures KeyText(h, before + w + after, key)
  {
    var all, a, b := before + w + after, |before|, |before| + |w|;
    assert all[..a] == before && all[b..] == after && all[a..b] == w;
  }

  lemma ElemsCons(h: Host, w: string, e: Value, rest: string, es: seq<Value>, levels: nat)
    requires ElemText(h, w, e, levels) && ElemsText(h, rest, es, levels)
    ensures ElemsText(h, w + [','] + rest, [e] + es, levels)
  {
    var all := w + [','] + rest;
    assert all[..|w|] == w && all[|w|] == ',' && all[|w| + 1..] == rest && ([e] + es)[1..] == es;
  }

  lemma MemberOf(h: Host, w: string, key: string, rest: string, v: Value, levels: nat)
    requires KeyText(h, w, key) && ElemText(h, rest, v, levels)
    ensures MemberText(h, w + [':'] + rest, Member(key, v), levels)
  {
    var all := w + [':'] + rest;
    assert all[..|w|] == w && all[|w|] == ':' && all[|w| + 1..] == rest;
  }

  lemma MembersCons(h: Host, w: string, m: Member, rest: string, ps: seq<Member>, levels: nat)
    requires MemberText(h, w, m, levels) && MembersText(h, rest, ps, levels)
    ensures MembersText(h, w + [','] + rest, [m] + ps, levels)
  {
    var all := w + [','] + rest;
    assert all[..|w|] == w && all[|w|] == ',' && all[|w| + 1..] == rest && ([m] + ps)[1..] == ps;
  }

  // ---------------------------------------------------------------------------------------------
  // Taking texts apart
  // ---------------------------------------------------------------------------------------------

  lemma ElemSplit(h: Host, w: string, v: Value, levels: nat) returns (before: string, mid: string, after: string)
    requires ElemText(h, w, v, levels)
    ensures w == before + mid + after && Space(before) && Space(after) && ValueText(h, mid, v, levels)
    ensures |mid| <= |w|
  {
    var a: nat, b: nat :| a <= b <= |w| && Space(w[..a]) && Space(w[b..]) && ValueText(h, w[a..b], v, levels);
    before, mid, after := w[..a], w[a..b], w[b..];
  }

  lemma KeySplit(h: Host, w: string, key: string) returns (before: string, mid: string, after: string)
    requires KeyText(h, w, key)
    ensures w == before + mid + after && Space(before) && Space(after) && StringText(h, mid, key)
  {
    var a: nat, b: nat :| a <= b <= |w| && Space(w[..a]) && Space(w[b..]) && StringText(h, w[a..b], key);
    before, mid, after := w[..a], w[a..b], w[b..];
  }

  lemma ElemsSplit(h: Host, w: string, es: seq<Value>, levels: nat) returns (first: string, rest: string)
    requires ElemsText(h, w, es, levels) && |es| > 1
    ensures w == first + [','] + rest && ElemText(h, first, es[0], levels) && ElemsText(h, rest, es[1..], levels)
  {
    var k :| 0 <= k < |w| && w[k] == ',' && ElemText(h, w[..k], es[0], levels) && ElemsText(h, w[k + 1..], es[1..], levels);
    first, rest := w[..k], w[k + 1..];
    Cut(w, k);
  }

  lemma Cut(w: string, k: nat)
    requires k < |w|
    ensures w == w[..k] + [w[k]] + w[k + 1..]
  {
  }

  lemma MemberSplit(h: Host, w: string, m: Member, levels: nat) returns (key: string, rest: string)
    requires MemberText(h, w, m, levels)
    ensures w == key + [':'] + rest && KeyText(h, key, m.key) && ElemText(h, rest, m.value, levels)
  {
    var k :| 0 <= k < |w| && w[k] == ':' && KeyText(h, w[..k], m.key) && ElemText(h, w[k + 1..], m.value, levels);
    key, rest := w[..k], w[k + 1..];
    Cut(w, k);
  }

  lemma MembersSplit(h: Host, w: string, ps: seq<Member>, levels: nat) returns (first: string, rest: string)
    requires MembersText(h, w, ps, levels) && |ps| > 1
    ensures w == first + [','] + rest && MemberText(h, first, ps[0], levels) && MembersText(h, rest, ps[1..], levels)
  {
    var k :| 0 <= k < |w| && w[k] == ',' && MemberText(h, w[..k], ps[0], levels) && MembersText(h, w[k + 1..], ps[1..], levels);
    first, rest := w[..k], w[k + 1..];
    Cut(w, k);
  }

  lemma FirstOfThree(sp: string, a: string, b: string, c: string)
    ensures sp + (a + b + c) == (sp + a) + b + c
  {
  }

  lemma JoinSpaces(a: string, b: string)
    requires Space(a) && Space(b)
    ensures Space(a + b)
  {
  }

  lemma ElemAfterSpace(h: Host, sp: string, w: string, v: Value, levels: nat)
    requires Space(sp) && ElemText(h, w, v, levels)
    ensures ElemText(h, sp + w, v, levels)
  {
    var before, mid, after := ElemSplit(h, w, v, levels);
    JoinSpaces(sp, before);
    ElemOf(h, sp + before, mid, after, v, levels);
    FirstOfThree(sp, before, mid, after);
  }

  lemma KeyAfterSpace(h: Host, sp: string, w: string, key: string)
    requires Space(sp) && KeyText(h, w, key)
    ensures KeyText(h, sp + w, key)
  {
    var before, mid, after := KeySplit(h, w, key);
    JoinSpaces(sp, before);
    KeyOf(h, sp + before, mid, after, key);
    FirstOfThree(sp, before, mid, after);
  }

  lemma ElemsAfterSpace(h: Host, sp: string, w: string, es: seq<Value>, levels: nat)
    requires Space(sp) && ElemsText(h, w, es, levels)
    ensures ElemsText(h, sp + w, es, levels)
  {
    if |es| <= 1 {
      ElemAfterSpace(h, sp, w, es[0], levels);
    } else {
      var first, rest := ElemsSplit(h, w, es, levels);
      ElemAfterSpace(h, sp, first, es[0], levels);
      ElemsCons(h, sp + first, es[0], rest, es[1..], levels);
      FirstOfThree(sp, first, [','], rest);
      Again(es);
    }
  }

  lemma Again<T>(s: seq<T>)
    requires s != []
    ensures [s[0]] + s[1..] == s
  {
  }

  lemma MemberAfterSpace(h: Host, sp: string, w: string, m: Member, levels: nat)
    requires Space(sp) && MemberText(h, w, m, levels)
    ensures MemberText(h, sp + w, m, levels)
  {
    var key, rest := MemberSplit(h, w, m, levels);
    KeyAfterSpace(h, sp, key, m.key);
    MemberOf(h, sp + key, m.key, rest, m.value, levels);
    FirstOfThree(sp, key, [':'], rest);
  }

  lemma MembersAfterSpace(h: Host, sp: string, w: string, ps: seq<Member>, levels: nat)
    requires Space(sp) && MembersText(h, w, ps, levels)
    ensures MembersText(h, sp + w, ps, levels)
  {
    if |ps| <= 1 {
      MemberAfterSpace(h, sp, w, ps[0], levels);
    } else {
      var first, rest := MembersSplit(h, w, ps, levels);
      MemberAfterSpace(h, sp, first, ps[0], levels);
      MembersCons(h, sp + first, ps[0], rest, ps[1..], levels);
      FirstOfThree(sp, first, [','], rest);
      Again(ps);
    }
  }

  // ---------------------------------------------------------------------------------------------
  // What is read has been written: soundness
  // ---------------------------------------------------------------------------------------------

  lemma CharSound(h: Host, s: string, r: Read<char>) returns (w: string)
    requires s != "" && s[0] != '"' && ReadChar(h, s) == Ok(r)
    ensures s == w + r.rest && w != "" && CharText(h, w, r.item)
  {
    var k := |s| - |r.rest|;
    w := s[..k];
    assert s == s[..k] + s[k..];
    if s[0] == '\\' && s[1] == 'u' { assert w[2..] == s[2..6]; }
  }

  lemma {:induction false} CharsSound(h: Host, s: string, acc: string, r: Read<string>) returns (w: string, t: string)
    requires ReadChars(h, s, acc) == Ok(r)
    ensures r.item == acc + t && CharsText(h, w, t) && s == w + ['"'] + r.rest
    decreases |s|
  {
    if s[0] == '"' {
      w, t := "", "";
      assert s == ['"'] + s[1..];
    } else {
      var c := ReadChar(h, s).value;
      var first := CharSound(h, s, c);
      var rest, u := CharsSound(h, c.rest, acc + [c.item], r);
      CharsCons(h, first, c.item, rest, u);
      w, t := first + rest, [c.item] + u;
      FirstOfThree(first, rest, ['"'], r.rest);
      FirstOfTwo(acc, [c.item], u);
    }
  }

  lemma FirstOfTwo<T>(a: seq<T>, b: seq<T>, c: seq<T>)
    ensures (a + b) + c == a + (b + c)
  {
  }

  lemma StringSound(h: Host, s: string, r: Read<string>) returns (w: string)
    requires ReadString(h, s) == Ok(r)
    ensures s == w + r.rest && StringText(h, w, r.item)
  {
    var body, t := CharsSound(h, s[1..], "", r);
    w := ['"'] + body + ['"'];
    EnclosedIs('"', body, '"');
    Again(s);
    FirstOfThree(['"'], body, ['"'], r.rest);
    assert "" + t == t;
  }

  lemma SpaceSound(s: string) returns (w: string)
    ensures s == w + SkipWs(s) && Space(w)
  {
    var k := SpacesSkipped(s);
    w := s[..k];
  }

  lemma NumberSound(h: Host, s: string, r: Read<Value>) returns (w: string)
    requires ReadNumber(h, s) == Ok(r)
    ensures s == w + r.rest && r.item.Num? && NumberText(h, w, r.item.x)
  {
    var a, b, c := NumberIs(h, s);
    w := a + b + c;
  }

  lemma LiteralSound(word: string, v: Value, s: string, r: Read<Value>)
    requires word != "" && ReadLiteral(word, v, s) == Ok(r)
    ensures s == word + r.rest && r.item == v
  {
  }

  lemma {:induction false} ValueSound(h: Host, s: string, levels: nat, r: Read<Value>) returns (w: string)
    requires ReadValue(h, s, levels) == Ok(r)
    ensures s == w + r.rest && ValueText(h, w, r.item, levels)
    decreases |s|, 1
  {
    if s[0] == '{' {
      w := ObjectSound(h, s, levels, r);
    } else if s[0] == '[' {
      w := ArraySound(h, s, levels, r);
    } else if s[0] == '"' {
      w := StringSound(h, s, ReadString(h, s).value);
    } else if s[0] == 't' {
      w := "true";
      LiteralSound(w, Bool(true), s, r);
    } else if s[0] == 'f' {
      w := "false";
      LiteralSound(w, Bool(false), s, r);
    } else if s[0] == 'n' {
      w := "null";
      LiteralSound(w, Null, s, r);
    } else {
      w := NumberSound(h, s, r);
    }
  }

  /** The first character, white space, what stands inside, the last character, and what follows. */
  lemma EnclosedParts(s: string, open: char, tail: string, sp: string, t: string, body: string, close: char, rest: string)
    requires s == [open] + tail && tail == sp + t && t == body + [close] + rest
    ensures s == ([open] + (sp + body) + [close]) + rest
  {
  }

  lemma {:induction false} ArraySound(h: Host, s: string, levels: nat, r: Read<Value>) returns (w: string)
    requires s != "" && s[0] == '[' && ReadValue(h, s, levels) == Ok(r)
    ensures s == w + r.rest && ValueText(h, w, r.item, levels)
    decreases |s|, 0
  {
    var t := SkipWs(s[1..]);
    var sp := SpaceSound(s[1..]);
    Again(s);
    var body := "";
    if StartsWith(t, ']') {
      Again(t);
      assert body + [']'] + t[1..] == t;
      assert sp + body == sp;
    } else {
      var es;
      body, es := ElemsSound(h, t, levels - 1, [], r);
      ElemsAfterSpace(h, sp, body, es, levels - 1);
      assert [] + es == es;
    }
    w := ['['] + (sp + body) + [']'];
    EnclosedIs('[', sp + body, ']');
    EnclosedParts(s, '[', s[1..], sp, t, body, ']', r.rest);
  }

  lemma ReadElemIs(h: Host, s: string, levels: nat, r: Read<Value>) returns (e: Read<Value>)
    requires ReadElem(h, s, levels) == Ok(r)
    ensures ReadValue(h, SkipWs(s), levels) == Ok(e) && r == Read(e.item, SkipWs(e.rest))
    ensures |SkipWs(s)| <= |s| && |e.rest| < |s|
  {
    e := ReadValue(h, SkipWs(s), levels).value;
  }

  lemma {:induction false} ElemSound(h: Host, s: string, levels: nat, r: Read<Value>) returns (w: string)
    requires ReadElem(h, s, levels) == Ok(r)
    ensures s == w + r.rest && ElemText(h, w, r.item, levels)
    decreases |s|, 2
  {
    var e := ReadElemIs(h, s, levels, r);
    var before := SpaceSound(s);
    var mid := ValueSound(h, SkipWs(s), levels, e);
    var after := SpaceSound(e.rest);
    w := before + mid + after;
    ElemOf(h, before, mid, after, e.item, levels);
    Assemble(before, mid, after, SkipWs(s), e.rest, r.rest);
  }

  lemma ReadElemsIs(h: Host, s: string, levels: nat, acc: seq<Value>, r: Read<Value>) returns (e: Read<Value>)
    requires ReadElems(h, s, levels, acc) == Ok(r)
    ensures ReadElem(h, s, levels) == Ok(e) && e.rest != "" && |e.rest| < |s|
    ensures e.rest[0] == ',' || e.rest[0] == ']'
    ensures e.rest[0] == ',' ==> ReadElems(h, e.rest[1..], levels, acc + [e.item]) == Ok(r)
    ensures e.rest[0] == ']' ==> r == Read(Arr(acc + [e.item]), e.rest[1..])
  {
    e := ReadElem(h, s, levels).value;
  }

  lemma {:induction false} ElemsSound(h: Host, s: string, levels: nat, acc: seq<Value>, r: Read<Value>) returns (w: string, es: seq<Value>)
    requires ReadElems(h, s, levels, acc) == Ok(r)
    ensures s == w + [']'] + r.rest && r.item == Arr(acc + es) && es != [] && ElemsText(h, w, es, levels)
    decreases |s|, 4
  {
    var e := ReadElemsIs(h, s, levels, acc, r);
    var first := ElemSound(h, s, levels, e);
    Again(e.rest);
    if e.rest[0] == ',' {
      var rest, more := ElemsSound(h, e.rest[1..], levels, acc + [e.item], r);
      ElemsCons(h, first, e.item, rest, more, levels);
      w, es := first + [','] + rest, [e.item] + more;
      FirstOfTwo(acc, [e.item], more);
      SplitAt(first, ',', rest, ']', r.rest);
    } else {
      w, es := first, [e.item];
      FirstOfTwo(first, [']'], r.rest);
    }
  }

  lemma SplitAt(first: string, comma: char, rest: string, close: char, after: string)
    ensures first + ([comma] + (rest + [close] + after)) == first + [comma] + rest + [close] + after
  {
  }

  lemma ReadKeyIs(h: Host, s: string, r: Read<string>) returns (k: Read<string>)
    requires ReadKey(h, s) == Ok(r)
    ensures ReadString(h, SkipWs(s)) == Ok(k) && r.item == k.item && SkipWs(k.rest) == [':'] + r.rest
  {
    k := ReadString(h, SkipWs(s)).value;
    Again(SkipWs(k.rest));
  }

  lemma KeySound(h: Host, s: string, r: Read<string>) returns (w: string)
    requires ReadKey(h, s) == Ok(r)
    ensures s == w + [':'] + r.rest && KeyText(h, w, r.item)
  {
    var k := ReadKeyIs(h, s, r);
    var before := SpaceSound(s);
    var mid := StringSound(h, SkipWs(s), k);
    var after := SpaceSound(k.rest);
    w := before + mid + after;
    KeyOf(h, before, mid, after, k.item);
    Assemble(before, mid, after, SkipWs(s), k.rest, [':'] + r.rest);
    FirstOfTwo(w, [':'], r.rest);
  }

  lemma ReadMemberIs(h: Host, s: string, levels: nat, r: Read<Member>) returns (k: Read<string>, v: Read<Value>)
    requires ReadMember(h, s, levels) == Ok(r)
    ensures ReadKey(h, s) == Ok(k) && ReadElem(h, k.rest, levels) == Ok(v) && |k.rest| < |s|
    ensures r == Read(Member(k.item, v.item), v.rest)
  {
    k := ReadKey(h, s).value;
    v := ReadElem(h, k.rest, levels).value;
  }

  lemma {:induction false} MemberSound(h: Host, s: string, levels: nat, r: Read<Member>) returns (w: string)
    requires ReadMember(h, s, levels) == Ok(r)
    ensures s == w + r.rest && MemberText(h, w, r.item, levels)
    decreases |s|, 3
  {
    var k, v := ReadMemberIs(h, s, levels, r);
    var key := KeySound(h, s, k);
    var rest := ElemSound(h, k.rest, levels, v);
    MemberOf(h, key, k.item, rest, v.item, levels);
    w := key + [':'] + rest;
    FirstOfTwo(key + [':'], rest, r.rest);
  }

  lemma ReadMembersIs(h: Host, s: string, levels: nat, acc: seq<Member>, r: Read<Value>) returns (m: Read<Member>)
    requires ReadMembers(h, s, levels, acc) == Ok(r)
    ensures ReadMember(h, s, levels) == Ok(m) && m.rest != "" && |m.rest| < |s|
    ensures m.rest[0] == ',' || m.rest[0] == '}'
    ensures m.rest[0] == ',' ==> ReadMembers(h, m.rest[1..], levels, Put(acc, m.item.key, m.item.value)) == Ok(r)
    ensures m.rest[0] == '}' ==> r == Read(Obj(Put(acc, m.item.key, m.item.value)), m.rest[1..])
  {
    m := ReadMember(h, s, levels).value;
  }

  lemma PutAllCons(acc: seq<Member>, p: Member, ps: seq<Member>)
    ensures PutAll(acc, [p] + ps) == PutAll(Put(acc, p.key, p.value), ps)
  {
    assert ([p] + ps)[1..] == ps;
  }

  lemma {:induction false} MembersSound(h: Host, s: string, levels: nat, acc: seq<Member>, r: Read<Value>) returns (w: string, ps: seq<Member>)
    requires ReadMembers(h, s, levels, acc) == Ok(r)
    ensures s == w + ['}'] + r.rest && r.item == Obj(PutAll(acc, ps)) && ps != [] && MembersText(h, w, ps, levels)
    decreases |s|, 5
  {
    var m := ReadMembersIs(h, s, levels, acc, r);
    var first := MemberSound(h, s, levels, m);
    Again(m.rest);
    if m.rest[0] == ',' {
      var rest, more := MembersSound(h, m.rest[1..], levels, Put(acc, m.item.key, m.item.value), r);
      MembersCons(h, first, m.item, rest, more, levels);
      w, ps := first + [','] + rest, [m.item] + more;
      PutAllCons(acc, m.item, more);
      SplitAt(first, ',', rest, '}', r.rest);
    } else {
      w, ps := first, [m.item];
      PutAllCons(acc, m.item, []);
      assert [m.item] + [] == [m.item];
      FirstOfTwo(first, ['}'], r.rest);
    }
  }

  lemma {:induction false} PutAllSome(acc: seq<Member>, ps: seq<Member>)
    requires acc != [] || ps != []
    ensures PutAll(acc, ps) != []
    decreases |ps|
  {
    if ps != [] { PutAllSome(Put(acc, ps[0].key, ps[0].value), ps[1..]); }
  }

  lemma {:induction false} ObjectSound(h: Host, s: string, levels: nat, r: Read<Value>) returns (w: string)
    requires s != "" && s[0] == '{' && ReadValue(h, s, levels) == Ok(r)
    ensures s == w + r.rest && ValueText(h, w, r.item, levels)
    decreases |s|, 0
  {
    var t := SkipWs(s[1..]);
    var sp := SpaceSound(s[1..]);
    Again(s);
    var body := "";
    if StartsWith(t, '}') {
      Again(t);
      assert body + ['}'] + t[1..] == t;
      assert sp + body == sp;
    } else {
      var ps;
      body, ps := MembersSound(h, t, levels - 1, [], r);
      MembersAfterSpace(h, sp, body, ps, levels - 1);
      PutAllSome([], ps);
    }
    w := ['{'] + (sp + body) + ['}'];
    EnclosedIs('{', sp + body, '}');
    EnclosedParts(s, '{', s[1..], sp, t, body, '}', r.rest);
  }

  // ---------------------------------------------------------------------------------------------
  // What has been written is read: completeness
  // ---------------------------------------------------------------------------------------------

  /** What may follow a value. */
  predicate Stop(rest: string) {
    rest == "" || rest[0] in {' ', '\t', '\n', '\r', ',', ']', '}'}
  }

  /** What may follow a value and the white space after it. */
  predicate Mark(rest: string) {
    rest == "" || rest[0] in {',', ']', '}'}
  }

  predicate NoSpace(t: string) {
    t == "" || t[0] !in {' ', '\t', '\n', '\r'}
  }

  /** How a value begins. */
  predicate Begins(w: string) {
    w != "" && (w[0] in {'{', '[', '"', 't', 'f', 'n', '-'} || '0' <= w[0] <= '9')
  }

  lemma CharComplete(h: Host, w: string, c: char, t: string)
    requires CharText(h, w, c)
    ensures w != "" && w[0] != '"' && ReadChar(h, w + t) == Ok(Read(c, t))
  {
    var s := w + t;
    assert s[|w|..] == t;
    if |w| == 6 { assert s[2..6] == w[2..]; }
  }

  lemma {:induction false} CharsComplete(h: Host, w: string, t: string, acc: string, rest: string)
    requires CharsText(h, w, t)
    ensures ReadChars(h, w + ['"'] + rest, acc) == Ok(Read(acc + t, rest))
    decreases |t|
  {
    if t == "" {
      assert (w + ['"'] + rest)[1..] == rest && acc + t == acc;
    } else {
      var k :| 0 < k <= |w| && CharText(h, w[..k], t[0]) && CharsText(h, w[k..], t[1..]);
      var more := w[k..] + ['"'] + rest;
      CharComplete(h, w[..k], t[0], more);
      CharsComplete(h, w[k..], t[1..], acc + [t[0]], rest);
      FirstOfThree(w[..k], w[k..], ['"'], rest);
      assert w[..k] + w[k..] == w;
      NextChar(h, w[..k] + more, acc, t[0], more);
      FirstOfTwo(acc, [t[0]], t[1..]);
      Again(t);
    }
  }

  lemma NextChar(h: Host, s: string, acc: string, c: char, more: string)
    requires s != "" && s[0] != '"' && ReadChar(h, s) == Ok(Read(c, more))
    ensures ReadChars(h, s, acc) == ReadChars(h, more, acc + [c])
  {
  }

  lemma StringComplete(h: Host, w: string, t: string, rest: string)
    requires StringText(h, w, t)
    ensures w != "" && w[0] == '"' && ReadString(h, w + rest) == Ok(Read(t, rest))
  {
    CharsComplete(h, Inner(w), t, "", rest);
    assert (w + rest)[1..] == Inner(w) + ['"'] + rest;
    assert "" + t == t;
  }

  lemma {:induction false} SpaceComplete(sp: string, t: string)
    requires Space(sp) && NoSpace(t)
    ensures SkipWs(sp + t) == t
  {
    if sp == "" {
      assert sp + t == t;
    } else {
      assert (sp + t)[1..] == sp[1..] + t;
      SpaceComplete(sp[1..], t);
    }
  }

  lemma NumberComplete(h: Host, w: string, x: Double, rest: string)
    requires NumberText(h, w, x) && Stop(rest)
    ensures w != "" && (w[0] == '-' || '0' <= w[0] <= '9') && ReadNumber(h, w + rest) == Ok(Read(Num(x), rest))
  {
    var a, b, c :| w == a + b + c && IsInteger(a) && IsFraction(b) && IsExponent(c);
    assert w[0] == a[0];
    NumberParses(h, a, b, c, rest);
  }

  lemma LiteralComplete(word: string, v: Value, rest: string)
    requires word != ""
    ensures ReadLiteral(word, v, word + rest) == Ok(Read(v, rest))
  {
    assert (word + rest)[|word|..] == rest;
  }

  lemma ValueBegins(h: Host, w: string, v: Value, levels: nat)
    requires ValueText(h, w, v, levels)
    ensures Begins(w)
  {
    match v
    case Num(x) => NumberComplete(h, w, x, "");
    case Str(t) => StringComplete(h, w, t, "");
    case _ =>
  }

  lemma {:induction false} ValueComplete(h: Host, w: string, v: Value, levels: nat, rest: string)
    requires ValueText(h, w, v, levels) && Stop(rest)
    ensures ReadValue(h, w + rest, levels) == Ok(Read(v, rest))
    decreases |w|, 1
  {
    match v
    case Null => LiteralComplete(w, v, rest);
    case Bool(b) => LiteralComplete(w, v, rest);
    case Num(x) => NumberComplete(h, w, x, rest);
    case Str(t) => StringComplete(h, w, t, rest);
    case Arr(es) => ArrayComplete(h, w, es, levels, rest);
    case Obj(ms) => ObjectComplete(h, w, ms, levels, rest);
  }

  /** Past the opening character. */
  lemma InsideOf(w: string, open: char, close: char, rest: string)
    requires Enclosed(w, open, close)
    ensures (w + rest)[1..] == Inner(w) + ([close] + rest)
  {
  }

  lemma {:induction false} ArrayComplete(h: Host, w: string, es: seq<Value>, levels: nat, rest: string)
    requires ValueText(h, w, Arr(es), levels)
    ensures ReadValue(h, w + rest, levels) == Ok(Read(Arr(es), rest))
    decreases |w|, 0
  {
    InsideOf(w, '[', ']', rest);
    if es == [] {
      SpaceComplete(Inner(w), [']'] + rest);
      assert ([']'] + rest)[1..] == rest;
    } else {
      ElemsComplete(h, Inner(w), es, levels - 1, [], rest);
      ElemsBegin(h, Inner(w), es, levels - 1, [']'] + rest);
      ElemsSkip(h, Inner(w) + ([']'] + rest), levels - 1, []);
      assert [] + es == es;
    }
  }

  lemma AfterSpaces(sp: string, mid: string, after: string, rest: string)
    requires Space(sp) && Begins(mid)
    ensures SkipWs(sp + mid + after + rest) == mid + (after + rest)
  {
    SpaceComplete(sp, mid + (after + rest));
    assert sp + mid + after + rest == sp + (mid + (after + rest));
  }

  lemma ElemBegins(h: Host, w: string, v: Value, levels: nat, rest: string)
    requires ElemText(h, w, v, levels)
    ensures Begins(SkipWs(w + rest))
  {
    var before, mid, after := ElemSplit(h, w, v, levels);
    ValueBegins(h, mid, v, levels);
    AfterSpaces(before, mid, after, rest);
  }

  lemma ElemsBegin(h: Host, w: string, es: seq<Value>, levels: nat, rest: string)
    requires ElemsText(h, w, es, levels)
    ensures Begins(SkipWs(w + rest))
  {
    if |es| <= 1 {
      ElemBegins(h, w, es[0], levels, rest);
    } else {
      var first, more := ElemsSplit(h, w, es, levels);
      ElemBegins(h, first, es[0], levels, [','] + (more + rest));
      Regroup(first, [','], more, rest);
    }
  }

  lemma {:induction false} SkipTwice(s: string)
    ensures SkipWs(SkipWs(s)) == SkipWs(s)
  {
    if s != "" && IsSpace(s[0]) { SkipTwice(s[1..]); }
  }

  lemma ElemsSkip(h: Host, s: string, levels: nat, acc: seq<Value>)
    ensures ReadElems(h, SkipWs(s), levels, acc) == ReadElems(h, s, levels, acc)
  {
    SkipTwice(s);
    assert ReadElem(h, SkipWs(s), levels) == ReadElem(h, s, levels);
  }

  lemma StopAfter(after: string, rest: string)
    requires Space(after) && Mark(rest)
    ensures Stop(after + rest) && NoSpace(rest)
  {
    if after == "" { assert after + rest == rest; } else { assert (after + rest)[0] == after[0]; }
  }

  lemma {:induction false} ElemComplete(h: Host, w: string, v: Value, levels: nat, rest: string)
    requires ElemText(h, w, v, levels) && Mark(rest)
    ensures ReadElem(h, w + rest, levels) == Ok(Read(v, rest))
    decreases |w|, 2
  {
    var before, mid, after := ElemSplit(h, w, v, levels);
    ValueBegins(h, mid, v, levels);
    AfterSpaces(before, mid, after, rest);
    StopAfter(after, rest);
    ValueComplete(h, mid, v, levels, after + rest);
    SpaceComplete(after, rest);
    ReadElemOf(h, w + rest, levels, v, mid + (after + rest), after + rest);
  }

  lemma ReadElemOf(h: Host, s: string, levels: nat, v: Value, t: string, rest: string)
    requires SkipWs(s) == t && ReadValue(h, t, levels) == Ok(Read(v, rest))
    ensures ReadElem(h, s, levels) == Ok(Read(v, SkipWs(rest)))
  {
  }

  lemma LastElem(h: Host, s: string, levels: nat, acc: seq<Value>, e: Value, rest: string)
    requires ReadElem(h, s, levels) == Ok(Read(e, [']'] + rest))
    ensures ReadElems(h, s, levels, acc) == Ok(Read(Arr(acc + [e]), rest))
  {
    assert ([']'] + rest)[1..] == rest;
  }

  lemma NextElem(h: Host, s: string, levels: nat, acc: seq<Value>, e: Value, rest: string)
    requires ReadElem(h, s, levels) == Ok(Read(e, [','] + rest))
    ensures ReadElems(h, s, levels, acc) == ReadElems(h, rest, levels, acc + [e])
  {
    assert ([','] + rest)[1..] == rest;
  }

  lemma Regroup(first: string, comma: string, more: string, tail: string)
    ensures first + comma + more + tail == first + (comma + (more + tail))
  {
  }

  lemma {:induction false} ElemsComplete(h: Host, w: string, es: seq<Value>, levels: nat, acc: seq<Value>, rest: string)
    requires ElemsText(h, w, es, levels)
    ensures ReadElems(h, w + ([']'] + rest), levels, acc) == Ok(Read(Arr(acc + es), rest))
    decreases |w|, 3
  {
    if |es| <= 1 {
      ElemComplete(h, w, es[0], levels, [']'] + rest);
      LastElem(h, w + ([']'] + rest), levels, acc, es[0], rest);
      assert es == [es[0]];
    } else {
      var first, more := ElemsSplit(h, w, es, levels);
      var tail := more + ([']'] + rest);
      ElemComplete(h, first, es[0], levels, [','] + tail);
      Regroup(first, [','], more, [']'] + rest);
      NextElem(h, w + ([']'] + rest), levels, acc, es[0], tail);
      ElemsComplete(h, more, es[1..], levels, acc + [es[0]], rest);
      FirstOfTwo(acc, [es[0]], es[1..]);
      Again(es);
    }
  }

  lemma {:induction false} ObjectComplete(h: Host, w: string, ms: seq<Member>, levels: nat, rest: string)
    requires ValueText(h, w, Obj(ms), levels)
    ensures ReadValue(h, w + rest, levels) == Ok(Read(Obj(ms), rest))
    decreases |w|, 0
  {
    InsideOf(w, '{', '}', rest);
    if ms == [] {
      SpaceComplete(Inner(w), ['}'] + rest);
      assert (['}'] + rest)[1..] == rest;
    } else {
      var ps: seq<Member> :| MembersText(h, Inner(w), ps, levels - 1) && ms == PutAll([], ps);
      MembersComplete(h, Inner(w), ps, levels - 1, [], rest);
      MembersBegin(h, Inner(w), ps, levels - 1, ['}'] + rest);
      MembersSkip(h, Inner(w) + (['}'] + rest), levels - 1, []);
    }
  }

  lemma KeyBegins(h: Host, w: string, key: string, rest: string)
    requires KeyText(h, w, key)
    ensures StartsWith(SkipWs(w + rest), '"')
  {
    var before, mid, after := KeySplit(h, w, key);
    StringComplete(h, mid, key, "");
    AfterSpaces(before, mid, after, rest);
  }

  lemma MemberBegins(h: Host, w: string, m: Member, levels: nat, rest: string)
    requires MemberText(h, w, m, levels)
    ensures StartsWith(SkipWs(w + rest), '"')
  {
    var key, more := MemberSplit(h, w, m, levels);
    KeyBegins(h, key, m.key, [':'] + (more + rest));
    Regroup(key, [':'], more, rest);
  }

  lemma MembersBegin(h: Host, w: string, ps: seq<Member>, levels: nat, rest: string)
    requires MembersText(h, w, ps, levels)
    ensures StartsWith(SkipWs(w + rest), '"')
  {
    if |ps| <= 1 {
      MemberBegins(h, w, ps[0], levels, rest);
    } else {
      var first, more := MembersSplit(h, w, ps, levels);
      MemberBegins(h, first, ps[0], levels, [','] + (more + rest));
      Regroup(first, [','], more, rest);
    }
  }

  lemma MembersSkip(h: Host, s: string, levels: nat, acc: seq<Member>)
    ensures ReadMembers(h, SkipWs(s), levels, acc) == ReadMembers(h, s, levels, acc)
  {
    SkipTwice(s);
    assert ReadKey(h, SkipWs(s)) == ReadKey(h, s);
    assert ReadMember(h, SkipWs(s), levels) == ReadMember(h, s, levels);
  }

  lemma KeyComplete(h: Host, w: string, key: string, rest: string)
    requires KeyText(h, w, key)
    ensures ReadKey(h, w + ([':'] + rest)) == Ok(Read(key, rest))
  {
    var before, mid, after := KeySplit(h, w, key);
    var s := w + ([':'] + rest);
    StringComplete(h, mid, key, after + ([':'] + rest));
    AfterSpaces(before, mid, after, [':'] + rest);
    SpaceComplete(after, [':'] + rest);
    assert ([':'] + rest)[1..] == rest;
  }

  lemma {:induction false} MemberComplete(h: Host, w: string, m: Member, levels: nat, rest: string)
    requires MemberText(h, w, m, levels) && Mark(rest)
    ensures ReadMember(h, w + rest, levels) == Ok(Read(m, rest))
    decreases |w|, 3
  {
    var key, more := MemberSplit(h, w, m, levels);
    Regroup(key, [':'], more, rest);
    KeyComplete(h, key, m.key, more + rest);
    ElemComplete(h, more, m.value, levels, rest);
    ReadMemberOf(h, w + rest, levels, m.key, more + rest, m.value, rest);
  }

  lemma ReadMemberOf(h: Host, s: string, levels: nat, key: string, t: string, v: Value, rest: string)
    requires ReadKey(h, s) == Ok(Read(key, t)) && ReadElem(h, t, levels) == Ok(Read(v, rest))
    ensures ReadMember(h, s, levels) == Ok(Read(Member(key, v), rest))
  {
  }

  lemma LastMember(h: Host, s: string, levels: nat, acc: seq<Member>, m: Member, rest: string)
    requires ReadMember(h, s, levels) == Ok(Read(m, ['}'] + rest))
    ensures ReadMembers(h, s, levels, acc) == Ok(Read(Obj(Put(acc, m.key, m.value)), rest))
  {
    assert (['}'] + rest)[1..] == rest;
  }

  lemma NextMember(h: Host, s: string, levels: nat, acc: seq<Member>, m: Member, rest: string)
    requires ReadMember(h, s, levels) == Ok(Read(m, [','] + rest))
    ensures ReadMembers(h, s, levels, acc) == ReadMembers(h, rest, levels, Put(acc, m.key, m.value))
  {
    assert ([','] + rest)[1..] == rest;
  }

  lemma {:induction false} MembersComplete(h: Host, w: string, ps: seq<Member>, levels: nat, acc: seq<Member>, rest: string)
    requires MembersText(h, w, ps, levels)
    ensures ReadMembers(h, w + (['}'] + rest), levels, acc) == Ok(Read(Obj(PutAll(acc, ps)), rest))
    decreases |w|, 4
  {
    PutAllCons(acc, ps[0], ps[1..]);
    Again(ps);
    if |ps| <= 1 {
      MemberComplete(h, w, ps[0], levels, ['}'] + rest);
      LastMember(h, w + (['}'] + rest), levels, acc, ps[0], rest);
      assert ps[1..] == [];
    } else {
      var first, more := MembersSplit(h, w, ps, levels);
      var tail := more + (['}'] + rest);
      MemberComplete(h, first, ps[0], levels, [','] + tail);
      Regroup(first, [','], more, ['}'] + rest);
      NextMember(h, w + (['}'] + rest), levels, acc, ps[0], tail);
      MembersComplete(h, more, ps[1..], levels, Put(acc, ps[0].key, ps[0].value), rest);
    }
  }

  // ---------------------------------------------------------------------------------------------
  // The documents
  // ---------------------------------------------------------------------------------------------

  /** The parser accepts a text, and gives this value, exactly when the text denotes the value in the
      grammar: a value within the depth cap, with white space around it and nothing else. */
  lemma DocumentIff(h: Host, s: string, v: Value, levels: nat)
    ensures ReadDocument(h, s, levels) == Ok(v) <==> ElemText(h, s, v, levels)
  {
    if ReadDocument(h, s, levels) == Ok(v) {
      var e := ReadValue(h, SkipWs(s), levels).value;
      ReadElemOf(h, s, levels, v, SkipWs(s), e.rest);
      var w := ElemSound(h, s, levels, Read(v, ""));
      assert w + "" == w;
    }
    if ElemText(h, s, v, levels) {
      ElemComplete(h, s, v, levels, "");
      assert s + "" == s;
      var e := ReadElemIs(h, s, levels, Read(v, ""));
    }
  }

  /** A text denotes at most one value. */
  lemma OneReading(h: Host, s: string, v: Value, u: Value, levels: nat)
    requires ElemText(h, s, v, levels) && ElemText(h, s, u, levels)
    ensures v == u
  {
    DocumentIff(h, s, v, levels);
    DocumentIff(h, s, u, levels);
  }
}
