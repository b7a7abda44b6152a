/** Parsing the compact text of a value gives the value back, up to the depth cap and not beyond. */
module JsonRoundTrip {
  import opened Json
  import opened JsonParse

  /** The character after a number token does not extend it. */
  predicate EndsToken(post: string) {
    post == "" || !(IsDigit(post[0]) || post[0] in {'.', 'e', 'E'})
  }

  lemma AppendFirst<T>(acc: seq<T>, ms: seq<T>)
    requires ms != []
    ensures (acc + [ms[0]]) + ms[1..] == acc + ms
    ensures ms[1..] == [] ==> acc + [ms[0]] == acc + ms
  {
  }

  // ---------------------------------------------------------------------------------------------
  // Scalars
  // ---------------------------------------------------------------------------------------------

  lemma {:induction false} DigitsEnd(t: string, post: string)
    requires forall i :: 0 <= i < |t| ==> IsDigit(t[i])
    requires post == "" || !IsDigit(post[0])
    ensures SkipDigits(t + post) == post
  {
    if t == "" {
      assert t + post == post;
    } else {
      assert (t + post)[1..] == t[1..] + post;
      DigitsEnd(t[1..], post);
    }
  }

  lemma NumberEnds(n: int, post: string)
    requires EndsToken(post)
    ensures AfterNumber(Dec(n) + post) == Ok(post)
  {
    var d := DecNat(if n < 0 then -n else n);
    var t := d + post;
    DigitsEnd(d, post);
    assert |t| > |post| && t[0] == d[0] != '-';
    if n < 0 {
      assert Dec(n) + post == "-" + t && ("-" + t)[1..] == t;
    }
    assert AfterInteger(Dec(n) + post) == Ok(post);
    assert AfterFraction(post) == Ok(post);
  }

  lemma NumberReads(h: Host, x: Double, post: string)
    requires HostOk(h) && IsSafe(x) && EndsToken(post)
    ensures ReadNumber(h, NumText(h, x) + post) == Ok(Read(Num(x), post))
  {
    var n := x.r.Floor;
    NumberEnds(n, post);
    var s := Dec(n) + post;
    assert s[..|s| - |post|] == Dec(n);
    assert h.toDouble(Dec(n)) == Fin(n as real);
  }

  lemma EscapeReads(h: Host, c: char, post: string)
    requires HostOk(h)
    ensures EscapeChar(c)[0] != '"'
    ensures ReadChar(h, EscapeChar(c) + post) == Ok(Read(c, post))
  {
    var e := EscapeChar(c);
    var s := e + post;
    assert s[|e|..] == post;
    if |e| == 6 {
      assert s[2..6] == ControlEscape(c)[2..];
      assert h.hexVal(ControlEscape(c)[2..]) == Some(c as int);
    }
  }

  lemma PiecesCons(s: string)
    requires s != ""
    ensures Concat(Pieces(s)) == EscapeChar(s[0]) + Concat(Pieces(s[1..]))
  {
    assert Pieces(s)[1..] == Pieces(s[1..]);
  }

  lemma CharStep(h: Host, c: char, rest: string, acc: string)
    requires HostOk(h)
    ensures ReadChars(h, EscapeChar(c) + rest, acc) == ReadChars(h, rest, acc + [c])
  {
    EscapeReads(h, c, rest);
    assert (EscapeChar(c) + rest)[0] == EscapeChar(c)[0];
  }

  lemma CharsEnd(h: Host, post: string, acc: string)
    ensures ReadChars(h, "\"" + post, acc) == Ok(Read(acc, post))
  {
    assert ("\"" + post)[1..] == post;
  }

  /** The text of a string's characters and the closing quote. */
  function Closed(s: string, post: string): string {
    Concat(Pieces(s)) + ("\"" + post)
  }

  lemma ClosedStep(s: string, post: string)
    ensures s == "" ==> Closed(s, post) == "\"" + post
    ensures s != "" ==> Closed(s, post) == EscapeChar(s[0]) + Closed(s[1..], post)
  {
    if s != "" { PiecesCons(s); }
  }

  lemma {:induction false} CharsRead(h: Host, s: string, post: string, acc: string)
    requires HostOk(h)
    ensures ReadChars(h, Closed(s, post), acc) == Ok(Read(acc + s, post))
    decreases |s|
  {
    ClosedStep(s, post);
    if s == "" {
      CharsEnd(h, post, acc);
      assert acc + s == acc;
    } else {
      CharStep(h, s[0], Closed(s[1..], post), acc);
      CharsRead(h, s[1..], post, acc + [s[0]]);
      AppendFirst(acc, s);
    }
  }

  lemma StringReads(h: Host, s: string, post: string)
    requires HostOk(h)
    ensures ReadString(h, Quote(s) + post) == Ok(Read(s, post))
    ensures (Quote(s) + post)[0] == '"'
  {
    var t := Quote(s) + post;
    assert t[1..] == Closed(s, post);
    CharsRead(h, s, post, "");
    assert "" + s == s;
  }

  // ---------------------------------------------------------------------------------------------
  // Values
  // ---------------------------------------------------------------------------------------------

  /** The result of reading the compact text of something of depth d with the given levels left. */
  function Within<T>(d: nat, levels: nat, r: Read<T>): Result<Read<T>> {
    if d <= levels then Ok(r) else Err(TooDeep)
  }

  /** Compact text starts with a visible character that closes nothing. */
  lemma SerHead(h: Host, v: Value, post: string)
    requires AllSafe(v)
    ensures var s := Ser(h, v) + post; s != "" && s[0] != ']' && SkipWs(s) == s
  {
    var s := Ser(h, v) + post;
    match v
    case Num(x) => assert s[0] == Dec(x.r.Floor)[0];
    case _ =>
  }

  lemma {:induction false} ValueReads(h: Host, v: Value, post: string, levels: nat)
    requires HostOk(h) && AllSafe(v) && IsDict(v) && EndsToken(post)
    ensures ReadValue(h, Ser(h, v) + post, levels) == Within(Depth(v), levels, Read(v, post))
    decreases v, 1
  {
    if levels > 0 {
      match v
      case Arr(es) => ArrayReads(h, es, post, levels);
      case Obj(ms) => ObjectReads(h, ms, post, levels);
      case _ => ScalarReads(h, v, post, levels);
    }
  }

  lemma ScalarReads(h: Host, v: Value, post: string, levels: nat)
    requires HostOk(h) && AllSafe(v) && EndsToken(post) && levels > 0 && !v.Arr? && !v.Obj?
    ensures ReadValue(h, Ser(h, v) + post, levels) == Ok(Read(v, post))
  {
    var s := Ser(h, v) + post;
    match v
    case Null => LiteralReads("null", v, post);
    case Bool(b) => LiteralReads(if b then "true" else "false", v, post);
    case Num(x) =>
      assert s[0] == Dec(x.r.Floor)[0];
      NumberReads(h, x, post);
    case Str(t) => StringReads(h, t, post);
    case _ =>
  }

  lemma LiteralReads(word: string, v: Value, post: string)
    requires word != ""
    ensures ReadLiteral(word, v, word + post) == Ok(Read(v, post))
  {
    assert (word + post)[|word|..] == post;
  }

  // Arrays: the text from the first of the elements on, and the text after an element

  function ElemsText(h: Host, es: seq<Value>, post: string): string {
    SerElems(h, es) + ("]" + post)
  }

  function ElemsRest(h: Host, es: seq<Value>, post: string): string {
    SerElemsTail(h, es) + ("]" + post)
  }

  lemma ArrayShape(h: Host, es: seq<Value>, post: string)
    ensures var s := Ser(h, Arr(es)) + post; s[0] == '[' && s[1..] == ElemsText(h, es, post)
  {
  }

  lemma ElemsShape(h: Host, es: seq<Value>, post: string)
    ensures es == [] ==> ElemsText(h, es, post) == "]" + post
    ensures es != [] ==> ElemsText(h, es, post) == Ser(h, es[0]) + ElemsRest(h, es[1..], post)
  {
  }

  lemma ElemsRestShape(h: Host, es: seq<Value>, post: string)
    ensures var rest := ElemsRest(h, es, post);
            && rest != "" && SkipWs(rest) == rest && EndsToken(rest)
            && rest[0] == (if es == [] then ']' else ',')
            && rest[1..] == if es == [] then post else ElemsText(h, es, post)
  {
    assert ElemsRest(h, es, post) == if es == [] then "]" + post else "," + ElemsText(h, es, post);
  }

  /** An opening bracket reads as an empty array or starts the elements. */
  lemma OpenArray(h: Host, s: string, t: string, levels: nat)
    requires s != "" && s[0] == '[' && s[1..] == t && t != "" && SkipWs(t) == t && levels > 0
    ensures t[0] == ']' ==> ReadValue(h, s, levels) == Ok(Read(Arr([]), t[1..]))
    ensures t[0] != ']' ==> ReadValue(h, s, levels) == ReadElems(h, t, levels - 1, [])
  {
  }

  /** Reading elements goes on with the accumulated elements after a comma, and ends at a bracket. */
  lemma ElemStep(h: Host, s: string, levels: nat, acc: seq<Value>, v: Value, rest: string)
    requires SkipWs(s) == s && SkipWs(rest) == rest && rest != ""
    requires ReadValue(h, s, levels) == Ok(Read(v, rest))
    ensures rest[0] == ',' ==> ReadElems(h, s, levels, acc) == ReadElems(h, rest[1..], levels, acc + [v])
    ensures rest[0] == ']' ==> ReadElems(h, s, levels, acc) == Ok(Read(Arr(acc + [v]), rest[1..]))
  {
    assert ReadElem(h, s, levels) == Ok(Read(v, rest));
  }

  lemma ElemFails(h: Host, s: string, levels: nat, acc: seq<Value>)
    requires SkipWs(s) == s && ReadValue(h, s, levels) == Err(TooDeep)
    ensures ReadElems(h, s, levels, acc) == Err(TooDeep)
  {
    assert ReadElem(h, s, levels) == Err(TooDeep);
  }

  ghost predicate GoodElems(es: seq<Value>) {
    forall e | e in es :: AllSafe(e) && IsDict(e)
  }

  lemma {:induction false} ArrayReads(h: Host, es: seq<Value>, post: string, levels: nat)
    requires HostOk(h) && EndsToken(post) && levels > 0 && GoodElems(es)
    ensures ReadValue(h, Ser(h, Arr(es)) + post, levels)
         == Within(1 + DepthElems(es), levels, Read(Arr(es), post))
    decreases es, 1
  {
    ArrayShape(h, es, post);
    ElemsBody(h, es, post, levels - 1);
    ArrayCore(h, Ser(h, Arr(es)) + post, ElemsText(h, es, post), es, post, levels);
  }

  /** What the text after the opening bracket looks like and how it reads. */
  lemma {:induction false} ElemsBody(h: Host, es: seq<Value>, post: string, levels: nat)
    requires HostOk(h) && GoodElems(es)
    ensures var t := ElemsText(h, es, post);
            && (es == [] ==> t == "]" + post)
            && (es != [] ==> t != "" && t[0] != ']' && SkipWs(t) == t)
    ensures es != [] ==> ReadElems(h, ElemsText(h, es, post), levels, []) == Within(DepthElems(es), levels, Read(Arr(es), post))
    decreases es, 0, 1
  {
    ElemsShape(h, es, post);
    if es != [] {
      SerHead(h, es[0], ElemsRest(h, es[1..], post));
      ElemsRead(h, es, post, levels, []);
      NothingBefore(es);
    }
  }

  lemma ArrayCore(h: Host, s: string, t: string, es: seq<Value>, post: string, levels: nat)
    requires s != "" && s[0] == '[' && s[1..] == t && levels > 0
    requires es == [] ==> t == "]" + post
    requires es != [] ==> t != "" && t[0] != ']' && SkipWs(t) == t
    requires es != [] ==> ReadElems(h, t, levels - 1, []) == Within(DepthElems(es), levels - 1, Read(Arr(es), post))
    ensures ReadValue(h, s, levels) == Within(1 + DepthElems(es), levels, Read(Arr(es), post))
  {
    if es == [] { assert t[1..] == post && SkipWs(t) == t; }
    OpenArray(h, s, t, levels);
  }

  lemma {:induction false} ElemsRead(h: Host, es: seq<Value>, post: string, levels: nat, acc: seq<Value>)
    requires HostOk(h) && es != [] && GoodElems(es)
    ensures ReadElems(h, ElemsText(h, es, post), levels, acc)
         == Within(DepthElems(es), levels, Read(Arr(acc + es), post))
    decreases es, 0, 0
  {
    var rest := ElemsRest(h, es[1..], post);
    var s := Ser(h, es[0]) + rest;
    ElemsShape(h, es, post);
    ElemsRestShape(h, es[1..], post);
    SerHead(h, es[0], rest);
    ValueReads(h, es[0], rest, levels);
    if Depth(es[0]) <= levels {
      ElemStep(h, s, levels, acc, es[0], rest);
      AppendFirst(acc, es);
      if es[1..] != [] {
        ElemsRead(h, es[1..], post, levels, acc + [es[0]]);
      }
    } else {
      ElemFails(h, s, levels, acc);
    }
  }

  lemma NothingBefore<T>(ms: seq<T>)
    ensures [] + ms == ms
  {
  }

  // Objects, in the same way

  function MembersText(h: Host, ms: seq<Member>, post: string): string {
    SerMembers(h, ms) + ("}" + post)
  }

  function MembersRest(h: Host, ms: seq<Member>, post: string): string {
    SerMembersTail(h, ms) + ("}" + post)
  }

  lemma ObjectShape(h: Host, ms: seq<Member>, post: string)
    ensures var s := Ser(h, Obj(ms)) + post; s[0] == '{' && s[1..] == MembersText(h, ms, post)
  {
  }

  lemma MembersShape(h: Host, ms: seq<Member>, post: string)
    ensures ms == [] ==> MembersText(h, ms, post) == "}" + post
    ensures ms != [] ==> MembersText(h, ms, post) == SerMember(h, ms[0]) + MembersRest(h, ms[1..], post)
  {
  }

  lemma MembersRestShape(h: Host, ms: seq<Member>, post: string)
    ensures var rest := MembersRest(h, ms, post);
            && rest != "" && SkipWs(rest) == rest && EndsToken(rest)
            && rest[0] == (if ms == [] then '}' else ',')
            && rest[1..] == if ms == [] then post else MembersText(h, ms, post)
  {
    assert MembersRest(h, ms, post) == if ms == [] then "}" + post else "," + MembersText(h, ms, post);
  }

  lemma MemberShape(h: Host, m: Member, rest: string)
    ensures SerMember(h, m) + rest == Quote(m.key) + (":" + (Ser(h, m.value) + rest))
    ensures var s := SerMember(h, m) + rest; s != "" && s[0] == '"' && SkipWs(s) == s
  {
    assert Quote(m.key)[0] == '"';
  }

  lemma OpenObject(h: Host, s: string, t: string, levels: nat)
    requires s != "" && s[0] == '{' && s[1..] == t && t != "" && SkipWs(t) == t && levels > 0
    ensures t[0] == '}' ==> ReadValue(h, s, levels) == Ok(Read(Obj([]), t[1..]))
    ensures t[0] != '}' ==> ReadValue(h, s, levels) == ReadMembers(h, t, levels - 1, [])
  {
  }

  /** Reading members goes on with the accumulated members after a comma, and ends at a brace. */
  lemma MemberStep(h: Host, s: string, levels: nat, acc: seq<Member>, m: Member, rest: string)
    requires ReadMember(h, s, levels) == Ok(Read(m, rest)) && rest != ""
    requires Put(acc, m.key, m.value) == acc + [m]
    ensures rest[0] == ',' ==> ReadMembers(h, s, levels, acc) == ReadMembers(h, rest[1..], levels, acc + [m])
    ensures rest[0] == '}' ==> ReadMembers(h, s, levels, acc) == Ok(Read(Obj(acc + [m]), rest[1..]))
  {
  }

  lemma MemberFails(h: Host, s: string, levels: nat, acc: seq<Member>)
    requires ReadMember(h, s, levels) == Err(TooDeep)
    ensures ReadMembers(h, s, levels, acc) == Err(TooDeep)
  {
  }

  ghost predicate GoodMembers(ms: seq<Member>) {
    forall m | m in ms :: AllSafe(m.value) && IsDict(m.value)
  }

  lemma {:induction false} ObjectReads(h: Host, ms: seq<Member>, post: string, levels: nat)
    requires HostOk(h) && EndsToken(post) && levels > 0 && DistinctKeys(ms) && GoodMembers(ms)
    ensures ReadValue(h, Ser(h, Obj(ms)) + post, levels)
         == Within(1 + DepthMembers(ms), levels, Read(Obj(ms), post))
    decreases ms, 1
  {
    ObjectShape(h, ms, post);
    MembersBody(h, ms, post, levels - 1);
    ObjectCore(h, Ser(h, Obj(ms)) + post, MembersText(h, ms, post), ms, post, levels);
  }

  /** What the text after the opening brace looks like and how it reads. */
  lemma {:induction false} MembersBody(h: Host, ms: seq<Member>, post: string, levels: nat)
    requires HostOk(h) && DistinctKeys(ms) && GoodMembers(ms)
    ensures var t := MembersText(h, ms, post);
            && (ms == [] ==> t == "}" + post)
            && (ms != [] ==> t != "" && t[0] == '"' && SkipWs(t) == t)
    ensures ms != [] ==> ReadMembers(h, MembersText(h, ms, post), levels, []) == Within(DepthMembers(ms), levels, Read(Obj(ms), post))
    decreases ms, 0, 1
  {
    MembersShape(h, ms, post);
    if ms != [] {
      MemberShape(h, ms[0], MembersRest(h, ms[1..], post));
      NothingBefore(ms);
      MembersRead(h, ms, post, levels, []);
    }
  }

  lemma ObjectCore(h: Host, s: string, t: string, ms: seq<Member>, post: string, levels: nat)
    requires s != "" && s[0] == '{' && s[1..] == t && levels > 0
    requires ms == [] ==> t == "}" + post
    requires ms != [] ==> t != "" && t[0] == '"' && SkipWs(t) == t
    requires ms != [] ==> ReadMembers(h, t, levels - 1, []) == Within(DepthMembers(ms), levels - 1, Read(Obj(ms), post))
    ensures ReadValue(h, s, levels) == Within(1 + DepthMembers(ms), levels, Read(Obj(ms), post))
  {
    if ms == [] { assert t[1..] == post && SkipWs(t) == t; }
    OpenObject(h, s, t, levels);
  }

  lemma {:induction false} MembersRead(h: Host, ms: seq<Member>, post: string, levels: nat, acc: seq<Member>)
    requires HostOk(h) && ms != [] && DistinctKeys(acc + ms) && GoodMembers(ms)
    ensures ReadMembers(h, MembersText(h, ms, post), levels, acc)
         == Within(DepthMembers(ms), levels, Read(Obj(acc + ms), post))
    decreases ms, 0, 0
  {
    var rest := MembersRest(h, ms[1..], post);
    var s := SerMember(h, ms[0]) + rest;
    MembersShape(h, ms, post);
    MembersRestShape(h, ms[1..], post);
    MemberReads(h, ms[0], rest, levels);
    if Depth(ms[0].value) <= levels {
      FreshKey(acc, ms);
      MemberStep(h, s, levels, acc, ms[0], rest);
      AppendFirst(acc, ms);
      if ms[1..] != [] {
        MembersRead(h, ms[1..], post, levels, acc + [ms[0]]);
      }
    } else {
      MemberFails(h, s, levels, acc);
    }
  }

  lemma FreshKey(acc: seq<Member>, ms: seq<Member>)
    requires ms != [] && DistinctKeys(acc + ms)
    ensures Put(acc, ms[0].key, ms[0].value) == acc + [ms[0]]
  {
    var all := acc + ms;
    forall m | m in acc ensures m.key != ms[0].key {
      var k :| 0 <= k < |acc| && acc[k] == m;
      assert all[k] == m && all[|acc|] == ms[0];
    }
    PutNew(acc, ms[0].key, ms[0].value);
  }

  lemma {:induction false} MemberReads(h: Host, m: Member, rest: string, levels: nat)
    requires HostOk(h) && AllSafe(m.value) && IsDict(m.value)
    requires SkipWs(rest) == rest && EndsToken(rest)
    ensures ReadMember(h, SerMember(h, m) + rest, levels) == Within(Depth(m.value), levels, Read(m, rest))
    decreases m, 0
  {
    var body := Ser(h, m.value) + rest;
    MemberShape(h, m, rest);
    KeyReads(h, m.key, body);
    SerHead(h, m.value, rest);
    ValueReads(h, m.value, rest, levels);
    MemberCore(h, SerMember(h, m) + rest, m, body, rest, Depth(m.value), levels);
  }

  lemma MemberCore(h: Host, s: string, m: Member, body: string, rest: string, d: nat, levels: nat)
    requires ReadKey(h, s) == Ok(Read(m.key, body)) && SkipWs(body) == body && SkipWs(rest) == rest
    requires ReadValue(h, body, levels) == Within(d, levels, Read(m.value, rest))
    ensures ReadMember(h, s, levels) == Within(d, levels, Read(m, rest))
  {
  }

  lemma KeyReads(h: Host, key: string, body: string)
    requires HostOk(h)
    ensures ReadKey(h, Quote(key) + (":" + body)) == Ok(Read(key, body))
  {
    var s := Quote(key) + (":" + body);
    StringReads(h, key, ":" + body);
    assert SkipWs(s) == s && SkipWs(":" + body) == ":" + body && (":" + body)[1..] == body;
  }

  /** Parsing inverts serialization exactly on the values within the depth cap; on a deeper value
      the parse fails on nesting. */
  lemma ParseInvertsSerialize(h: Host, v: Value, levels: nat)
    requires HostOk(h) && AllSafe(v) && IsDict(v)
    ensures ReadDocument(h, Ser(h, v), levels) == if Depth(v) <= levels then Ok(v) else Err(TooDeep)
  {
    assert Ser(h, v) + "" == Ser(h, v);
    SerHead(h, v, "");
    ValueReads(h, v, "", levels);
  }

  /** The compact text determines the value, at any depth. */
  lemma SerInjective(h: Host, v: Value, w: Value)
    requires HostOk(h) && AllSafe(v) && IsDict(v) && AllSafe(w) && IsDict(w)
    requires Ser(h, v) == Ser(h, w)
    ensures v == w
  {
    var levels := Max(Depth(v), Depth(w));
    ParseInvertsSerialize(h, v, levels);
    ParseInvertsSerialize(h, w, levels);
  }

  // ---------------------------------------------------------------------------------------------
  // Whatever parses is well formed
  // ---------------------------------------------------------------------------------------------

  lemma {:induction false} DepthElemsBound(es: seq<Value>, n: nat)
    ensures DepthElems(es) <= n <==> forall i :: 0 <= i < |es| ==> Depth(es[i]) <= n
  {
    if es != [] {
      DepthElemsBound(es[1..], n);
      assert forall i :: 0 < i < |es| ==> es[i] == es[1..][i - 1];
    }
  }

  lemma {:induction false} DepthMembersBound(ms: seq<Member>, n: nat)
    ensures DepthMembers(ms) <= n <==> forall i :: 0 <= i < |ms| ==> Depth(ms[i].value) <= n
  {
    if ms != [] {
      DepthMembersBound(ms[1..], n);
      assert forall i :: 0 < i < |ms| ==> ms[i] == ms[1..][i - 1];
    }
  }

  ghost predicate Sound(v: Value, levels: nat) {
    IsDict(v) && Depth(v) <= levels
  }

  lemma {:induction false} ReadValueSound(h: Host, s: string, levels: nat)
    requires ReadValue(h, s, levels).Ok?
    ensures Sound(ReadValue(h, s, levels).value.item, levels)
    decreases |s|, 1
  {
    if s[0] == '{' && !StartsWith(SkipWs(s[1..]), '}') {
      ReadMembersSound(h, SkipWs(s[1..]), levels - 1, []);
    } else if s[0] == '[' && !StartsWith(SkipWs(s[1..]), ']') {
      ReadElemsSound(h, SkipWs(s[1..]), levels - 1, []);
    }
  }

  lemma {:induction false} ReadElemsSound(h: Host, s: string, levels: nat, acc: seq<Value>)
    requires ReadElems(h, s, levels, acc).Ok? && forall e | e in acc :: Sound(e, levels)
    ensures Sound(ReadElems(h, s, levels, acc).value.item, levels + 1)
    decreases |s|, 2
  {
    var p := ReadNextElem(h, s, levels, acc).value;
    var e := ReadElem(h, s, levels).value;
    assert ReadValue(h, SkipWs(s), levels).Ok?;
    ReadValueSound(h, SkipWs(s), levels);
    assert p.item.acc == acc + [e.item];
    if p.item.more {
      ReadElemsSound(h, p.rest, levels, p.item.acc);
    } else {
      forall i | 0 <= i < |p.item.acc| ensures Sound(p.item.acc[i], levels) {
        assert i < |acc| ==> p.item.acc[i] in acc;
      }
      DepthElemsBound(p.item.acc, levels);
    }
  }

  lemma {:induction false} ReadMembersSound(h: Host, s: string, levels: nat, acc: seq<Member>)
    requires ReadMembers(h, s, levels, acc).Ok?
    requires DistinctKeys(acc) && forall m | m in acc :: Sound(m.value, levels)
    ensures Sound(ReadMembers(h, s, levels, acc).value.item, levels + 1)
    decreases |s|, 2
  {
    var p := ReadNextMember(h, s, levels, acc).value;
    var m := ReadMember(h, s, levels).value;
    assert ReadElem(h, ReadKey(h, s).value.rest, levels).Ok?;
    ReadValueSound(h, SkipWs(ReadKey(h, s).value.rest), levels);
    var acc' := Put(acc, m.item.key, m.item.value);
    PutKeepsDistinct(acc, m.item.key, m.item.value);
    forall x | x in acc' ensures Sound(x.value, levels) {
      PutMembers(acc, m.item.key, m.item.value, x);
    }
    assert p.item.acc == acc';
    if p.item.more {
      ReadMembersSound(h, p.rest, levels, acc');
    } else {
      DepthMembersBound(acc', levels);
    }
  }

  /** Every parsed document has distinct keys in each object and stays within the depth cap,
      duplicate keys in the text included. */
  lemma ParsedIsSound(h: Host, s: string, levels: nat)
    requires ReadDocument(h, s, levels).Ok?
    ensures IsDict(ReadDocument(h, s, levels).value)
    ensures Depth(ReadDocument(h, s, levels).value) <= levels
  {
    ReadValueSound(h, SkipWs(s), levels);
  }
}
