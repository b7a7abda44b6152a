/** The JSON parser: the reading it specifies, as functions on the rest of the input, and the
    parser object that advances an index through it. */
module JsonParse {
  import opened Json

  datatype JsonError =
    | TooDeep | UnexpectedChar(c: char) | UnexpectedEnd | ExpectedLiteral(word: string)
    | ExpectedKey | ExpectedColon | ExpectedCommaOrBrace | ExpectedCommaOrBracket
    | ExpectedString | UnterminatedString | UnterminatedEscape | TruncatedUnicode | InvalidUnicode | InvalidEscape
    | RawControl | InvalidNumber | InvalidExponent | TrailingCharacters

  datatype Result<+T> = Ok(value: T) | Err(error: JsonError) {
    predicate IsFailure() { Err? }
    function PropagateFailure<U>(): Result<U>
      requires Err?
    {
      Err(error)
    }
    function Extract(): T
      requires Ok?
    {
      value
    }
  }

  /** A parsed item together with the input that follows it. */
  datatype Read<+T> = Read(item: T, rest: string)

  predicate IsSpace(c: char) {
    c == ' ' || c == '\t' || c == '\n' || c == '\r'
  }

  function SkipWs(s: string): (r: string)
    ensures |r| <= |s|
  {
    if s != "" && IsSpace(s[0]) then SkipWs(s[1..]) else s
  }

  predicate StartsWith(s: string, c: char) {
    s != "" && s[0] == c
  }

  // ---------------------------------------------------------------------------------------------
  // Strings and numbers
  // ---------------------------------------------------------------------------------------------

  /** The character of a simple escape. */
  function SimpleEscape(c: char): Option<char> {
    if c == '"' then Some('"')
    else if c == '\\' then Some('\\')
    else if c == '/' then Some('/')
    else if c == 'b' then Some(8 as char)
    else if c == 't' then Some('\t')
    else if c == 'n' then Some('\n')
    else if c == 'f' then Some(12 as char)
    else if c == 'r' then Some('\r')
    else None
  }

  /** The character of a code unit; a lone surrogate becomes the replacement character. */
  function PushCp(cp: int): Result<char> {
    if cp < 0 || cp > 0xFFFF then Err(InvalidUnicode)
    else if 0xD800 <= cp <= 0xDFFF then Ok(0xFFFD as char)
    else Ok(cp as char)
  }

  /** One character of a string, written literally or as an escape. */
  function ReadChar(h: Host, s: string): (r: Result<Read<char>>)
    requires s != "" && s[0] != '"'
    ensures r.Ok? ==> |r.value.rest| < |s|
  {
    if s[0] == '\\' then
      if |s| == 1 then Err(UnterminatedEscape)
      else if s[1] == 'u' then
        if |s| < 6 then Err(TruncatedUnicode)
        else match h.hexVal(s[2..6])
          case None => Err(InvalidUnicode)
          case Some(cp) => var c :- PushCp(cp); Ok(Read(c, s[6..]))
      else match SimpleEscape(s[1])
        case None => Err(InvalidEscape)
        case Some(c) => Ok(Read(c, s[2..]))
    else if s[0] < ' ' then Err(RawControl)
    else Ok(Read(s[0], s[1..]))
  }

  /** The characters up to the closing quote, after those already read. */
  function ReadChars(h: Host, s: string, acc: string): (r: Result<Read<string>>)
    ensures r.Ok? ==> |r.value.rest| < |s|
    decreases |s|
  {
    if s == "" then Err(UnterminatedString)
    else if s[0] == '"' then Ok(Read(acc, s[1..]))
    else
      var c :- ReadChar(h, s);
      ReadChars(h, c.rest, acc + [c.item])
  }

  function ReadString(h: Host, s: string): (r: Result<Read<string>>)
    ensures r.Ok? ==> |r.value.rest| < |s|
  {
    if StartsWith(s, '"') then ReadChars(h, s[1..], "") else Err(ExpectedString)
  }

  function SkipDigits(s: string): (r: string)
    ensures |r| <= |s|
  {
    if s != "" && IsDigit(s[0]) then SkipDigits(s[1..]) else s
  }

  /** What follows an optional sign and at least one digit. */
  function AfterInteger(s: string): (r: Result<string>)
    ensures r.Ok? ==> |r.value| < |s|
  {
    var t := if StartsWith(s, '-') then s[1..] else s;
    if SkipDigits(t) == t then Err(InvalidNumber) else Ok(SkipDigits(t))
  }

  /** What follows a fraction, if there is one. */
  function AfterFraction(s: string): (r: Result<string>)
    ensures r.Ok? ==> |r.value| <= |s|
  {
    if !StartsWith(s, '.') then Ok(s)
    else if SkipDigits(s[1..]) == s[1..] then Err(InvalidNumber)
    else Ok(SkipDigits(s[1..]))
  }

  /** What follows an exponent, if there is one. */
  function AfterExponent(s: string): (r: Result<string>)
    ensures r.Ok? ==> |r.value| <= |s|
  {
    if !(StartsWith(s, 'e') || StartsWith(s, 'E')) then Ok(s)
    else
      var t := if StartsWith(s[1..], '+') || StartsWith(s[1..], '-') then s[2..] else s[1..];
      if SkipDigits(t) == t then Err(InvalidExponent) else Ok(SkipDigits(t))
  }

  /** What follows the number token at the start of the input. */
  function AfterNumber(s: string): (r: Result<string>)
    ensures r.Ok? ==> |r.value| < |s|
  {
    var t :- AfterInteger(s);
    var u :- AfterFraction(t);
    AfterExponent(u)
  }

  function ReadNumber(h: Host, s: string): (r: Result<Read<Value>>)
    ensures r.Ok? ==> |r.value.rest| < |s|
  {
    var t :- AfterNumber(s);
    Ok(Read(Num(h.toDouble(s[..|s| - |t|])), t))
  }

  function ReadLiteral(word: string, v: Value, s: string): (r: Result<Read<Value>>)
    requires word != ""
    ensures r.Ok? ==> |r.value.rest| < |s|
  {
    if word <= s then Ok(Read(v, s[|word|..])) else Err(ExpectedLiteral(word))
  }

  // ---------------------------------------------------------------------------------------------
  // Values
  // ---------------------------------------------------------------------------------------------

  /** Set a key of a dictionary: a key that is already there keeps its position. */
  function Put(ms: seq<Member>, key: string, v: Value): seq<Member> {
    if ms == [] then [Member(key, v)]
    else if ms[0].key == key then [Member(key, v)] + ms[1..]
    else [ms[0]] + Put(ms[1..], key, v)
  }

  /** Setting a key adds that key and no other. */
  lemma {:induction false} PutKeys(ms: seq<Member>, key: string, v: Value)
    ensures Keys(Put(ms, key, v)) == Keys(ms) + {key}
  {
    if ms == [] {
      KeysCons(Member(key, v), []);
      assert [Member(key, v)] + [] == [Member(key, v)];
    } else {
      assert ms == [ms[0]] + ms[1..];
      KeysCons(ms[0], ms[1..]);
      KeysCons(Member(key, v), ms[1..]);
      PutKeys(ms[1..], key, v);
      KeysCons(ms[0], Put(ms[1..], key, v));
    }
  }

  /** Setting a key keeps the keys distinct. */
  lemma {:induction false} PutKeepsDistinct(ms: seq<Member>, key: string, v: Value)
    requires DistinctKeys(ms)
    ensures DistinctKeys(Put(ms, key, v))
  {
    if ms != [] && ms[0].key != key {
      assert DistinctKeys(ms[1..]);
      PutKeepsDistinct(ms[1..], key, v);
      PutKeys(ms[1..], key, v);
      PutDistinct(ms, Put(ms[1..], key, v), key);
    }
  }

  /** A new key goes to the end. */
  lemma {:induction false} PutNew(ms: seq<Member>, key: string, v: Value)
    requires forall m | m in ms :: m.key != key
    ensures Put(ms, key, v) == ms + [Member(key, v)]
  {
    if ms != [] { PutNew(ms[1..], key, v); }
  }

  /** After setting a key of an object, its members are the new one and the others. */
  lemma {:induction false} PutMembers(ms: seq<Member>, key: string, v: Value, m: Member)
    requires DistinctKeys(ms)
    ensures m in Put(ms, key, v) <==> m == Member(key, v) || (m in ms && m.key != key)
  {
    if ms != [] {
      assert ms == [ms[0]] + ms[1..] && m in ms[1..] ==> exists i :: 0 <= i < |ms[1..]| && ms[1..][i] == m;
      assert forall i :: 0 <= i < |ms[1..]| ==> ms[1..][i] == ms[i + 1];
      if ms[0].key != key { PutMembers(ms[1..], key, v, m); }
    }
  }

  lemma KeysCons(m: Member, ms: seq<Member>)
    ensures Keys([m] + ms) == {m.key} + Keys(ms)
  {
    assert forall x :: x in [m] + ms <==> x == m || x in ms;
  }

  lemma PutDistinct(ms: seq<Member>, rest: seq<Member>, key: string)
    requires ms != [] && ms[0].key != key && Keys(rest) == Keys(ms[1..]) + {key}
    requires DistinctKeys(ms[1..]) ==> DistinctKeys(rest)
    ensures DistinctKeys(ms) ==> DistinctKeys([ms[0]] + rest)
  {
    if DistinctKeys(ms) {
      forall i, j | 0 <= i < j < |ms[1..]| ensures ms[1..][i].key != ms[1..][j].key {
        assert ms[i + 1].key != ms[j + 1].key;
      }
      var all := [ms[0]] + rest;
      forall i, j | 0 <= i < j < |all| ensures all[i].key != all[j].key {
        if i == 0 {
          assert all[j] in rest && all[j].key in Keys(rest);
        } else {
          assert all[i] == rest[i - 1] && all[j] == rest[j - 1];
        }
      }
    }
  }

  /** Read one value with `levels` levels of nesting left. */
  function ReadValue(h: Host, s: string, levels: nat): (r: Result<Read<Value>>)
    ensures r.Ok? ==> |r.value.rest| < |s|
    decreases |s|, 1
  {
    if levels == 0 then Err(TooDeep)
    else if s == "" then Err(UnexpectedEnd)
    else if s[0] == '{' then
      var t := SkipWs(s[1..]);
      if StartsWith(t, '}') then Ok(Read(Obj([]), t[1..])) else ReadMembers(h, t, levels - 1, [])
    else if s[0] == '[' then
      var t := SkipWs(s[1..]);
      if StartsWith(t, ']') then Ok(Read(Arr([]), t[1..])) else ReadElems(h, t, levels - 1, [])
    else if s[0] == '"' then
      var t :- ReadString(h, s);
      Ok(Read(Str(t.item), t.rest))
    else if s[0] == 't' then ReadLiteral("true", Bool(true), s)
    else if s[0] == 'f' then ReadLiteral("false", Bool(false), s)
    else if s[0] == 'n' then ReadLiteral("null", Null, s)
    else if s[0] == '-' || IsDigit(s[0]) then ReadNumber(h, s)
    else Err(UnexpectedChar(s[0]))
  }

  /** Read one value and the white space around it. */
  function ReadElem(h: Host, s: string, levels: nat): (r: Result<Read<Value>>)
    ensures r.Ok? ==> |r.value.rest| < |s|
    decreases |s|, 2
  {
    var e :- ReadValue(h, SkipWs(s), levels);
    Ok(Read(e.item, SkipWs(e.rest)))
  }

  /** The elements read so far and whether a comma announces another. */
  datatype Progress<T> = Progress(more: bool, acc: seq<T>)

  /** Read one more element and the comma or bracket after it. */
  function ReadNextElem(h: Host, s: string, levels: nat, acc: seq<Value>): (r: Result<Read<Progress<Value>>>)
    ensures r.Ok? ==> |r.value.rest| < |s|
    decreases |s|, 3
  {
    var e :- ReadElem(h, s, levels);
    if StartsWith(e.rest, ',') then Ok(Read(Progress(true, acc + [e.item]), e.rest[1..]))
    else if StartsWith(e.rest, ']') then Ok(Read(Progress(false, acc + [e.item]), e.rest[1..]))
    else Err(ExpectedCommaOrBracket)
  }

  /** Read the rest of an array, after the elements already read. */
  function ReadElems(h: Host, s: string, levels: nat, acc: seq<Value>): (r: Result<Read<Value>>)
    ensures r.Ok? ==> |r.value.rest| < |s|
    decreases |s|, 4
  {
    var p :- ReadNextElem(h, s, levels, acc);
    if p.item.more then ReadElems(h, p.rest, levels, p.item.acc) else Ok(Read(Arr(p.item.acc), p.rest))
  }

  /** Read a key and the colon after it. */
  function ReadKey(h: Host, s: string): (r: Result<Read<string>>)
    ensures r.Ok? ==> |r.value.rest| < |s|
  {
    var t := SkipWs(s);
    if !StartsWith(t, '"') then Err(ExpectedKey)
    else
      var k :- ReadString(h, t);
      var u := SkipWs(k.rest);
      if StartsWith(u, ':') then Ok(Read(k.item, u[1..])) else Err(ExpectedColon)
  }

  /** Read one "key: value" pair and the white space around it. */
  function ReadMember(h: Host, s: string, levels: nat): (r: Result<Read<Member>>)
    ensures r.Ok? ==> |r.value.rest| < |s|
    decreases |s|, 3
  {
    var k :- ReadKey(h, s);
    var v :- ReadElem(h, k.rest, levels);
    Ok(Read(Member(k.item, v.item), v.rest))
  }

  /** Read one more member and the comma or brace after it. */
  function ReadNextMember(h: Host, s: string, levels: nat, acc: seq<Member>): (r: Result<Read<Progress<Member>>>)
    ensures r.Ok? ==> |r.value.rest| < |s|
    decreases |s|, 4
  {
    var m :- ReadMember(h, s, levels);
    var acc' := Put(acc, m.item.key, m.item.value);
    if StartsWith(m.rest, ',') then Ok(Read(Progress(true, acc'), m.rest[1..]))
    else if StartsWith(m.rest, '}') then Ok(Read(Progress(false, acc'), m.rest[1..]))
    else Err(ExpectedCommaOrBrace)
  }

  /** Read the rest of an object, after the members already read. */
  function ReadMembers(h: Host, s: string, levels: nat, acc: seq<Member>): (r: Result<Read<Value>>)
    ensures r.Ok? ==> |r.value.rest| < |s|
    decreases |s|, 5
  {
    var p :- ReadNextMember(h, s, levels, acc);
    if p.item.more then ReadMembers(h, p.rest, levels, p.item.acc) else Ok(Read(Obj(p.item.acc), p.rest))
  }

  /** Read a whole document of at most `levels` levels of nesting. */
  function ReadDocument(h: Host, s: string, levels: nat): Result<Value> {
    var v :- ReadValue(h, SkipWs(s), levels);
    if SkipWs(v.rest) == "" then Ok(v.item) else Err(TrailingCharacters)
  }

  // ---------------------------------------------------------------------------------------------
  // The parser object
  // ---------------------------------------------------------------------------------------------

  /** r is the outcome of a reading, and the rest of the input is what the reading leaves. */
  ghost predicate Agrees<T>(r: Result<T>, rest: string, spec: Result<Read<T>>) {
    match spec
    case Ok(x) => r == Ok(x.item) && rest == x.rest
    case Err(e) => r == Err(e)
  }

  /** No error and the specified rest of the input, or the specified error. */
  ghost predicate Passed(e: Option<JsonError>, rest: string, spec: Result<string>) {
    match spec
    case Ok(t) => e == None && rest == t
    case Err(x) => e == Some(x)
  }

  class Parser {
    const h: Host
    const s: string
    var i: nat
    var depth: nat

    ghost predicate Valid()
      reads this
    {
      i <= |s| && depth <= MAX_DEPTH
    }

    ghost function Rest(): string
      reads this
      requires Valid()
    {
      s[i..]
    }

    constructor (h: Host, src: string)
      ensures Valid() && this.h == h && s == src && i == 0 && depth == 0
    {
      this.h, s, i, depth := h, src, 0, 0;
    }

    function Peek(): (c: Option<char>)
      reads this
      requires Valid()
      ensures c.None? <==> Rest() == ""
      ensures c.Some? ==> c.value == Rest()[0] && s[i + 1..] == Rest()[1..]
    {
      if i >= |s| then None else Some(s[i])
    }

    method SkipSpaces()
      requires Valid()
      modifies this`i
      ensures Valid() && i >= old(i) && Rest() == SkipWs(old(Rest()))
    {
      while i < |s| && (s[i] == ' ' || s[i] == '\t' || s[i] == '\n' || s[i] == '\r')
        invariant old(i) <= i <= |s|
        invariant SkipWs(s[i..]) == SkipWs(old(Rest()))
      {
        assert s[i..][1..] == s[i + 1..];
        i := i + 1;
      }
    }

    method ParseLiteral(word: string, v: Value) returns (r: Result<Value>)
      requires Valid() && word != ""
      modifies this`i
      ensures Valid() && i >= old(i)
      ensures Agrees(r, Rest(), ReadLiteral(word, v, old(Rest())))
    {
      if word <= s[i..] {
        assert s[i..][|word|..] == s[i + |word|..];
        i := i + |word|;
        return Ok(v);
      }
      return Err(ExpectedLiteral(word));
    }

    method ParseString() returns (r: Result<string>)
      requires Valid()
      modifies this`i
      ensures Valid() && (r.Ok? ==> i > old(i))
      ensures Agrees(r, Rest(), ReadString(h, old(Rest())))
    {
      if Peek() != Some('"') { return Err(ExpectedString); }
      i := i + 1;
      var out := "";
      while true
        invariant old(i) < i <= |s|
        invariant ReadChars(h, s[i..], out) == ReadString(h, old(Rest()))
        decreases |s| - i
      {
        var c := Peek();
        if c.None? { return Err(UnterminatedString); }
        if c.value == '"' {
          i := i + 1;
          return Ok(out);
        }
        var item :- ParseChar();
        out := out + [item];
      }
    }

    method ParseChar() returns (r: Result<char>)
      requires Valid() && Rest() != "" && Rest()[0] != '"'
      modifies this`i
      ensures Valid() && (r.Ok? ==> i > old(i))
      ensures Agrees(r, Rest(), ReadChar(h, old(Rest())))
    {
      var c := s[i];
      if c == '\\' {
        i := i + 1;
        var esc := Peek();
        if esc.None? { return Err(UnterminatedEscape); }
        i := i + 1;
        if esc.value == 'u' {
          if |s| - i < 4 { return Err(TruncatedUnicode); }
          var hex4 := s[i..i + 4];
          assert hex4 == old(Rest())[2..6];
          var cp := h.hexVal(hex4);
          if cp.None? { return Err(InvalidUnicode); }
          i := i + 4;
          return PushCp(cp.value);
        }
        var simple := SimpleEscape(esc.value);
        if simple.None? { return Err(InvalidEscape); }
        return Ok(simple.value);
      }
      if c < ' ' { return Err(RawControl); }
      i := i + 1;
      return Ok(c);
    }

    /** Advance over digits, and report whether there were any. */
    method PassDigits() returns (some: bool)
      requires Valid()
      modifies this`i
      ensures Valid() && i >= old(i) && Rest() == SkipDigits(old(Rest()))
      ensures some <==> Rest() != old(Rest())
    {
      some := false;
      while i < |s| && IsDigit(s[i])
        invariant old(i) <= i <= |s| && some == (i > old(i))
        invariant SkipDigits(s[i..]) == SkipDigits(old(Rest()))
      {
        assert s[i..][1..] == s[i + 1..];
        some := true;
        i := i + 1;
      }
      assert some ==> |Rest()| < |old(Rest())|;
    }

    method PassInteger() returns (e: Option<JsonError>)
      requires Valid()
      modifies this`i
      ensures Valid() && i >= old(i) && Passed(e, Rest(), AfterInteger(old(Rest())))
    {
      if Peek() == Some('-') { i := i + 1; }
      var intDigits := PassDigits();
      return if intDigits then None else Some(InvalidNumber);
    }

    method PassFraction() returns (e: Option<JsonError>)
      requires Valid()
      modifies this`i
      ensures Valid() && i >= old(i) && Passed(e, Rest(), AfterFraction(old(Rest())))
    {
      if Peek() == Some('.') {
        i := i + 1;
        var frac := PassDigits();
        if !frac { return Some(InvalidNumber); }
      }
      return None;
    }

    method PassExponent() returns (e: Option<JsonError>)
      requires Valid()
      modifies this`i
      ensures Valid() && i >= old(i) && Passed(e, Rest(), AfterExponent(old(Rest())))
    {
      var c := Peek();
      if c == Some('e') || c == Some('E') {
        i := i + 1;
        c := Peek();
        if c == Some('+') || c == Some('-') {
          i := i + 1;
          assert Rest() == old(Rest())[2..];
        }
        var exp := PassDigits();
        if !exp { return Some(InvalidExponent); }
      }
      return None;
    }

    method ParseNumber() returns (r: Result<Value>)
      requires Valid()
      modifies this`i
      ensures Valid() && i >= old(i)
      ensures Agrees(r, Rest(), ReadNumber(h, old(Rest())))
    {
      var start := i;
      var e := PassInteger();
      if e.Some? { return Err(e.value); }
      e := PassFraction();
      if e.Some? { return Err(e.value); }
      e := PassExponent();
      if e.Some? { return Err(e.value); }
      assert s[start..i] == old(Rest())[..i - start];
      return Ok(Num(h.toDouble(s[start..i])));
    }

    method ParseValue() returns (r: Result<Value>)
      requires Valid()
      modifies this
      ensures Valid() && depth == old(depth) && (r.Ok? ==> i > old(i))
      ensures Agrees(r, Rest(), ReadValue(h, old(Rest()), MAX_DEPTH - old(depth)))
      decreases |s| - i, 1
    {
      if depth + 1 > MAX_DEPTH { return Err(TooDeep); }
      depth := depth + 1;
      var c := Peek();
      if c.None? { r := Err(UnexpectedEnd); }
      else if c.value == '{' { r := ParseObject(); }
      else if c.value == '[' { r := ParseArray(); }
      else if c.value == '"' {
        var t := ParseString();
        r := match t case Ok(text) => Ok(Str(text)) case Err(e) => Err(e);
      }
      else if c.value == 't' { r := ParseLiteral("true", Bool(true)); }
      else if c.value == 'f' { r := ParseLiteral("false", Bool(false)); }
      else if c.value == 'n' { r := ParseLiteral("null", Null); }
      else if c.value == '-' || IsDigit(c.value) { r := ParseNumber(); }
      else { r := Err(UnexpectedChar(c.value)); }
      depth := depth - 1;
    }

    method ParseArray() returns (r: Result<Value>)
      requires Valid() && Rest() != "" && Rest()[0] == '[' && depth > 0
      modifies this
      ensures Valid() && depth == old(depth)
      ensures Agrees(r, Rest(), ReadValue(h, old(Rest()), MAX_DEPTH - old(depth) + 1))
      decreases |s| - i, 0
    {
      i := i + 1;
      assert s[i..] == old(Rest())[1..];
      SkipSpaces();
      if Peek() == Some(']') {
        i := i + 1;
        return Ok(Arr([]));
      }
      r := ParseElems();
    }

    method ParseElem() returns (r: Result<Value>)
      requires Valid()
      modifies this
      ensures Valid() && depth == old(depth) && (r.Ok? ==> i > old(i))
      ensures Agrees(r, Rest(), ReadElem(h, old(Rest()), MAX_DEPTH - old(depth)))
      decreases |s| - i, 2
    {
      SkipSpaces();
      r := ParseValue();
      if r.Ok? { SkipSpaces(); }
    }

    method ParseNextElem(a: seq<Value>) returns (r: Result<Progress<Value>>)
      requires Valid()
      modifies this
      ensures Valid() && depth == old(depth) && (r.Ok? ==> i > old(i))
      ensures Agrees(r, Rest(), ReadNextElem(h, old(Rest()), MAX_DEPTH - old(depth), a))
      decreases |s| - i, 3
    {
      var e := ParseElem();
      if e.Err? { return Err(e.error); }
      var c := Peek();
      if c == Some(',') {
        i := i + 1;
        return Ok(Progress(true, a + [e.value]));
      } else if c == Some(']') {
        i := i + 1;
        return Ok(Progress(false, a + [e.value]));
      }
      return Err(ExpectedCommaOrBracket);
    }

    method ParseElems() returns (r: Result<Value>)
      requires Valid()
      modifies this
      ensures Valid() && depth == old(depth)
      ensures Agrees(r, Rest(), ReadElems(h, old(Rest()), MAX_DEPTH - old(depth), []))
      decreases |s| - i, 4
    {
      ghost var levels := MAX_DEPTH - depth;
      ghost var spec := ReadElems(h, Rest(), levels, []);
      var a: seq<Value> := [];
      while true
        invariant Valid() && depth == old(depth) && i >= old(i)
        invariant ReadElems(h, Rest(), levels, a) == spec
        decreases |s| - i
      {
        var p := ParseNextElem(a);
        if p.Err? { return Err(p.error); }
        a := p.value.acc;
        if !p.value.more { return Ok(Arr(a)); }
      }
    }

    method ParseKey() returns (r: Result<string>)
      requires Valid()
      modifies this`i
      ensures Valid() && (r.Ok? ==> i > old(i))
      ensures Agrees(r, Rest(), ReadKey(h, old(Rest())))
    {
      SkipSpaces();
      if Peek() != Some('"') { return Err(ExpectedKey); }
      r := ParseString();
      if r.Err? { return; }
      SkipSpaces();
      if Peek() != Some(':') { return Err(ExpectedColon); }
      i := i + 1;
    }

    method ParseMember() returns (r: Result<Member>)
      requires Valid()
      modifies this
      ensures Valid() && depth == old(depth) && (r.Ok? ==> i > old(i))
      ensures Agrees(r, Rest(), ReadMember(h, old(Rest()), MAX_DEPTH - old(depth)))
      decreases |s| - i, 3
    {
      var key := ParseKey();
      if key.Err? { return Err(key.error); }
      var v := ParseElem();
      if v.Err? { return Err(v.error); }
      return Ok(Member(key.value, v.value));
    }

    method ParseObject() returns (r: Result<Value>)
      requires Valid() && Rest() != "" && Rest()[0] == '{' && depth > 0
      modifies this
      ensures Valid() && depth == old(depth)
      ensures Agrees(r, Rest(), ReadValue(h, old(Rest()), MAX_DEPTH - old(depth) + 1))
      decreases |s| - i, 0
    {
      i := i + 1;
      assert s[i..] == old(Rest())[1..];
      SkipSpaces();
      if Peek() == Some('}') {
        i := i + 1;
        return Ok(Obj([]));
      }
      r := ParseMembers();
    }

    method ParseNextMember(m: seq<Member>) returns (r: Result<Progress<Member>>)
      requires Valid()
      modifies this
      ensures Valid() && depth == old(depth) && (r.Ok? ==> i > old(i))
      ensures Agrees(r, Rest(), ReadNextMember(h, old(Rest()), MAX_DEPTH - old(depth), m))
      decreases |s| - i, 4
    {
      var pair := ParseMember();
      if pair.Err? { return Err(pair.error); }
      var m' := Put(m, pair.value.key, pair.value.value);
      var c := Peek();
      if c == Some(',') {
        i := i + 1;
        return Ok(Progress(true, m'));
      } else if c == Some('}') {
        i := i + 1;
        return Ok(Progress(false, m'));
      }
      return Err(ExpectedCommaOrBrace);
    }

    method ParseMembers() returns (r: Result<Value>)
      requires Valid()
      modifies this
      ensures Valid() && depth == old(depth)
      ensures Agrees(r, Rest(), ReadMembers(h, old(Rest()), MAX_DEPTH - old(depth), []))
      decreases |s| - i, 5
    {
      ghost var levels := MAX_DEPTH - depth;
      ghost var spec := ReadMembers(h, Rest(), levels, []);
      var m: seq<Member> := [];
      while true
        invariant Valid() && depth == old(depth) && i >= old(i)
        invariant ReadMembers(h, Rest(), levels, m) == spec
        decreases |s| - i
      {
        var p := ParseNextMember(m);
        if p.Err? { return Err(p.error); }
        m := p.value.acc;
        if !p.value.more { return Ok(Obj(m)); }
      }
    }
  }

  /** Parse a document with the depth cap of the program. */
  method ParseJson(h: Host, src: string) returns (r: Result<Value>)
    ensures r == ReadDocument(h, src, MAX_DEPTH)
  {
    var p := new Parser(h, src);
    assert p.Rest() == src;
    p.SkipSpaces();
    var v :- p.ParseValue();
    p.SkipSpaces();
    if p.i != |p.s| { return Err(TrailingCharacters); }
    return Ok(v);
  }
}
