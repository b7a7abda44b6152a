/** What the texts of JSON are, piece by piece (RFC 8259), for the printer and for the parser. */
module JsonText {
  import opened Json
  import opened JsonParse

  // ---------------------------------------------------------------------------------------------
  // Printing
  // ---------------------------------------------------------------------------------------------

  /** The number that a string of digits denotes in base ten. */
  function Horner(t: string): int {
    if t == "" then 0 else 10 * Horner(t[..|t| - 1]) + (t[|t| - 1] as int - '0' as int)
  }

  /** The decimal text of a number denotes it. */
  lemma {:induction false} DecimalReads(n: nat)
    ensures Horner(DecNat(n)) == n
    ensures n > 0 ==> Dec(-(n as int)) == "-" + DecNat(n)
    decreases n
  {
    if n < 10 {
      assert Horner([Digit(n)][..0]) == 0;
    } else {
      DecimalReads(n / 10);
      assert DecNat(n)[..|DecNat(n)| - 1] == DecNat(n / 10);
    }
  }

  /** The escapes of section 7: the two that are required, the short forms, and six characters for the
      other controls. Everything else stands for itself. */
  lemma EscapeText(c: char)
    ensures EscapeChar('"') == ['\\', '"'] && EscapeChar('\\') == ['\\', '\\']
    ensures EscapeChar('\t') == ['\\', 't'] && EscapeChar('\n') == ['\\', 'n'] && EscapeChar('\r') == ['\\', 'r']
    ensures EscapeChar(8 as char) == ['\\', 'b'] && EscapeChar(12 as char) == ['\\', 'f']
    ensures c < ' ' && (c as int) !in {8, 9, 10, 12, 13} ==>
              EscapeChar(c) == ['\\', 'u', '0', '0', HexDigit(c as nat / 16), HexDigit(c as nat % 16)]
    ensures c >= ' ' && c != '"' && c != '\\' ==> EscapeChar(c) == [c]
  {
  }

  lemma HexDigits(d: nat)
    requires d < 16
    ensures d < 10 ==> HexDigit(d) as int == '0' as int + d
    ensures d >= 10 ==> HexDigit(d) as int == 'a' as int + d - 10
  {
  }

  /** Elements are separated by commas. */
  lemma {:induction false} ElemsJoin(h: Host, a: seq<Value>, b: seq<Value>)
    requires a != [] && b != []
    ensures SerElems(h, a + b) == SerElems(h, a) + "," + SerElems(h, b)
    decreases a
  {
    assert (a + b)[1..] == a[1..] + b && (a + b)[0] == a[0];
    if |a| == 1 {
      assert a[1..] + b == b;
      assert SerElemsTail(h, b) == "," + SerElems(h, b);
    } else {
      ElemsJoin(h, a[1..], b);
      ElemsTail(h, a[1..]);
      ElemsTail(h, a[1..] + b);
      Associate(Ser(h, a[0]), ",", SerElems(h, a[1..]), SerElems(h, b));
    }
  }

  lemma OneElement(h: Host, v: Value)
    ensures SerElems(h, [v]) == Ser(h, v)
  {
    assert SerElemsTail(h, [v][1..]) == "";
  }

  lemma ElemsTail(h: Host, es: seq<Value>)
    requires es != []
    ensures SerElemsTail(h, es) == "," + SerElems(h, es)
  {
    Shift(",", Ser(h, es[0]), SerElemsTail(h, es[1..]));
  }

  lemma Shift(a: string, b: string, c: string)
    ensures a + b + c == a + (b + c)
  {
  }

  lemma Associate(a: string, comma: string, b: string, c: string)
    ensures a + (comma + (b + comma + c)) == a + (comma + b) + comma + c
  {
  }

  /** So are members. */
  lemma {:induction false} MembersJoin(h: Host, a: seq<Member>, b: seq<Member>)
    requires a != [] && b != []
    ensures SerMembers(h, a + b) == SerMembers(h, a) + "," + SerMembers(h, b)
    decreases a
  {
    assert (a + b)[1..] == a[1..] + b && (a + b)[0] == a[0];
    if |a| == 1 {
      assert a[1..] + b == b;
      assert SerMembersTail(h, b) == "," + SerMembers(h, b);
    } else {
      MembersJoin(h, a[1..], b);
      MembersTail(h, a[1..]);
      MembersTail(h, a[1..] + b);
      Associate(SerMember(h, a[0]), ",", SerMembers(h, a[1..]), SerMembers(h, b));
    }
  }

  lemma OneMember(h: Host, key: string, v: Value)
    ensures SerMembers(h, [Member(key, v)]) == Quote(key) + ":" + Ser(h, v)
  {
    assert SerMembersTail(h, [Member(key, v)][1..]) == "";
  }

  lemma MembersTail(h: Host, ms: seq<Member>)
    requires ms != []
    ensures SerMembersTail(h, ms) == "," + SerMembers(h, ms)
  {
    Shift(",", SerMember(h, ms[0]), SerMembersTail(h, ms[1..]));
  }

  /** Scalars are their literals, lists stand in brackets and objects in braces. */
  lemma ValueText(h: Host, es: seq<Value>, ms: seq<Member>, n: int, s: string)
    ensures Ser(h, Null) == "null" && Ser(h, Bool(true)) == "true" && Ser(h, Bool(false)) == "false"
    ensures -9007199254740991 <= n <= 9007199254740991 ==> Ser(h, Num(Fin(n as real))) == Dec(n)
    ensures Ser(h, Str(s)) == ['"'] + Concat(Pieces(s)) + ['"']
    ensures Ser(h, Arr(es)) == ['['] + SerElems(h, es) + [']'] && SerElems(h, []) == ""
    ensures Ser(h, Obj(ms)) == ['{'] + SerMembers(h, ms) + ['}'] && SerMembers(h, []) == ""
  {
  }

  // ---------------------------------------------------------------------------------------------
  // Parsing
  // ---------------------------------------------------------------------------------------------

  /** The short escapes, and what each stands for. */
  lemma EscapeRead(h: Host, rest: string)
    ensures ReadChar(h, ['\\', '"'] + rest) == Ok(Read('"', rest)) && ReadChar(h, ['\\', '\\'] + rest) == Ok(Read('\\', rest))
    ensures ReadChar(h, ['\\', '/'] + rest) == Ok(Read('/', rest)) && ReadChar(h, ['\\', 'b'] + rest) == Ok(Read(8 as char, rest))
    ensures ReadChar(h, ['\\', 'f'] + rest) == Ok(Read(12 as char, rest)) && ReadChar(h, ['\\', 'n'] + rest) == Ok(Read('\n', rest))
    ensures ReadChar(h, ['\\', 'r'] + rest) == Ok(Read('\r', rest)) && ReadChar(h, ['\\', 't'] + rest) == Ok(Read('\t', rest))
  {
    forall c: char ensures (['\\', c] + rest)[2..] == rest {}
  }

  /** A character that is neither a quote, nor a backslash, nor a control stands for itself; a raw control is refused. */
  lemma PlainRead(h: Host, c: char, rest: string)
    requires c != '"' && c != '\\'
    ensures ReadChar(h, [c] + rest) == if c as int < 32 then Err(RawControl) else Ok(Read(c, rest))
  {
    assert ([c] + rest)[1..] == rest;
  }

  /** Four hexadecimal digits give a code unit; half of a surrogate pair becomes U+FFFD. */
  lemma UnicodeRead(h: Host, hex: string, rest: string, cp: int)
    requires |hex| == 4 && h.hexVal(hex) == Some(cp) && 0 <= cp <= 0xFFFF
    ensures ReadChar(h, ['\\', 'u'] + hex + rest)
         == Ok(Read(if 0xD800 <= cp <= 0xDFFF then 0xFFFD as char else cp as char, rest))
  {
    var s := ['\\', 'u'] + hex + rest;
    assert s[2..6] == hex && s[6..] == rest;
  }

  /** White space is space, tab, line feed and carriage return, and all of it at the front is skipped. */
  lemma {:induction false} SpacesSkipped(s: string) returns (k: nat)
    ensures k <= |s| && SkipWs(s) == s[k..]
    ensures forall i :: 0 <= i < k ==> s[i] in {' ', '\t', '\n', '\r'}
    ensures k < |s| ==> s[k] !in {' ', '\t', '\n', '\r'}
  {
    if s == "" || !IsSpace(s[0]) {
      k := 0;
    } else {
      var n := SpacesSkipped(s[1..]);
      k := n + 1;
      assert s[1..][n..] == s[k..];
      assert forall i :: 0 < i < k ==> s[i] == s[1..][i - 1];
    }
  }

  predicate Digits(w: string) {
    forall i :: 0 <= i < |w| ==> '0' <= w[i] <= '9'
  }

  predicate EndsDigits(t: string) {
    t == "" || !('0' <= t[0] <= '9')
  }

  lemma {:induction false} DigitsSkipped(s: string) returns (w: string)
    ensures s == w + SkipDigits(s) && Digits(w) && EndsDigits(SkipDigits(s))
  {
    if s == "" || !IsDigit(s[0]) {
      w := "";
    } else {
      var rest := DigitsSkipped(s[1..]);
      w := [s[0]] + rest;
      assert s == [s[0]] + s[1..];
    }
  }

  lemma {:induction false} SkipsDigits(w: string, t: string)
    requires Digits(w) && EndsDigits(t)
    ensures SkipDigits(w + t) == t
  {
    if w == "" {
      assert w + t == t;
    } else {
      assert (w + t)[1..] == w[1..] + t;
      SkipsDigits(w[1..], t);
    }
  }

  /** What a number token consists of (section 6, except that leading zeros are let through). */
  predicate IsInteger(w: string) {
    (w != "" && Digits(w)) || (|w| > 1 && w[0] == '-' && Digits(w[1..]))
  }

  predicate IsFraction(w: string) {
    w == "" || (|w| > 1 && w[0] == '.' && Digits(w[1..]))
  }

  predicate IsExponent(w: string) {
    || w == ""
    || (|w| > 1 && w[0] in {'e', 'E'} && Digits(w[1..]))
    || (|w| > 2 && w[0] in {'e', 'E'} && w[1] in {'+', '-'} && Digits(w[2..]))
  }

  lemma AfterFront(s: string, n: nat, d: string, rest: string)
    requires n <= |s| && s[n..] == d + rest
    ensures s == s[..n] + d + rest && (s[..n] + d)[n..] == d
  {
    assert s == s[..n] + s[n..];
  }

  lemma IntegerIs(s: string) returns (w: string)
    requires AfterInteger(s).Ok?
    ensures s == w + AfterInteger(s).value && IsInteger(w)
  {
    var n := if StartsWith(s, '-') then 1 else 0;
    var d := DigitsSkipped(s[n..]);
    assert s[0..] == s;
    AfterFront(s, n, d, SkipDigits(s[n..]));
    w := s[..n] + d;
    assert n == 0 ==> w == d;
  }

  lemma FractionIs(s: string) returns (w: string)
    requires AfterFraction(s).Ok?
    ensures s == w + AfterFraction(s).value && IsFraction(w)
  {
    if StartsWith(s, '.') {
      var d := DigitsSkipped(s[1..]);
      w := ['.'] + d;
      assert s == ['.'] + s[1..] && w[1..] == d;
    } else {
      w := "";
    }
  }

  lemma ExponentIs(s: string) returns (w: string)
    requires AfterExponent(s).Ok?
    ensures s == w + AfterExponent(s).value && IsExponent(w)
  {
    if !(StartsWith(s, 'e') || StartsWith(s, 'E')) {
      w := "";
    } else {
      var n := if StartsWith(s[1..], '+') || StartsWith(s[1..], '-') then 2 else 1;
      var d := DigitsSkipped(s[n..]);
      AfterFront(s, n, d, SkipDigits(s[n..]));
      w := s[..n] + d;
      assert n == 2 ==> w[1] == s[1..][0];
    }
  }

  /** What is read as a number is an integer, then perhaps a fraction, then perhaps an exponent. */
  lemma NumberIs(h: Host, s: string) returns (whole: string, fraction: string, exponent: string)
    requires ReadNumber(h, s).Ok?
    ensures IsInteger(whole) && IsFraction(fraction) && IsExponent(exponent)
    ensures s == whole + fraction + exponent + ReadNumber(h, s).value.rest
    ensures ReadNumber(h, s).value.item == Num(h.toDouble(whole + fraction + exponent))
  {
    var t := AfterInteger(s).value;
    var u := AfterFraction(t).value;
    var v := AfterExponent(u).value;
    whole := IntegerIs(s);
    fraction := FractionIs(t);
    exponent := ExponentIs(u);
    Assemble(whole, fraction, exponent, t, u, v);
    assert s[..|s| - |v|] == whole + fraction + exponent;
  }

  lemma Assemble(a: string, b: string, c: string, t: string, u: string, v: string)
    requires t == b + u && u == c + v
    ensures a + t == a + b + c + v
  {
  }

  lemma IntegerParses(w: string, t: string)
    requires IsInteger(w) && EndsDigits(t)
    ensures AfterInteger(w + t) == Ok(t)
  {
    if w[0] == '-' {
      assert (w + t)[1..] == w[1..] + t && StartsWith(w + t, '-');
      SkipsDigits(w[1..], t);
    } else {
      SkipsDigits(w, t);
    }
  }

  lemma FractionParses(w: string, t: string)
    requires IsFraction(w) && EndsDigits(t) && (w == "" ==> !StartsWith(t, '.'))
    ensures AfterFraction(w + t) == Ok(t)
  {
    if w == "" {
      assert w + t == t;
    } else {
      assert (w + t)[1..] == w[1..] + t;
      SkipsDigits(w[1..], t);
    }
  }

  lemma ExponentParses(w: string, t: string)
    requires IsExponent(w) && EndsDigits(t) && (w == "" ==> !StartsWith(t, 'e') && !StartsWith(t, 'E'))
    ensures AfterExponent(w + t) == Ok(t)
  {
    if w == "" {
      assert w + t == t;
    } else if w[1] in {'+', '-'} {
      assert (w + t)[1..][0] == w[1] && (w + t)[2..] == w[2..] + t;
      SkipsDigits(w[2..], t);
    } else {
      assert (w + t)[1..] == w[1..] + t && (w[1..] + t)[0] == w[1];
      SkipsDigits(w[1..], t);
    }
  }

  /** And every such token is read, when nothing follows that would continue it. */
  lemma NumberParses(h: Host, whole: string, fraction: string, exponent: string, rest: string)
    requires IsInteger(whole) && IsFraction(fraction) && IsExponent(exponent) && EndsDigits(rest)
    requires exponent == "" ==> !StartsWith(rest, 'e') && !StartsWith(rest, 'E')
    requires fraction == "" && exponent == "" ==> !StartsWith(rest, '.')
    ensures ReadNumber(h, whole + fraction + exponent + rest) == Ok(Read(Num(h.toDouble(whole + fraction + exponent)), rest))
  {
    var u := exponent + rest;
    var t := fraction + u;
    if exponent == "" { assert u == rest; }
    if fraction == "" { assert t == u; }
    ExponentParses(exponent, rest);
    FractionParses(fraction, u);
    IntegerParses(whole, t);
    Assemble(whole, fraction, exponent, t, u, rest);
    TokenRead(h, whole + t, t, u, rest, whole + fraction + exponent);
  }

  lemma TokenRead(h: Host, s: string, t: string, u: string, rest: string, token: string)
    requires AfterInteger(s) == Ok(t) && AfterFraction(t) == Ok(u) && AfterExponent(u) == Ok(rest) && s == token + rest
    ensures ReadNumber(h, s) == Ok(Read(Num(h.toDouble(token)), rest))
  {
    assert s[..|s| - |rest|] == token;
  }

  /** The limits of the program. */
  lemma Limits()
    ensures MAX_DEPTH == 256 && MAX_SAFE == 9007199254740991
  {
  }
}
