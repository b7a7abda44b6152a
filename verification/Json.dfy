/** JSON values, their compact serialization, and the printing methods that append to an output list. */
module Json {
  datatype Option<+T> = None | Some(value: T)

  /** An IEEE double as far as the engine looks at it: a finite number or not. */
  datatype Double = Fin(r: real) | NonFinite

  /** A parsed value. A dictionary keeps its members in insertion order. */
  datatype Value =
    | Null
    | Bool(b: bool)
    | Num(x: Double)
    | Str(s: string)
    | Arr(elems: seq<Value>)
    | Obj(members: seq<Member>)

  datatype Member = Member(key: string, value: Value)

  /** The functions of the host language that the engine calls. */
  datatype Host = Host(
    toDouble: string -> Double,      // the double nearest to a number token
    hexVal: string -> Option<int>,   // base-16 reading of four characters, if they have one
    lower: string -> string,         // lower-casing
    repr: real -> string,            // shortest digits of a safe integer, as the host prints them
    wide: real -> string             // text of any other finite double
  )

  const MAX_SAFE: int := 9007199254740991
  const MAX_DEPTH: nat := 256

  function Digit(d: nat): (c: char)
    requires d < 10
    ensures '0' <= c <= '9'
  {
    '0' + d as char
  }

  predicate IsDigit(c: char) {
    '0' <= c <= '9'
  }

  /** Decimal text of a natural number. */
  function DecNat(n: nat): (t: string)
    ensures |t| > 0 && forall i :: 0 <= i < |t| ==> IsDigit(t[i])
    ensures t[0] == '0' <==> n == 0
  {
    if n < 10 then [Digit(n)] else DecNat(n / 10) + [Digit(n % 10)]
  }

  /** Decimal text of an integer. */
  function Dec(n: int): string {
    if n < 0 then "-" + DecNat(-n) else DecNat(n)
  }

  predicate IsSafeInt(r: real) {
    r.Floor as real == r && -MAX_SAFE <= r.Floor <= MAX_SAFE
  }

  predicate IsSafe(x: Double) {
    x.Fin? && IsSafeInt(x.r)
  }

  /** The text of a number in the compact form. */
  function NumText(h: Host, x: Double): string {
    if x.NonFinite? then "null"
    else if IsSafeInt(x.r) then Dec(x.r.Floor)
    else h.wide(x.r)
  }

  function HexDigit(d: nat): char
    requires d < 16
  {
    if d < 10 then Digit(d) else 'a' + (d - 10) as char
  }

  function ControlEscape(c: char): string
    requires c < ' '
  {
    "\\u00" + [HexDigit(c as nat / 16), HexDigit(c as nat % 16)]
  }

  /** One character inside a JSON string (section 7 of RFC 8259). */
  function EscapeChar(c: char): (e: string)
    ensures |e| > 0
  {
    if c == '"' then "\\\""
    else if c == '\\' then "\\\\"
    else if c == 8 as char then "\\b"
    else if c == '\t' then "\\t"
    else if c == '\n' then "\\n"
    else if c == 12 as char then "\\f"
    else if c == '\r' then "\\r"
    else if c < ' ' then ControlEscape(c)
    else [c]
  }

  /** The escaped characters of a string, in order. */
  function Pieces(s: string): (ps: seq<string>)
    ensures |ps| == |s| && forall i :: 0 <= i < |s| ==> ps[i] == EscapeChar(s[i])
  {
    seq(|s|, i requires 0 <= i < |s| => EscapeChar(s[i]))
  }

  function Concat(parts: seq<string>): string {
    if parts == [] then "" else parts[0] + Concat(parts[1..])
  }

  function Quote(s: string): string {
    "\"" + Concat(Pieces(s)) + "\""
  }

  /** The compact text of a value. */
  function Ser(h: Host, v: Value): string
    decreases v, 1
  {
    match v
    case Null => "null"
    case Bool(b) => if b then "true" else "false"
    case Num(x) => NumText(h, x)
    case Str(s) => Quote(s)
    case Arr(es) => "[" + SerElems(h, es) + "]"
    case Obj(ms) => "{" + SerMembers(h, ms) + "}"
  }

  function SerElems(h: Host, es: seq<Value>): string
    decreases es, 1
  {
    if es == [] then "" else Ser(h, es[0]) + SerElemsTail(h, es[1..])
  }

  function SerElemsTail(h: Host, es: seq<Value>): string
    decreases es, 0
  {
    if es == [] then "" else "," + Ser(h, es[0]) + SerElemsTail(h, es[1..])
  }

  function SerMember(h: Host, m: Member): string
    decreases m, 0
  {
    Quote(m.key) + ":" + Ser(h, m.value)
  }

  function SerMembers(h: Host, ms: seq<Member>): string
    decreases ms, 1
  {
    if ms == [] then "" else SerMember(h, ms[0]) + SerMembersTail(h, ms[1..])
  }

  function SerMembersTail(h: Host, ms: seq<Member>): string
    decreases ms, 0
  {
    if ms == [] then "" else "," + SerMember(h, ms[0]) + SerMembersTail(h, ms[1..])
  }

  // ---------------------------------------------------------------------------------------------
  // What the printer relies on
  // ---------------------------------------------------------------------------------------------

  /** Nesting of a value: a scalar has depth one. */
  function Depth(v: Value): (d: nat)
    ensures d > 0
    decreases v, 1
  {
    match v
    case Arr(es) => 1 + DepthElems(es)
    case Obj(ms) => 1 + DepthMembers(ms)
    case _ => 1
  }

  function Max(a: nat, b: nat): nat {
    if a < b then b else a
  }

  function DepthElems(es: seq<Value>): nat
    decreases es, 0
  {
    if es == [] then 0 else Max(Depth(es[0]), DepthElems(es[1..]))
  }

  function DepthMembers(ms: seq<Member>): nat
    decreases ms, 0
  {
    if ms == [] then 0 else Max(Depth(ms[0].value), DepthMembers(ms[1..]))
  }

  function Keys(ms: seq<Member>): set<string> {
    set m | m in ms :: m.key
  }

  /** Every dictionary in the value has distinct keys, as dictionaries do. */
  predicate IsDict(v: Value)
    decreases v, 1
  {
    match v
    case Arr(es) => forall e | e in es :: IsDict(e)
    case Obj(ms) => DistinctKeys(ms) && forall m | m in ms :: IsDict(m.value)
    case _ => true
  }

  predicate DistinctKeys(ms: seq<Member>) {
    forall i, j :: 0 <= i < j < |ms| ==> ms[i].key != ms[j].key
  }

  /** Every number in the value is a safe integer. */
  predicate AllSafe(v: Value)
    decreases v, 1
  {
    match v
    case Num(x) => IsSafe(x)
    case Arr(es) => forall e | e in es :: AllSafe(e)
    case Obj(ms) => forall m | m in ms :: AllSafe(m.value)
    case _ => true
  }

  /** What is assumed of the host functions: number tokens and shortest digits are exact on safe
      integers, two-digit hexadecimal reads back, and lower-casing is idempotent and keeps "0x". */
  ghost predicate HostOk(h: Host) {
    && (forall n: int :: -MAX_SAFE <= n <= MAX_SAFE ==> h.toDouble(Dec(n)) == Fin(n as real))
    && (forall n: int :: -MAX_SAFE <= n <= MAX_SAFE && n != 0 ==> h.repr(n as real) == Dec(n) + ".0")
    && (forall c: char :: c < ' ' ==> h.hexVal(ControlEscape(c)[2..]) == Some(c as int))
    && (forall s: string :: h.lower(h.lower(s)) == h.lower(s))
    && (forall s: string :: "0x" <= s ==> "0x" <= h.lower(s))
  }

  lemma {:induction false} DecNatInjective(m: nat, n: nat)
    requires DecNat(m) == DecNat(n)
    ensures m == n
    decreases m
  {
    var a, b := DecNat(m), DecNat(n);
    assert a[|a| - 1] == b[|b| - 1];
    if m >= 10 && n >= 10 {
      assert a[..|a| - 1] == DecNat(m / 10) && b[..|b| - 1] == DecNat(n / 10);
      DecNatInjective(m / 10, n / 10);
    }
  }

  lemma DecInjective(m: int, n: int)
    requires Dec(m) == Dec(n)
    ensures m == n
  {
    assert Dec(m)[0] == '-' <==> m < 0;
    assert Dec(n)[0] == '-' <==> n < 0;
    if m < 0 {
      assert Dec(m)[1..] == DecNat(-m) && Dec(n)[1..] == DecNat(-n);
      DecNatInjective(-m, -n);
    } else {
      DecNatInjective(m, n);
    }
  }

  /** A reading of decimal texts. */
  ghost function ReadDec(t: string): Double {
    if exists n: int :: Dec(n) == t then Fin((var n: int :| Dec(n) == t; n) as real) else NonFinite
  }

  lemma ReadDecOf(n: int)
    ensures ReadDec(Dec(n)) == Fin(n as real)
  {
    var m: int :| Dec(m) == Dec(n) && ReadDec(Dec(n)) == Fin(m as real);
    DecInjective(m, n);
  }

  /** A reading of the escapes of control characters. */
  ghost function ReadHex(t: string): Option<int> {
    if exists c: char :: c < ' ' && ControlEscape(c)[2..] == t
    then Some((var c: char :| c < ' ' && ControlEscape(c)[2..] == t; c) as int) else None
  }

  lemma ReadHexOf(c: char)
    requires c < ' '
    ensures ReadHex(ControlEscape(c)[2..]) == Some(c as int)
  {
    var t := ControlEscape(c)[2..];
    var d: char :| d < ' ' && ControlEscape(d)[2..] == t && ReadHex(t) == Some(d as int);
    EscapeDigits(c);
    EscapeDigits(d);
  }

  lemma EscapeDigits(c: char)
    requires c < ' '
    ensures ControlEscape(c)[2..] == ['0', '0', HexDigit(c as nat / 16), HexDigit(c as nat % 16)]
  {
  }

  /** The hypothesis about the host can be met. */
  lemma HostExists() returns (h: Host)
    ensures HostOk(h)
  {
    h := Host(ReadDec, ReadHex, (s: string) => s, (r: real) => Dec(r.Floor) + ".0", (r: real) => "");
    forall n: int ensures h.toDouble(Dec(n)) == Fin(n as real) { ReadDecOf(n); }
    forall c: char | c < ' ' ensures h.hexVal(ControlEscape(c)[2..]) == Some(c as int) { ReadHexOf(c); }
  }

  // ---------------------------------------------------------------------------------------------
  // The printing methods
  // ---------------------------------------------------------------------------------------------

  /** The output list that the serializer appends to; only the concatenation matters to it. */
  class Sink {
    var parts: seq<string>

    constructor ()
      ensures parts == []
    {
      parts := [];
    }

    method Append(t: string)
      modifies this
      ensures parts == old(parts) + [t]
      ensures Concat(parts) == old(Concat(parts)) + t
    {
      ConcatSnoc(parts, t);
      parts := parts + [t];
    }
  }

  lemma {:induction false} ConcatSnoc(parts: seq<string>, t: string)
    ensures Concat(parts + [t]) == Concat(parts) + t
  {
    if parts != [] {
      ConcatSnoc(parts[1..], t);
      assert (parts + [t])[1..] == parts[1..] + [t];
    } else {
      assert ([t])[1..] == [];
    }
  }

  lemma Assoc3(c: string, a: string, x: string, r: string)
    ensures c + (a + x + r) == ((c + a) + x) + r
  {
  }

  /** Append the quoted string, one character at a time. */
  method SerString(s: string, out: Sink)
    modifies out
    ensures Concat(out.parts) == old(Concat(out.parts)) + Quote(s)
  {
    ghost var start := Concat(out.parts);
    out.Append("\"");
    SerChars(s, Pieces(s), out);
    out.Append("\"");
    Assoc3(start, "\"", Concat(Pieces(s)), "\"");
  }

  method SerChars(s: string, ghost pieces: seq<string>, out: Sink)
    requires |pieces| == |s| && forall i :: 0 <= i < |s| ==> EscapeChar(s[i]) == pieces[i]
    modifies out
    ensures Concat(out.parts) == old(Concat(out.parts)) + Concat(pieces)
  {
    ghost var start := Concat(out.parts);
    for i := 0 to |s|
      invariant Concat(out.parts) == start + Concat(pieces[..i])
    {
      var e := EscapeChar(s[i]);
      out.Append(e);
      assert e == pieces[i];
      ConcatTake(pieces, i, start);
    }
    assert pieces[..|s|] == pieces;
  }

  lemma ConcatTake(pieces: seq<string>, i: nat, start: string)
    requires i < |pieces|
    ensures start + Concat(pieces[..i + 1]) == start + Concat(pieces[..i]) + pieces[i]
  {
    ConcatSnoc(pieces[..i], pieces[i]);
    assert pieces[..i + 1] == pieces[..i] + [pieces[i]];
  }

  /** Append the compact text of a value. */
  method SerValue(h: Host, v: Value, out: Sink)
    requires HostOk(h)
    modifies out
    ensures Concat(out.parts) == old(Concat(out.parts)) + Ser(h, v)
    decreases v, 1
  {
    match v
    case Null => out.Append("null");
    case Bool(b) => out.Append(if b then "true" else "false");
    case Num(x) =>
      var t := SerNum(h, x);
      out.Append(t);
    case Str(s) => SerString(s, out);
    case Arr(es) =>
      ghost var start := Concat(out.parts);
      out.Append("[");
      SerArray(h, es, out);
      out.Append("]");
      Assoc3(start, "[", SerElems(h, es), "]");
    case Obj(ms) =>
      ghost var start := Concat(out.parts);
      out.Append("{");
      SerObject(h, ms, out);
      out.Append("}");
      Assoc3(start, "{", SerMembers(h, ms), "}");
  }

  function Separator(i: nat): string {
    if i > 0 then "," else ""
  }

  /** What is still to be printed of an array before element i. */
  function ElemsFrom(h: Host, es: seq<Value>, i: nat): string
    requires i <= |es|
  {
    if i == 0 then SerElems(h, es) else SerElemsTail(h, es[i..])
  }

  lemma ElemsStep(h: Host, es: seq<Value>, i: nat, c: string)
    requires i < |es|
    ensures c + ElemsFrom(h, es, i) == ((c + Separator(i)) + Ser(h, es[i])) + ElemsFrom(h, es, i + 1)
  {
    var x, rest := Ser(h, es[i]), ElemsFrom(h, es, i + 1);
    assert es[i..][1..] == es[i + 1..];
    assert ElemsFrom(h, es, i) == Separator(i) + x + rest;
    Assoc3(c, Separator(i), x, rest);
  }

  method SerArray(h: Host, es: seq<Value>, out: Sink)
    requires HostOk(h)
    modifies out
    ensures Concat(out.parts) == old(Concat(out.parts)) + SerElems(h, es)
    decreases es, 0
  {
    ghost var total := Concat(out.parts) + ElemsFrom(h, es, 0);
    for i := 0 to |es|
      invariant Concat(out.parts) + ElemsFrom(h, es, i) == total
    {
      ElemsStep(h, es, i, Concat(out.parts));
      if i > 0 { out.Append(","); } else { assert Concat(out.parts) + "" == Concat(out.parts); }
      SerValue(h, es[i], out);
    }
    assert ElemsFrom(h, es, |es|) == "";
  }

  function MembersFrom(h: Host, ms: seq<Member>, i: nat): string
    requires i <= |ms|
  {
    if i == 0 then SerMembers(h, ms) else SerMembersTail(h, ms[i..])
  }

  lemma MembersStep(h: Host, ms: seq<Member>, i: nat, c: string)
    requires i < |ms|
    ensures c + MembersFrom(h, ms, i) == ((c + Separator(i)) + SerMember(h, ms[i])) + MembersFrom(h, ms, i + 1)
  {
    var x, rest := SerMember(h, ms[i]), MembersFrom(h, ms, i + 1);
    assert ms[i..][1..] == ms[i + 1..];
    assert MembersFrom(h, ms, i) == Separator(i) + x + rest;
    Assoc3(c, Separator(i), x, rest);
  }

  method SerPair(h: Host, m: Member, out: Sink)
    requires HostOk(h)
    modifies out
    ensures Concat(out.parts) == old(Concat(out.parts)) + SerMember(h, m)
    decreases m, 0
  {
    ghost var c := Concat(out.parts);
    SerString(m.key, out);
    out.Append(":");
    SerValue(h, m.value, out);
    Assoc3(c, Quote(m.key), ":", Ser(h, m.value));
  }

  method SerObject(h: Host, ms: seq<Member>, out: Sink)
    requires HostOk(h)
    modifies out
    ensures Concat(out.parts) == old(Concat(out.parts)) + SerMembers(h, ms)
    decreases ms, 0
  {
    ghost var total := Concat(out.parts) + MembersFrom(h, ms, 0);
    for i := 0 to |ms|
      invariant Concat(out.parts) + MembersFrom(h, ms, i) == total
    {
      MembersStep(h, ms, i, Concat(out.parts));
      if i > 0 { out.Append(","); } else { assert Concat(out.parts) + "" == Concat(out.parts); }
      SerPair(h, ms[i], out);
    }
    assert MembersFrom(h, ms, |ms|) == "";
  }

  method Serialize(h: Host, v: Value) returns (t: string)
    requires HostOk(h)
    ensures t == Ser(h, v)
  {
    var out := new Sink();
    SerValue(h, v, out);
    t := Concat(out.parts);
  }

  // ---------------------------------------------------------------------------------------------
  // Number formatting: strip the trailing zeros of the host's digits, then put them back
  // ---------------------------------------------------------------------------------------------

  function Zeros(n: nat): (z: string)
    ensures |z| == n
  {
    seq(n, _ => '0')
  }

  /** The part before and the part after the first point. */
  function PartitionPoint(s: string): (p: (string, string))
  {
    if s == "" then ("", "")
    else if s[0] == '.' then ("", s[1..])
    else var r := PartitionPoint(s[1..]); ([s[0]] + r.0, r.1)
  }

  lemma {:induction false} PartitionAtPoint(ip: string, fp: string)
    requires '.' !in ip
    ensures PartitionPoint(ip + "." + fp) == (ip, fp)
  {
    if ip == "" {
      assert ("." + fp)[1..] == fp && ip + "." + fp == "." + fp;
    } else {
      PartitionAtPoint(ip[1..], fp);
      assert (ip + "." + fp)[1..] == ip[1..] + "." + fp;
      assert (ip + "." + fp)[0] == ip[0] != '.';
      assert [ip[0]] + ip[1..] == ip;
    }
  }

  function StripLeadingZeros(s: string): string {
    if s != "" && s[0] == '0' then StripLeadingZeros(s[1..]) else s
  }

  /** Drop trailing zeros, one at a time. */
  method StripTrailingZeros(all: string) returns (digits: string, n: nat)
    ensures digits + Zeros(n) == all
    ensures all != "" && all[|all| - 1] == '0' ==> n > 0
  {
    digits, n := all, 0;
    while digits != "" && digits[|digits| - 1] == '0'
      invariant |digits| + n == |all| && digits + Zeros(n) == all
      invariant n == 0 ==> digits == all
      decreases |digits|
    {
      digits := digits[..|digits| - 1];
      n := n + 1;
    }
  }

  lemma OneZeroLess(digits: string, n: nat, d: string)
    requires digits + Zeros(n + 1) == d + "0"
    ensures digits + Zeros(n) == d
  {
    assert Zeros(n + 1) == Zeros(n) + "0";
    assert (digits + Zeros(n)) + "0" == d + "0";
    assert digits + Zeros(n) == ((digits + Zeros(n)) + "0")[..|d|];
    assert d == (d + "0")[..|d|];
  }

  /** Sign, significant digits and decimal exponent of the host's text of a number without exponent. */
  method Split(text: string) returns (sign: string, digits: string, exp10: int)
    ensures forall n: int :: n != 0 && text == Dec(n) + ".0" ==>
              sign == (if n < 0 then "-" else "") && exp10 >= 0 && digits + Zeros(exp10) == DecNat(if n < 0 then -n else n)
  {
    var s := text;
    sign := "";
    if "-" <= s {
      sign := "-";
      s := s[1..];
    }
    var (ip, fp) := PartitionPoint(s);
    var all := StripLeadingZeros(ip + fp);
    exp10 := -|fp|;
    if all == "" {
      digits, exp10 := "0", 0;
    } else {
      var zeros;
      digits, zeros := StripTrailingZeros(all);
      exp10 := exp10 + zeros;
    }
    forall n: int | n != 0 && text == Dec(n) + ".0"
      ensures sign == (if n < 0 then "-" else "") && exp10 >= 0 && digits + Zeros(exp10) == DecNat(if n < 0 then -n else n)
    {
      var d := DecNat(if n < 0 then -n else n);
      assert text[0] == '-' <==> n < 0;
      assert s == d + "." + "0";
      PartitionAtPoint(d, "0");
      assert all == d + "0" && all[|all| - 1] == '0';
      OneZeroLess(digits, exp10, d);
    }
  }

  /** Plain decimal notation of the digits, for the exponents that a safe integer can have. */
  function ExpandPlain(digits: string, expNum: int): string {
    var shift := expNum - (|digits| - 1);
    if shift >= 0 then digits + Zeros(shift)
    else
      var point := |digits| + shift;
      if point <= 0 then "0." + Zeros(-point) + digits
      else digits[..point] + "." + digits[point..]
  }

  /** The text of a double. On safe integers, stripping and re-expanding the digits gives back
      the plain decimal text. */
  method FmtF64(h: Host, x: Double) returns (t: string)
    requires HostOk(h)
    ensures t == NumText(h, x)
  {
    if x.NonFinite? { return "null"; }
    if x.r == 0.0 { return "0"; }
    if !IsSafeInt(x.r) { return h.wide(x.r); }
    ghost var n := x.r.Floor;
    assert h.repr(n as real) == Dec(n) + ".0";
    var sign, digits, exp10 := Split(h.repr(x.r));
    var expNum := exp10 + |digits| - 1;
    var body := ExpandPlain(digits, expNum);
    t := if sign != "" then sign + body else body;
  }

  /** The part of the text before the first point. */
  function BeforePoint(s: string): string {
    PartitionPoint(s).0
  }

  lemma {:induction false} NoPoint(s: string)
    requires '.' !in s
    ensures BeforePoint(s) == s
  {
    if s != "" { NoPoint(s[1..]); }
  }

  method SerNum(h: Host, x: Double) returns (t: string)
    requires HostOk(h)
    ensures t == NumText(h, x)
  {
    if x.NonFinite? { return "null"; }
    t := FmtF64(h, x);
    if IsSafeInt(x.r) {
      if '.' in t { t := BeforePoint(t); }
    }
  }
}
