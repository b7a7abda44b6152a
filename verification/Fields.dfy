/** Reading fields of JSON objects as the program does: what is missing, what is falsy, and what the
    conversions to text and to an integer make of a value. */
module Fields {
  import opened Json
  import opened Canonical

  /** The conversions of the host language. `uint` reads the text of an unsigned 256-bit integer,
      `big` that of any integer, and `text` prints a list or an object. `under` and `reaches` compare a
      value with ten. */
  datatype Coercions = Coercions(
    host: Host, text: Value -> string, uint: string -> Option<nat>, big: string -> Option<int>,
    under: Value -> bool, reaches: Value -> bool)

  function Field(v: Value, key: string): Option<Value> {
    if v.Obj? && HasKey(v.members, key) then Some(Get(v.members, key)) else None
  }

  predicate Truthy(v: Option<Value>) {
    match v
    case None => false
    case Some(Null) => false
    case Some(Bool(b)) => b
    case Some(Num(x)) => x != Fin(0.0)
    case Some(Str(s)) => s != ""
    case Some(_) => true
  }

  /** Neither missing nor null. */
  predicate Present(v: Option<Value>) {
    v.Some? && v != Some(Null)
  }

  function OrElse(v: Option<Value>, other: Value): Value {
    if Truthy(v) then v.value else other
  }

  /** The length of a value is less than ten. Only texts, lists and objects have one, an object in a field. */
  predicate LengthUnder(co: Coercions, v: Value) {
    match v
    case Str(s) => |s| < 10
    case Arr(es) => |es| < 10
    case Obj(_) => Field(v, "length").Some? && co.under(Field(v, "length").value)
    case _ => false
  }

  /** It is ten or more. */
  predicate LengthReaches(co: Coercions, v: Value) {
    match v
    case Str(s) => |s| >= 10
    case Arr(es) => |es| >= 10
    case Obj(_) => Field(v, "length").Some? && co.reaches(Field(v, "length").value)
    case _ => false
  }

  /** The text that a value is converted to. */
  function StringOf(co: Coercions, v: Value): string {
    match v
    case Null => "null"
    case Bool(b) => if b then "true" else "false"
    case Num(x) => NumText(co.host, x)
    case Str(s) => s
    case _ => co.text(v)
  }

  /** The text of a value, or the empty text for a falsy one. */
  function TextOr(co: Coercions, v: Option<Value>): string {
    if Truthy(v) then StringOf(co, v.value) else ""
  }

  /** The integer that a value is converted to; None where the conversion throws. */
  function IntOf(co: Coercions, v: Value): Option<int> {
    match v
    case Null => None
    case Bool(b) => Some(if b then 1 else 0)
    case Num(x) => if IsSafe(x) then Some(x.r.Floor) else None
    case Str(s) => co.big(s)
    case _ => co.big(co.text(v))
  }

  /** A field is a member under its name. */
  lemma FieldIff(v: Value, key: string, x: Value)
    requires v.Obj? ==> DistinctKeys(v.members)
    ensures Field(v, key) == Some(x) <==> v.Obj? && Member(key, x) in v.members
    ensures Field(v, key) == None <==> !(v.Obj? && exists m :: m in v.members && m.key == key)
  {
    if v.Obj? && HasKey(v.members, key) {
      var y := Get(v.members, key);
      assert Member(key, y) in v.members;
      assert forall m | m in v.members && m.key == key :: m.value == y;
    }
  }

  /** The falsy values. */
  lemma FalsyIff(v: Option<Value>)
    ensures !Truthy(v) <==> v in {None, Some(Null), Some(Bool(false)), Some(Num(Fin(0.0))), Some(Str(""))}
  {
  }

  /** Integers are read from safe numbers, booleans and texts. */
  lemma IntegerOf(co: Coercions, n: int, s: string)
    ensures IntOf(co, Num(Fin(n as real))) == if -9007199254740991 <= n <= 9007199254740991 then Some(n) else None
    ensures IntOf(co, Bool(true)) == Some(1) && IntOf(co, Bool(false)) == Some(0) && IntOf(co, Null) == None
    ensures IntOf(co, Str(s)) == co.big(s)
  {
  }
}
