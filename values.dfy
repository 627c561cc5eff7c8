/** JSON-like values as the interpreter sees them, with the JavaScript notions the merge
    modifiers rely on: loose equality with null, truthiness, "empty object", own keys and
    string conversion of literals. */
module Values {

  /** The key that stands for "the current scope itself" (a capture written without a name). */
  const DefaultCaptureKey: string := "@@default-capture@@"

  /** Literals written in a selector: arguments of filters, modifiers and procedures,
      and the right-hand side of an assignment. */
  datatype Literal = LNull | LBool(b: bool) | LNum(n: int) | LStr(s: string)

  /** A value held in a result mapping. `Document` is the opaque sub-document made by the
      `node` procedure, identified by the node it was made from. */
  datatype Value =
    | Undefined
    | Null
    | Bool(b: bool)
    | Num(n: int)
    | Str(s: string)
    | Arr(items: seq<Value>)
    | Obj(fields: map<string, Value>)
    | Document(root: nat)

  function FromLiteral(l: Literal): (v: Value)
    ensures v.Null? || v.Bool? || v.Num? || v.Str?
  {
    match l
    case LNull => Null
    case LBool(b) => Bool(b)
    case LNum(n) => Num(n)
    case LStr(s) => Str(s)
  }

  /** `v == null` in JavaScript (loose equality): null or undefined. */
  predicate IsNullish(v: Value) {
    v.Null? || v.Undefined?
  }

  /** JavaScript truthiness (numbers are integers here, so NaN does not arise). */
  predicate Truthy(v: Value) {
    match v
    case Undefined => false
    case Null => false
    case Bool(b) => b
    case Num(n) => n != 0
    case Str(s) => s != ""
    case _ => true
  }

  /** `isEmptyObject` is taken to mean "a mapping with no keys". */
  predicate IsEmptyObject(v: Value) {
    v.Obj? && v.fields == map[]
  }

  /** Reading a key of a result mapping: `undefined` when the key is absent. */
  function Lookup(m: map<string, Value>, key: string): Value {
    if key in m then m[key] else Undefined
  }

  function DigitChar(d: nat): (c: char)
    requires d < 10
    ensures '0' <= c <= '9'
  {
    "0123456789"[d]
  }

  /** Decimal notation of a natural number, as `String(n)` writes it. */
  function NatToString(n: nat): (s: string)
    ensures |s| >= 1
    ensures forall i :: 0 <= i < |s| ==> '0' <= s[i] <= '9'
  {
    if n < 10 then [DigitChar(n)] else NatToString(n / 10) + [DigitChar(n % 10)]
  }

  function IntToString(n: int): string {
    if n < 0 then "-" + NatToString(-n) else NatToString(n)
  }

  /** `String(l)` for a literal, as used by `prefix + k`. */
  function LiteralToString(l: Literal): string {
    match l
    case LNull => "null"
    case LBool(b) => if b then "true" else "false"
    case LNum(n) => IntToString(n)
    case LStr(s) => s
  }

  /** The entries `i ↦ items[i]` for `i < n`, keyed by the decimal index. */
  function IndexEntries(items: seq<Value>, n: nat): (m: map<string, Value>)
    requires n <= |items|
    ensures forall i :: 0 <= i < n ==> NatToString(i) in m
  {
    if n == 0 then map[] else IndexEntries(items, n - 1)[NatToString(n - 1) := items[n - 1]]
  }

  /** What `Object.keys(value)` and `value[k]` give: the fields of a mapping, the indices of
      an array or of a string's characters, nothing for the other values. */
  function OwnEntries(v: Value): map<string, Value> {
    match v
    case Obj(fields) => fields
    case Arr(items) => IndexEntries(items, |items|)
    case Str(s) => IndexEntries(seq(|s|, i requires 0 <= i < |s| => Str([s[i]])), |s|)
    case _ => map[]
  }
}
