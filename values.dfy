/** The JavaScript values the dashboard handles: attribute values of query
    rows, the selections a filter control stores, and the chart options that
    the transformers rewrite. */
module Values {
  import opened Wrappers
  import Strings

  /** An attribute value of a returned feature: a string, an (integer) number or null. */
  datatype Scalar = Null | Num(n: int) | Str(s: string)

  /** A feature's `attributes`: a field missing from the map reads as `undefined`. */
  type Row = map<string, Scalar>

  /** `attrs[field]`, with `None` for `undefined`. */
  function Attr(row: Row, field: string): Option<Scalar> {
    if field in row then Some(row[field]) else None
  }

  /** `v == null`, JavaScript's loose test that is true of both `null` and `undefined`. */
  predicate IsNullish(v: Option<Scalar>) {
    v == None || v == Some(Null)
  }

  /** `v ?? Num(d)`: the value, or the number `d` when it is null or undefined. */
  function OrNumber(v: Option<Scalar>, d: int): (r: Scalar)
    ensures IsNullish(v) <==> (r == Num(d) && v != Some(Num(d)))
    ensures !IsNullish(v) ==> r == v.value
  {
    if IsNullish(v) then Num(d) else v.value
  }

  /** `String(v)`. */
  function ToStr(v: Scalar): string {
    match v
    case Null => "null"
    case Num(n) => Strings.IntToString(n)
    case Str(s) => s
  }

  /** `Number(v)` when it is an integer (`Number(null)` is 0); `None` stands
      for NaN and for values that are not integers. */
  function ToNumber(v: Scalar): Option<int> {
    match v
    case Null => Some(0)
    case Num(n) => Some(n)
    case Str(s) => Strings.ParseInteger(s)
  }

  /** A value held in the chart options object (JSON plus `undefined`). */
  datatype JsValue =
    | Undef
    | JNull
    | JBool(b: bool)
    | JNum(n: int)
    | JStr(s: string)
    | JArr(items: seq<JsValue>)
    | JObj(fields: map<string, JsValue>)

  function FromScalar(v: Scalar): JsValue {
    match v
    case Null => JNull
    case Num(n) => JNum(n)
    case Str(s) => JStr(s)
  }

  /** An attribute as stored into a chart's data: `undefined` when absent. */
  function FromAttr(v: Option<Scalar>): JsValue {
    match v
    case None => Undef
    case Some(s) => FromScalar(s)
  }

  /** An options property, `undefined` when absent. */
  function Prop(m: map<string, JsValue>, k: string): JsValue {
    if k in m then m[k] else Undef
  }

  predicate Truthy(v: JsValue) {
    match v
    case Undef => false
    case JNull => false
    case JBool(b) => b
    case JNum(n) => n != 0
    case JStr(s) => s != ""
    case JArr(_) => true
    case JObj(_) => true
  }

  /** The own enumerable properties that `{...v}` copies: an object's fields,
      an array's or a string's elements under their indices, nothing for a
      primitive. */
  function Spread(v: JsValue): map<string, JsValue> {
    match v
    case JObj(m) => m
    case JArr(xs) => map i | 0 <= i < |xs| :: Strings.NatToString(i) := xs[i]
    case JStr(s) => map i | 0 <= i < |s| :: Strings.NatToString(i) := JStr([s[i]])
    case _ => map[]
  }

  /** `v?.[0]`. */
  function FirstElement(v: JsValue): JsValue {
    match v
    case JArr(xs) => if |xs| > 0 then xs[0] else Undef
    case JObj(m) => Prop(m, "0")
    case JStr(s) => if |s| > 0 then JStr([s[0]]) else Undef
    case _ => Undef
  }

  /** `{ ...(v || {}) }`: a falsy value spreads to nothing, like `{}`. */
  function SpreadOrEmpty(v: JsValue): (m: map<string, JsValue>)
    ensures !Truthy(v) ==> m == map[]
    ensures v.JObj? ==> m == v.fields
  {
    if Truthy(v) then Spread(v) else map[]
  }

  /** One control's entry in the selection record. The filter controls
      store a list of codes (multi-select), a number, `NaN` (a single
      select whose code is not numeric) or `null` (its empty choice). */
  datatype Selection = Codes(codes: seq<string>) | Number(n: int) | NaN | NullSel

  /** JavaScript truthiness of a selection entry (`undefined` when absent). */
  predicate SelectionTruthy(v: Option<Selection>) {
    match v
    case None => false
    case Some(Codes(_)) => true
    case Some(Number(n)) => n != 0
    case Some(NaN) => false
    case Some(NullSel) => false
  }

  /** `${v}` of a truthy selection entry; an array prints as its comma-join. */
  function SelectionText(v: Selection): string {
    match v
    case Codes(cs) => Strings.Join(cs, ",")
    case Number(n) => Strings.IntToString(n)
    case NaN => "NaN"
    case NullSel => "null"
  }
}
