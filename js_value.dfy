/** The values a request body can hold once `express.json()` or
    `express.urlencoded({ extended: true })` has parsed it, and the JavaScript
    coercions the validator and the controllers apply to them. */
module JsValue {
  import opened Wrappers
  import opened JsNumber
  import opened JsString
  import opened EmailPattern

  /** A JSON value. Numbers are integral here. An object keeps its own properties; none of
      them can be a function, so an own `toString` or `hasOwnProperty` property shadows the
      inherited method with something that cannot be called. */
  datatype Value =
    | Null
    | Bool(b: bool)
    | Num(n: int)
    | Str(s: string)
    | Arr(items: seq<Value>)
    | Obj(fields: map<string, Value>)

  /** V8's TypeError messages for the three failures the coercions below can raise. */
  const ToStringNotAFunction := "request[field].toString is not a function"
  const CannotConvertToPrimitive := "Cannot convert object to primitive value"
  const NullHasNoToString := "Cannot read properties of null (reading 'toString')"

  /** What `Array.prototype.join` makes of one element: `null` becomes the empty text,
      every other element goes through ToString. An object with its own `toString` has no
      callable `toString` nor a primitive `valueOf`, so ToPrimitive fails (None). */
  function ElementText(v: Value): Option<string>
    decreases v, 1
  {
    match v
    case Null => Some("")
    case Bool(b) => Some(if b then "true" else "false")
    case Num(n) => Some(IntText(n))
    case Str(s) => Some(s)
    case Arr(items) => JoinText(items)
    case Obj(fields) => if "toString" in fields then None else Some("[object Object]")
  }

  /** `items.join(',')`, failing when one of the elements fails. */
  function JoinText(items: seq<Value>): Option<string>
    decreases items, 0
  {
    if items == [] then Some("")
    else
      match ElementText(items[0])
      case None => None
      case Some(head) =>
        if |items| == 1 then Some(head)
        else match JoinText(items[1..])
          case None => None
          case Some(tail) => Some(head + "," + tail)
  }

  /** `value.toString()` called on the value, as the validator does. */
  function ToStringCall(v: Value): Result<string> {
    match v
    case Null => Err(NullHasNoToString)
    case Obj(fields) => if "toString" in fields then Err(ToStringNotAFunction) else Ok("[object Object]")
    case Arr(items) =>
      (match JoinText(items) case Some(t) => Ok(t) case None => Err(CannotConvertToPrimitive))
    case _ => Ok(ElementText(v).value)
  }

  /** The text of a value whose `toString()` does not throw. It is also what ToString gives
      these values, and so what `RegExp.prototype.test` sees. */
  function Text(v: Value): string {
    match ToStringCall(v) case Ok(t) => t case Err(_) => ""
  }

  /** `isNaN(value)` for a value whose `toString()` does not throw. Booleans and numbers
      convert directly; strings, arrays (through their text) and objects (through
      "[object Object]") go through StringToNumber. */
  predicate IsNaN(v: Value) {
    match v
    case Null => false
    case Bool(_) => false
    case Num(_) => false
    case _ => !StringNumericLiteral(Text(v))
  }

  /** JavaScript truthiness: `null`, `false`, `0` and `""` are falsy. */
  predicate Truthy(v: Value) {
    match v
    case Null => false
    case Bool(b) => b
    case Num(n) => n != 0
    case Str(s) => s != ""
    case Arr(_) => true
    case Obj(_) => true
  }

  /** `v.key` for an own property; None stands for `undefined`. */
  function Member(v: Value, key: string): Option<Value> {
    if v.Obj? && key in v.fields then Some(v.fields[key]) else None
  }

  /** The number test agrees with the text of a number: a number is never NaN, and neither
      is its text read back as a string. */
  lemma NumberTextNotNaN(n: int)
    ensures !IsNaN(Num(n)) && !IsNaN(Str(Text(Num(n))))
  {
    IntTextIsNumeric(n);
  }

  /** Only a string, an array or an object can fail the number test, an object always does,
      and a string fails it exactly when it is not a numeric literal. */
  lemma IsNaNCases(v: Value)
    ensures IsNaN(v) ==> v.Str? || v.Arr? || v.Obj?
    ensures v.Obj? && "toString" !in v.fields ==> IsNaN(v)
    ensures v.Str? ==> (IsNaN(v) <==> !StringNumericLiteral(v.s))
  {
    if v.Obj? && "toString" !in v.fields {
      ObjectTextIsNaN();
    }
  }

  /** `Number("[object Object]")` is NaN. */
  lemma ObjectTextIsNaN()
    ensures !StringNumericLiteral("[object Object]")
  {
    var t := "[object Object]";
    assert t[0] == '[' && t[|t| - 1] == ']';
    NotNumericByFirstChar(t);
  }

  /** A number never passes the e-mail test: its text has no `@`. */
  lemma NumberIsNoEmail(n: int)
    ensures !MatchesEmail(Text(Num(n)))
  {
    IntTextHasNoAt(n);
    var t := Text(Num(n));
    assert IndexOf(t, '@') == |t|;
  }
}
