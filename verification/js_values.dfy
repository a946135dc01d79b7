/** The JavaScript values that arrive in request bodies and in suggestion
    objects, with the coercions the application relies on: truthiness, the
    `||` operator, conversion to a string and `parseInt` of an arbitrary
    value. Numbers are exact reals (JSON never yields NaN or an infinity);
    how a number is rendered as a string is the parameter `render`. Objects
    other than arrays carry no modelled properties. */
module JsValues {
  import opened Wrappers
  import opened Text

  datatype JsValue =
    | Undefined
    | Null
    | Bool(b: bool)
    | Num(x: real)
    | Str(s: string)
    | Arr(items: seq<JsValue>)
    | Obj

  /** ToBoolean: `undefined`, `null`, `false`, `0` and `""` are falsy,
      everything else is truthy. */
  predicate Truthy(v: JsValue) {
    match v
    case Undefined => false
    case Null => false
    case Bool(b) => b
    case Num(x) => x != 0.0
    case Str(s) => s != ""
    case Arr(_) => true
    case Obj => true
  }

  /** `a || b`: the left operand when it is truthy, the right one otherwise. */
  function Or(a: JsValue, b: JsValue): (r: JsValue)
    ensures Truthy(a) ==> r == a
    ensures !Truthy(a) ==> r == b
  {
    if Truthy(a) then a else b
  }

  /** ToString. An array joins its elements with "," after rendering
      `undefined` and `null` elements as the empty string. */
  function ToJsString(v: JsValue, render: real -> string): string
    decreases v, 1
  {
    match v
    case Undefined => "undefined"
    case Null => "null"
    case Bool(b) => if b then "true" else "false"
    case Num(x) => render(x)
    case Str(s) => s
    case Arr(items) => Join(ElementStrings(v, render), ",")
    case Obj => "[object Object]"
  }

  /** The strings the elements of an array contribute to its rendering. */
  function ElementStrings(v: JsValue, render: real -> string): (r: seq<string>)
    requires v.Arr?
    ensures |r| == |v.items|
    decreases v, 0
  {
    seq(|v.items|, i requires 0 <= i < |v.items| =>
      var e := v.items[i];
      if e.Undefined? || e.Null? then "" else ToJsString(e, render))
  }

  /** `parseInt(v)`: the value is converted to a string first; `None` is NaN. */
  function ParseIntOf(v: JsValue, render: real -> string): Option<int> {
    ParseInt(ToJsString(v, render))
  }

  /** `v.length` where the source reads it: the UTF-16 length of a string,
      the length of an array, and `undefined` (`None`) for anything else. */
  function LengthOf(v: JsValue): (n: Option<nat>)
    ensures n.Some? <==> v.Str? || v.Arr?
  {
    match v
    case Str(s) => Some(Utf16Length(s))
    case Arr(items) => Some(|items|)
    case _ => None
  }

  /** The empty string is the only string of length zero, and the empty array
      the only array of length zero: for strings and arrays a positive length
      is the same as truthiness. */
  lemma LengthAndTruthiness(v: JsValue)
    requires v.Str? || v.Arr?
    ensures LengthOf(v).value > 0 <==> (Truthy(v) && (v.Arr? ==> |v.items| > 0))
  {
  }

  /** A string is its own rendering, so `parseInt` of a string reads it
      directly, and `parseInt` of a one-element array reads its element. */
  lemma ParseIntOfString(s: string, render: real -> string)
    ensures ParseIntOf(Str(s), render) == ParseInt(s)
    ensures ParseIntOf(Arr([Str(s)]), render) == ParseInt(s)
  {
    assert ElementStrings(Arr([Str(s)]), render) == [s];
  }
}
