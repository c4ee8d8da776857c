/**
 Values that cross the browser's boundaries: optional fields of server replies and
 storage reads, and the dynamically typed payloads that arrive on the socket.
 */
module Values {
  import Text

  /** An optional value; `None` stands for JavaScript's `null` or `undefined`. */
  datatype Option<+T> = None | Some(value: T) {

    /** The wrapped value, or `default` when there is none. */
    function GetOr(default: T): T {
      match this
      case Some(v) => v
      case None => default
    }
  }

  /** A string field is truthy when it is present and not the empty string. */
  predicate Truthy(o: Option<string>) {
    o.Some? && o.value != ""
  }

  /** `field || default` for a string field. */
  function OrDefault(o: Option<string>, default: string): (r: string)
    ensures Truthy(o) ==> r == o.value
    ensures !Truthy(o) ==> r == default
  {
    if Truthy(o) then o.value else default
  }

  /**
   A JavaScript value as far as the socket listeners can tell it apart.
   `Str` is a primitive string; `Arr` is an array, identified by `ref` because
   arrays are compared by reference; `Other` is any other value, where `token`
   stands for its identity under SameValueZero and `text` for `String(v)`.
   */
  datatype JsValue =
    | Str(s: string)
    | Arr(ref: nat, items: seq<JsValue>)
    | Other(token: nat, text: string)

  /** The elements of an array payload, or nothing when the payload is not an array. */
  function ArrayItems(v: JsValue): (items: seq<JsValue>)
    ensures !v.Arr? ==> items == []
    ensures v.Arr? ==> items == v.items
  {
    if v.Arr? then v.items else []
  }

  /** The string a template literal `${v}` produces for `v`. */
  function ToText(v: JsValue): (t: string)
    ensures v.Str? ==> t == v.s
    ensures v.Arr? && |v.items| == 0 ==> t == []
    decreases v
  {
    match v
    case Str(s) => s
    case Other(_, text) => text
    case Arr(_, items) =>
      if |items| == 0 then []
      else Text.Join(seq(|items|, i requires 0 <= i < |items| => ToText(items[i])), ',')
  }
}
