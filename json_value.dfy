/**
 * The JSON values the server handles, and the few operations of the JSON
 * library it applies to them: `contains`, `value(key, default)` and
 * `push_back`. Parsing and printing live outside this module: the server
 * receives them as functions (see `Server.Library`).
 */
module JsonValue {
  import opened Common

  /** A JSON document. Integers and floating-point numbers are kept apart, as the library keeps them. */
  datatype Json =
    | Null
    | Boolean(b: bool)
    | Integer(i: int)
    | Float(x: real)
    | Str(s: string)
    | Array(items: seq<Json>)
    | Object(fields: map<string, Json>)

  /** `j.contains(key)`: a member lookup that is false for every value that is not an object. */
  predicate Contains(j: Json, key: string) {
    j.Object? && key in j.fields
  }

  /** `j.value(key, default)` on an object: the member when present, otherwise the default. */
  function ValueOr(j: Json, key: string, default: Json): (v: Json)
    requires j.Object?
    ensures Contains(j, key) ==> v == j.fields[key]
    ensures !Contains(j, key) ==> v == default
  {
    if key in j.fields then j.fields[key] else default
  }

  /** The kind name the library puts in its error messages. */
  function TypeName(j: Json): string {
    match j
    case Null => "null"
    case Boolean(_) => "boolean"
    case Integer(_) => "number"
    case Float(_) => "number"
    case Str(_) => "string"
    case Array(_) => "array"
    case Object(_) => "object"
  }

  /** The text of the exception `push_back` throws on a value that is neither null nor an array. */
  function PushBackError(doc: Json): string {
    "[json.exception.type_error.308] cannot use push_back() with " + TypeName(doc)
  }

  /**
   * `doc.push_back(x)`: null turns into the one-element array `[x]`, an array
   * gains `x` as its new last element, and any other value makes the call throw.
   */
  function PushBack(doc: Json, x: Json): (r: Result<Json, string>)
    ensures r.Success? <==> doc.Null? || doc.Array?
    ensures r.Success? ==> r.value.Array? && |r.value.items| > 0 && r.value.items[|r.value.items| - 1] == x
    ensures doc.Array? ==> r.Success? && r.value.items[..|r.value.items| - 1] == doc.items
    ensures doc.Null? ==> r == Success(Array([x]))
    ensures r.Failure? ==> r.error == PushBackError(doc)
  {
    match doc
    case Null => Success(Array([x]))
    case Array(items) => Success(Array(items + [x]))
    case _ => Failure(PushBackError(doc))
  }

  /** Pushes every element of `xs` in order, stopping at the first failure. */
  function PushAll(doc: Json, xs: seq<Json>): Result<Json, string>
    decreases |xs|
  {
    if xs == [] then Success(doc)
    else
      match PushBack(doc, xs[0])
      case Failure(e) => Failure(e)
      case Success(d) => PushAll(d, xs[1..])
  }

  /** Pushing one value after another onto an array gives the array followed by all of them, in order. */
  lemma {:induction false} PushAllOntoArray(items: seq<Json>, xs: seq<Json>)
    ensures PushAll(Array(items), xs) == Success(Array(items + xs))
    decreases |xs|
  {
    if xs == [] {
      assert items + xs == items;
    } else {
      PushAllOntoArray(items + [xs[0]], xs[1..]);
      assert items + [xs[0]] + xs[1..] == items + xs;
    }
  }
}
