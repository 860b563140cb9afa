/** The JavaScript values the sitemap pipeline handles: records returned by the
    GraphQL layer, thrown errors, truthiness, strict equality and the
    `String(x)` conversion of an optional string. */
module JsValues {

  datatype Option<+T> = None | Some(value: T)

  /** The two kinds of exception the pipeline can raise: a `TypeError` from
      reading a property of `null`/`undefined` or calling a string method on a
      non-string, and the explicit "`slug` is a required field" error. */
  datatype Error = TypeError | MissingSlug

  /** A computation that returns a value or throws. */
  datatype Result<+T> = Ok(value: T) | Throw(error: Error) {
    predicate IsFailure() { Throw? }
    function PropagateFailure<U>(): Result<U>
      requires Throw?
    {
      Throw(error)
    }
    function Extract(): T
      requires Ok?
    {
      value
    }
  }

  /** A JSON-like value. A key that is absent from a `Dict` is `undefined`.
      Numbers are integers here. */
  datatype Value =
    | Null
    | Bool(b: bool)
    | Num(n: int)
    | Str(s: string)
    | Obj(props: map<string, Value>)

  /** A plain object: property name to value. */
  type Dict = map<string, Value>

  /** JavaScript truthiness (`if (v)`). */
  predicate Truthy(v: Value) {
    match v
    case Null => false
    case Bool(b) => b
    case Num(n) => n != 0
    case Str(s) => s != ""
    case Obj(_) => true
  }

  /** `d[k]` is present and truthy. */
  predicate TruthyAt(d: Dict, k: string) {
    k in d && Truthy(d[k])
  }

  /** `d[k]` as an optional value (`None` for `undefined`). */
  function Get(d: Dict, k: string): (r: Option<Value>)
    ensures r.Some? <==> k in d
    ensures r.Some? ==> r.value == d[k]
  {
    if k in d then Some(d[k]) else None
  }

  /** `d[k]` when it is a string, the only case in which a string method on it
      does not throw. */
  function GetString(d: Dict, k: string): (r: Option<string>)
    ensures r.Some? <==> k in d && d[k].Str?
    ensures r.Some? ==> d[k] == Str(r.value)
  {
    if k in d && d[k].Str? then Some(d[k].s) else None
  }

  /** Truthiness of an optional string (`undefined` and `""` are falsy). */
  predicate TruthyString(s: Option<string>) {
    s.Some? && s.value != ""
  }

  /** `a === b` for two property reads. Two objects read from different
      query results are never the same reference, so `===` on objects is
      false; `undefined === undefined` is true. */
  predicate StrictEquals(a: Option<Value>, b: Option<Value>) {
    match a
    case None => b.None?
    case Some(x) => b.Some? && !x.Obj? && x == b.value
  }

  /** `String(s)` for an optional string: `undefined` becomes "undefined". */
  function JsString(s: Option<string>): (r: string)
    ensures s.Some? ==> r == s.value
    ensures s.None? ==> r == "undefined"
  {
    match s
    case Some(x) => x
    case None => "undefined"
  }
}
