/** Value shapes shared by the front end and the server: optional values,
    JavaScript's `undefined`/`null`/value distinction, and thrown values. */
module Js {

  /** A present-or-absent value; stands for TypeScript `T | null` after
      normalisation and for Python `Optional[T]`. */
  datatype Option<+T> = None | Some(value: T) {
    function GetOr(default: T): T {
      match this
      case Some(v) => v
      case None => default
    }
  }

  /** A JSON field as the front end sees it: missing (`undefined`),
      explicitly `null`, or carrying a value. */
  datatype Nullable<+T> = Undefined | Null | Defined(value: T)

  /** `x ?? null`: both `undefined` and `null` become the one absent value. */
  function Coalesce<T>(x: Nullable<T>): (r: Option<T>)
    ensures r.Some? <==> x.Defined?
    ensures r.Some? ==> r.value == x.value
  {
    match x
    case Defined(v) => Some(v)
    case _ => None
  }

  /** `x ?? fallback`. */
  function CoalesceOr<T>(x: Nullable<T>, fallback: T): (r: T)
    ensures x.Defined? ==> r == x.value
    ensures !x.Defined? ==> r == fallback
  {
    match x
    case Defined(v) => v
    case _ => fallback
  }

  /** JavaScript truthiness of an optional string: absent and "" are falsy. */
  predicate TruthyText(s: Option<string>) {
    s.Some? && s.value != ""
  }

  /** JavaScript truthiness of `xs?.length`. */
  predicate NonEmptyList<T>(xs: Option<seq<T>>) {
    xs.Some? && |xs.value| > 0
  }

  /** What a `catch (err)` clause receives: an `Error` object, or some other
      thrown value. */
  datatype Thrown = ErrorObject(message: string) | OtherValue

  /** `err instanceof Error ? err.message : fallback`. */
  function CaughtMessage(t: Thrown, fallback: string): (m: string)
    ensures t.ErrorObject? ==> m == t.message
    ensures t.OtherValue? ==> m == fallback
  {
    match t
    case ErrorObject(msg) => msg
    case OtherValue => fallback
  }

  /** The outcome of a call that may raise: its value, or the message of
      the exception (Python `str(exc)`). */
  datatype Attempt<+T> = Succeeded(value: T) | Raised(message: string)
}
