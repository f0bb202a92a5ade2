/** Values shared by every part of the model: optional values, request
    parameters, Rails' notion of a "present" string, and the HTTP response
    that every controller action renders. */
module Common {

  /** A nullable value (a column that may hold NULL, a Ruby `nil`). */
  datatype Option<+T> = None | Some(value: T)

  /** One field of a request's parameters: either not supplied at all, or
      supplied with a value (which may itself be `nil`). */
  datatype Assign<+T> = Keep | Set(value: T)

  /** Mass assignment of one field: a supplied value overwrites the old one. */
  function Apply<T>(a: Assign<T>, current: T): T
  {
    match a
    case Keep => current
    case Set(v) => v
  }

  /** Seconds in one day; time is an integer clock in seconds. */
  const Day: int := 86400

  /** The HTTP statuses the controllers render. */
  const StatusOk: int := 200
  const StatusUnauthorized: int := 401
  const StatusNotFound: int := 404
  const StatusUnprocessableEntity: int := 422

  /** The whitespace characters that make a string blank. */
  predicate IsSpace(c: char)
  {
    c == ' ' || c == '\t' || c == '\n' || c == '\r' || c == '\U{B}' || c == '\U{C}'
  }

  /** True when every character of `s` is whitespace (so also for ""). */
  function AllSpace(s: string): (r: bool)
    ensures r <==> forall i | 0 <= i < |s| :: IsSpace(s[i])
  {
    if s == [] then true
    else
      assert forall i | 1 <= i < |s| :: s[1..][i - 1] == s[i];
      IsSpace(s[0]) && AllSpace(s[1..])
  }

  /** Rails' `present?` on a string column: not nil and not only whitespace. */
  predicate Present(o: Option<string>)
  {
    o.Some? && !AllSpace(o.value)
  }

  /** The presence validator's message for a blank field, or none. */
  function Blank(field: string, value: Option<string>): seq<string>
  {
    if Present(value) then [] else [field + " can't be blank"]
  }

  /** A value of the JSON objects the presenters build. */
  datatype Json = JNull | JInt(i: int) | JStr(s: string)

  function StrOrNull(o: Option<string>): Json
  {
    match o
    case None => JNull
    case Some(s) => JStr(s)
  }

  function IntOrNull(o: Option<int>): Json
  {
    match o
    case None => JNull
    case Some(n) => JInt(n)
  }
}
