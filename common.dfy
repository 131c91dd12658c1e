/** Shared vocabulary of the model: optional values, the outcome of a service
    call, the error kinds the services raise, and the JSON values that cross
    the HTTP boundary. */
module Common {

  /** Primary keys (uuid columns) and timestamps. The clock is abstract: a
      timestamp is only compared and rendered. */
  type Id = string
  type Timestamp = int

  datatype Option<+T> = None | Some(value: T) {
    function GetOr(default: T): T {
      match this
      case Some(v) => v
      case None => default
    }
  }

  /** A property of a request body after validation: missing, explicitly
      `null`, or given. `@IsOptional()` admits both of the first two, and
      `Object.assign` copies an explicit null onto the entity. */
  datatype Field<+T> = Absent | Null | Given(value: T) {
    /** The value an optional property contributes to a nullable column. */
    function ToOption(): Option<T> {
      match this
      case Given(v) => Some(v)
      case _ => None
    }
  }

  /** Object.assign of a nullable column: an absent property keeps the old
      value, null clears it, a given value replaces it. */
  function Merge<T>(prev: Option<T>, f: Field<T>): (r: Option<T>)
    ensures f.Absent? ==> r == prev
    ensures f.Null? ==> r == None
    ensures f.Given? ==> r == Some(f.value)
  {
    match f
    case Absent => prev
    case Null => None
    case Given(v) => Some(v)
  }

  /** Object.assign of a NOT NULL column whose property is not null. */
  function MergeRequired<T>(prev: T, f: Field<T>): (r: T)
    requires !f.Null?
    ensures f.Absent? ==> r == prev
    ensures f.Given? ==> r == f.value
  {
    if f.Given? then f.value else prev
  }

  /** Errors raised by the services (HTTP exceptions, plain `Error`s and the
      database's constraint violations). */
  datatype Error =
    | NotFound(message: string)          // NotFoundException (404)
    | Conflict(message: string)          // ConflictException (409)
    | Unauthorized(message: string)      // UnauthorizedException (401)
    | Failure(message: string)           // plain `new Error(...)` (500)
    | BadRequest(properties: set<string>) // ValidationPipe (400): offending properties
    | UniqueViolation(column: string)    // unique index rejected the write
    | NotNullViolation(column: string)   // NOT NULL column received null
    | InvalidEnum(column: string)        // enum column received a non-member
    | InvalidWindow                      // negative OFFSET or LIMIT

  datatype Result<+T> = Ok(value: T) | Err(error: Error)

  /** JSON values as they arrive in a request body or a response. */
  datatype Json =
    | JNull
    | JBool(b: bool)
    | JNum(n: int)
    | JStr(s: string)
    | JArr(items: seq<Json>)
    | JObj(fields: map<string, Json>)

  /** JavaScript truthiness of a JSON value (used by `x || default`). */
  predicate Truthy(v: Json) {
    match v
    case JNull => false
    case JBool(b) => b
    case JNum(n) => n != 0
    case JStr(s) => s != ""
    case _ => true
  }

  /** `x || fallback` for a string that may be missing: a missing or empty
      string gives way to the fallback. */
  function OrDefault(x: Option<string>, fallback: string): (r: string)
    ensures x.Some? && x.value != "" ==> r == x.value
    ensures x.None? || x.value == "" ==> r == fallback
  {
    if x.Some? && x.value != "" then x.value else fallback
  }
}
