/** What the handlers see of SQLite: the values a column can hold, how a
    Python value from a request body is bound to a statement parameter, and
    the HTTP replies the handlers return. */
module Sql {
  import opened Json

  /** A stored column value. REAL columns hold integers in this model. */
  datatype Cell = Null | Int(i: int) | Text(s: string)

  /** The owner every handler writes and filters by (`DEFAULT_USER_ID`). */
  const DefaultUser: string := "default-user"

  /** SQLite integers are 64-bit: binding a larger Python int raises. */
  const MinInt64: int := -0x8000_0000_0000_0000
  const MaxInt64: int := 0x7FFF_FFFF_FFFF_FFFF

  /** sqlite3's parameter binding: str to TEXT, int to INTEGER (bool as 1 or 0),
      None to NULL; a list or dict, or an int out of 64-bit range, is an error. */
  function Bind(v: Json): (r: Option<Cell>)
    ensures r.None? <==> (v.JArr? || v.JObj? || (v.JNum? && !(MinInt64 <= v.n <= MaxInt64)))
    ensures v.JStr? ==> r == Some(Text(v.s))
    ensures v.JNull? ==> r == Some(Null)
    ensures v.JBool? ==> r == Some(Int(if v.b then 1 else 0))
    ensures v.JNum? && MinInt64 <= v.n <= MaxInt64 ==> r == Some(Int(v.n))
  {
    match v
    case JNull => Some(Null)
    case JBool(b) => Some(Int(if b then 1 else 0))
    case JNum(n) => if MinInt64 <= n <= MaxInt64 then Some(Int(n)) else None
    case JStr(s) => Some(Text(s))
    case JArr(_) => None
    case JObj(_) => None
  }

  /** Binds every parameter of a statement, failing if any one fails. */
  function BindAll(vs: seq<Json>): (r: Option<seq<Cell>>)
    ensures r.Some? <==> forall i :: 0 <= i < |vs| ==> Bind(vs[i]).Some?
    ensures r.Some? ==> |r.value| == |vs| && forall i :: 0 <= i < |vs| ==> r.value[i] == Bind(vs[i]).value
  {
    if vs == [] then Some([])
    else
      match Bind(vs[0])
      case None => None
      case Some(c) =>
        match BindAll(vs[1..])
        case None => None
        case Some(cs) => Some([c] + cs)
  }

  /** `data.get(key)`: the payload value, or None when the key is absent. */
  function Get(data: map<string, Json>, key: string): Json {
    if key in data then data[key] else JNull
  }

  /** `data.get(key, default)`. */
  function GetOr(data: map<string, Json>, key: string, default: Json): Json {
    if key in data then data[key] else default
  }

  /** Python truthiness of a fetched column value. */
  predicate Truthy(c: Cell) {
    match c
    case Null => false
    case Int(i) => i != 0
    case Text(s) => s != ""
  }

  /** What a handler returns: a JSON body with status 200, or an error
      status with the handler's message. */
  datatype Reply<T> = Ok(body: T) | Error(status: nat, message: string)
}
