/** Values shared by every part of the travel-sample back end: optional values,
    JSON documents as the database and the HTTP layer see them, the response
    envelope and the four domain errors. */
module Common {

  datatype Option<+T> = None | Some(value: T)

  /** A JSON value as stored in a document or returned in a query row.
      Numbers are integers only; floating point is not part of this model. */
  datatype Json =
    | JNull
    | JBool(b: bool)
    | JNum(n: int)
    | JStr(s: string)
    | JArr(items: seq<Json>)
    | JObj(fields: map<string, Json>)

  /** A query row or a fetched document: a JSON object. */
  type Row = map<string, Json>

  /** Ruby's `row['key']`: the value under `key`, or nil when the key is absent. */
  function Get(row: Row, key: string): (v: Json)
    ensures key in row ==> v == row[key]
    ensures key !in row ==> v == JNull
  {
    if key in row then row[key] else JNull
  }

  /** The `{ 'context' => [...], 'data' => ... }` envelope every operation returns. */
  datatype Envelope<+T> = Envelope(context: seq<string>, data: T)

  /** The four domain errors raised by the store. */
  datatype StoreError = PasswordMismatch | UserAlreadyExists | InvalidUserToken | UserNotFound

  /** The default message each error carries. */
  function Message(e: StoreError): string
  {
    match e
    case PasswordMismatch => "Password does not match"
    case UserAlreadyExists => "User already exists"
    case InvalidUserToken => "Username does not match token username"
    case UserNotFound => "User does not exist"
  }
}
