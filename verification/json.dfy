/** The JSON values the asset-catalog descriptors and frame maps are made of, and the
    outcome of reading one such file from disk. */
module Json {
  import opened Wrappers

  /** A decoded JSON document. Numbers are integers only: the descriptors and frame
      maps this model reads carry integral numbers. */
  datatype Json =
    | JNull
    | JBool(b: bool)
    | JInt(i: int)
    | JString(s: string)
    | JArray(items: seq<Json>)
    | JObject(fields: map<string, Json>)

  /** What reading and decoding a file produced: no file, bytes that are not JSON,
      or a decoded value. */
  datatype Read = Absent | Malformed | Parsed(value: Json)

  /** The read outcome for `path` in a file table; a path that is not in the table
      does not exist. */
  function ReadFile(files: map<string, Read>, path: string): Read
  {
    if path in files then files[path] else Absent
  }

  /** `j[key]` when `j` is an object holding `key`. */
  function Field(j: Json, key: string): Option<Json>
  {
    if j.JObject? && key in j.fields then Some(j.fields[key]) else None
  }

  /** `j[key]` looked up through an optional value. */
  function FieldOf(j: Option<Json>, key: string): Option<Json>
  {
    if j.Some? then Field(j.value, key) else None
  }

  /** Swift's `as? Int` on a decoded JSON value. Foundation decodes numbers and
      booleans alike to `NSNumber`, and both bridge to `Int` (a boolean as 1 or 0). */
  function AsInt(j: Option<Json>): Option<int>
  {
    if j.None? then None
    else match j.value
      case JInt(i) => Some(i)
      case JBool(b) => Some(if b then 1 else 0)
      case _ => None
  }

  /** Swift's `as? [String: AnyObject]`. */
  function AsObject(j: Option<Json>): Option<map<string, Json>>
  {
    if j.Some? && j.value.JObject? then Some(j.value.fields) else None
  }

  /** Swift's `as? String`. */
  function AsString(j: Option<Json>): Option<string>
  {
    if j.Some? && j.value.JString? then Some(j.value.s) else None
  }
}
