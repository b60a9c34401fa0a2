/** The JSON value tree (JSONValue) and its integer accessors. */
module JsonValue {
  import opened Bytes

  type Int64 = x: int | -0x8000_0000_0000_0000 <= x < 0x8000_0000_0000_0000
  type UInt64 = x: int | 0 <= x < 0x1_0000_0000_0000_0000

  const INT64_MAX: int := 0x7FFF_FFFF_FFFF_FFFF

  /** A double is carried as the text it is written with: its conversion is library code. */
  datatype Value =
    | Null
    | Bool(b: bool)
    | Signed(i: Int64)
    | Unsigned(u: UInt64)
    | Double(lexeme: bytes)
    | String(text: bytes)
    | Array(items: seq<Value>)
    | Object(fields: seq<Field>)

  datatype Field = Field(key: bytes, value: Value)

  function AsInt64(v: Value): Option<Int64> {
    match v
    case Signed(i) => Some(i)
    case Unsigned(u) => if u <= INT64_MAX then Some(u) else None
    case _ => None
  }

  function AsUInt64(v: Value): Option<UInt64> {
    match v
    case Unsigned(u) => Some(u)
    case Signed(i) => if i >= 0 then Some(i) else None
    case _ => None
  }
}
