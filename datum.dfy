/** The server's datum type (from the `common_types` crate): only the kinds
    the avro conversion can produce. `Double` and `Float` hold IEEE-754 bit
    patterns. */
module Datums {
  import opened Ints

  datatype Datum =
    | Null
    | Timestamp(millis: i64)
    | Double(f64bits: u64)
    | Float(f32bits: u32)
    | Varbinary(bytes: seq<u8>)
    | String(str: string)
    | Int64(i64v: i64)
    | Int32(i32v: i32)
    | Boolean(b: bool)
}
