/** The shapes of avro schemas and values the client receives from the
    avro library. Only their structure matters here; parsing and decoding
    them is left to the library and appears as parameters where used. */
module Avro {
  import opened Ints

  /** An avro schema. A record keeps its fields in order and a lookup map
      from field name to position. */
  datatype AvroSchema =
    | Null
    | Boolean
    | Int
    | Long
    | Float
    | Double
    | Bytes
    | String
    | Array(items: AvroSchema)
    | Map(values: AvroSchema)
    | Union(variants: seq<AvroSchema>)
    | Record(name: string, fields: seq<RecordField>, lookup: map<string, nat>)
    | Enum(enumName: string, symbols: seq<string>)
    | Fixed(fixedName: string, size: nat)
    | Decimal(precision: nat, scale: nat)
    | Uuid
    | Date
    | TimeMillis
    | TimeMicros
    | TimestampMillis
    | TimestampMicros
    | Duration

  datatype RecordField = RecordField(name: string, schema: AvroSchema)

  /** An avro value. `Float` and `Double` hold their IEEE-754 bit patterns;
      a record is its (name, value) pairs in field order. */
  datatype AvroValue =
    | Null
    | Boolean(b: bool)
    | Int(i: i32)
    | Long(l: i64)
    | Float(f32bits: u32)
    | Double(f64bits: u64)
    | Bytes(bytes: seq<u8>)
    | String(str: string)
    | Fixed(size: nat, fixed: seq<u8>)
    | Enum(index: nat, symbol: string)
    | Union(inner: AvroValue)
    | Array(elements: seq<AvroValue>)
    | Map(entries: seq<(string, AvroValue)>)
    | Record(columns: seq<(string, AvroValue)>)
    | Date(days: i32)
    | Decimal(unscaled: seq<u8>)
    | TimeMillis(timeMillis: i32)
    | TimeMicros(timeMicros: i64)
    | TimestampMillis(tsMillis: i64)
    | TimestampMicros(tsMicros: i64)
    | Duration(duration: seq<u8>)
    | Uuid(uuid: seq<u8>)
}
