/** Converting avro-encoded query results into rows of datums
    (src/model/convert.rs). Parsing the schema text and decoding one avro
    datum are done by the avro library and appear as parameters. Errors
    carry the offending value instead of its debug text. */
module Convert {
  import opened Ints
  import opened Common
  import opened Avro
  import opened Rows
  import D = Datums

  datatype ConvertError =
    | ParseSchema(parseMsg: string)
    | InvalidSchema(schemaError: SchemaError)
    | Decode(decodeMsg: string)
    | NotRecord(record: AvroValue)
    | UnsupportedValue(value: AvroValue)

  datatype ConvertResult<+T> = Done(value: T) | Failed(error: ConvertError)

  /** `AvroSchema::parse_str`, with the library's error text. */
  type ParseSchemaText = string -> StrResult<AvroSchema>

  /** `avro_rs::from_avro_datum`: decode one value of the schema from raw
      bytes, with the library's error text. */
  type DecodeDatum = (AvroSchema, seq<u8>) -> StrResult<AvroValue>

  /** `value_to_datum`: scalar values map one to one (both signed and
      unsigned 64-bit server integers arrive as `Long`), unions are
      unwrapped, every other kind is unsupported. */
  function ValueToDatum(v: AvroValue): ConvertResult<D.Datum>
    decreases v
  {
    match v
    case Null => Done(D.Null)
    case TimestampMillis(t) => Done(D.Timestamp(t))
    case Double(bits) => Done(D.Double(bits))
    case Float(bits) => Done(D.Float(bits))
    case Bytes(bs) => Done(D.Varbinary(bs))
    case String(s) => Done(D.String(s))
    case Long(l) => Done(D.Int64(l))
    case Int(i) => Done(D.Int32(i))
    case Boolean(b) => Done(D.Boolean(b))
    case Union(inner) => ValueToDatum(inner)
    case _ => Failed(UnsupportedValue(v))
  }

  /** The avro value each datum comes from. */
  function DatumToValue(d: D.Datum): AvroValue {
    match d
    case Null => AvroValue.Null
    case Timestamp(t) => AvroValue.TimestampMillis(t)
    case Double(bits) => AvroValue.Double(bits)
    case Float(bits) => AvroValue.Float(bits)
    case Varbinary(bs) => AvroValue.Bytes(bs)
    case String(s) => AvroValue.String(s)
    case Int64(l) => AvroValue.Long(l)
    case Int32(i) => AvroValue.Int(i)
    case Boolean(b) => AvroValue.Boolean(b)
  }

  /** The value inside all union wrappers. */
  function Unwrapped(v: AvroValue): (u: AvroValue)
    ensures !u.Union?
    decreases v
  {
    if v.Union? then Unwrapped(v.inner) else v
  }

  /** Union wrappers do not change the datum; apart from them the mapping
      is one to one, and a value that is not one of the nine scalar kinds
      fails with itself as the unsupported value. */
  lemma {:induction false} ValueToDatumSpec(v: AvroValue, d: D.Datum)
    ensures ValueToDatum(v) == ValueToDatum(Unwrapped(v))
    ensures ValueToDatum(v) == Done(d) <==> Unwrapped(v) == DatumToValue(d)
    ensures ValueToDatum(v).Failed? ==> ValueToDatum(v).error == UnsupportedValue(Unwrapped(v))
    decreases v
  {
    if v.Union? {
      ValueToDatumSpec(v.inner, d);
    }
  }

  /** Both 64-bit integer kinds of the server travel as `Long` and come back
      as `Int64`. */
  lemma LongIsInt64(l: i64)
    ensures ValueToDatum(AvroValue.Long(l)) == Done(D.Int64(l))
    ensures ValueToDatum(AvroValue.Union(AvroValue.Long(l))) == Done(D.Int64(l))
  {
  }

  // ---------------------------------------------------------------------
  // One row.
  // ---------------------------------------------------------------------

  /** The datums of a record's columns, in order; the first column that does
      not convert fails them all. */
  function DatumsOf(columns: seq<(string, AvroValue)>): ConvertResult<seq<D.Datum>>
    decreases |columns|
  {
    if columns == [] then Done([])
    else
      var n := |columns| - 1;
      match DatumsOf(columns[..n])
      case Failed(e) => Failed(e)
      case Done(datums) =>
        match ValueToDatum(columns[n].1)
        case Failed(e) => Failed(e)
        case Done(d) => Done(datums + [d])
  }

  /** What `parse_one_row` produces for one raw row. */
  function OneRow(schema: AvroSchema, raw: seq<u8>, decode: DecodeDatum): ConvertResult<seq<D.Datum>> {
    match decode(schema, raw)
    case Failure(msg) => Failed(Decode(msg))
    case Success(Record(columns)) => DatumsOf(columns)
    case Success(v) => Failed(NotRecord(v))
  }

  /** One raw row parses iff it decodes to a record whose every column
      converts; it then holds one datum per column, in column order. A
      decoded value that is not a record, or a decoding failure, fails it. */
  lemma OneRowSpec(schema: AvroSchema, raw: seq<u8>, decode: DecodeDatum)
    ensures var v := decode(schema, raw);
      OneRow(schema, raw, decode).Done? <==>
        v.Success? && v.value.Record? && forall k :: 0 <= k < |v.value.columns| ==> ValueToDatum(v.value.columns[k].1).Done?
    ensures var v := decode(schema, raw);
      OneRow(schema, raw, decode).Done? ==>
        var datums := OneRow(schema, raw, decode).value;
        && |datums| == |v.value.columns|
        && forall k :: 0 <= k < |datums| ==> datums[k] == ValueToDatum(v.value.columns[k].1).value
    ensures decode(schema, raw).Failure? ==> OneRow(schema, raw, decode) == Failed(Decode(decode(schema, raw).msg))
    ensures decode(schema, raw).Success? && !decode(schema, raw).value.Record? ==>
      OneRow(schema, raw, decode) == Failed(NotRecord(decode(schema, raw).value))
  {
    var v := decode(schema, raw);
    if v.Success? && v.value.Record? {
      DatumsOfSpec(v.value.columns);
    }
  }

  /** `parse_one_row`: decode the raw bytes and push one datum per record
      column, in column order. */
  method ParseOneRow(schema: AvroSchema, raw: seq<u8>, decode: DecodeDatum) returns (r: ConvertResult<seq<D.Datum>>)
    ensures r == OneRow(schema, raw, decode)
  {
    var record := decode(schema, raw);
    if record.Failure? {
      return Failed(Decode(record.msg));
    }
    if !record.value.Record? {
      return Failed(NotRecord(record.value));
    }
    r := PushDatums(record.value.columns);
  }

  /** The loop of `parse_one_row`: convert the column values in order,
      stopping at the first that does not convert. */
  method PushDatums(columns: seq<(string, AvroValue)>) returns (r: ConvertResult<seq<D.Datum>>)
    ensures r == DatumsOf(columns)
  {
    var datums := [];
    for i := 0 to |columns|
      invariant DatumsOf(columns[..i]) == Done(datums)
    {
      assert columns[..i + 1][..i] == columns[..i];
      var datum := ValueToDatum(columns[i].1);
      if datum.Failed? {
        DatumsOfFailedSticks(columns, i + 1);
        return Failed(datum.error);
      }
      datums := datums + [datum.value];
    }
    assert columns[..|columns|] == columns;
    return Done(datums);
  }

  lemma {:induction false} DatumsOfFailedSticks(columns: seq<(string, AvroValue)>, c: nat)
    requires c <= |columns| && DatumsOf(columns[..c]).Failed?
    ensures DatumsOf(columns) == DatumsOf(columns[..c])
    decreases |columns| - c
  {
    if c < |columns| {
      assert columns[..c + 1][..c] == columns[..c];
      DatumsOfFailedSticks(columns, c + 1);
    } else {
      assert columns[..c] == columns;
    }
  }

  /** Column `k` is the first whose value does not convert. */
  ghost predicate FirstUnconvertible(columns: seq<(string, AvroValue)>, k: int) {
    && 0 <= k < |columns|
    && ValueToDatum(columns[k].1).Failed?
    && forall j :: 0 <= j < k ==> ValueToDatum(columns[j].1).Done?
  }

  lemma {:induction false} DatumsOfDone(columns: seq<(string, AvroValue)>)
    ensures DatumsOf(columns).Done? <==> forall k :: 0 <= k < |columns| ==> ValueToDatum(columns[k].1).Done?
    ensures DatumsOf(columns).Done? ==>
      var datums := DatumsOf(columns).value;
      && |datums| == |columns|
      && forall k :: 0 <= k < |columns| ==> datums[k] == ValueToDatum(columns[k].1).value
    decreases |columns|
  {
    if columns != [] {
      var n := |columns| - 1;
      var prefix := columns[..n];
      DatumsOfDone(prefix);
      assert forall k :: 0 <= k < n ==> prefix[k] == columns[k];
    }
  }

  lemma {:induction false} DatumsOfFirstFailed(columns: seq<(string, AvroValue)>) returns (k: nat)
    requires DatumsOf(columns).Failed?
    ensures FirstUnconvertible(columns, k) && DatumsOf(columns).error == ValueToDatum(columns[k].1).error
    decreases |columns|
  {
    var n := |columns| - 1;
    var prefix := columns[..n];
    if DatumsOf(prefix).Failed? {
      k := DatumsOfFirstFailed(prefix);
      assert forall j :: 0 <= j <= k ==> prefix[j] == columns[j];
    } else {
      DatumsOfDone(prefix);
      assert forall j :: 0 <= j < n ==> prefix[j] == columns[j];
      k := n;
    }
  }

  /** A record converts iff every column value does; it then has one datum
      per column, in order, and otherwise fails with the first bad
      column's error. */
  lemma DatumsOfSpec(columns: seq<(string, AvroValue)>)
    ensures DatumsOf(columns).Done? <==> forall k :: 0 <= k < |columns| ==> ValueToDatum(columns[k].1).Done?
    ensures DatumsOf(columns).Done? ==>
      var datums := DatumsOf(columns).value;
      && |datums| == |columns|
      && forall k :: 0 <= k < |columns| ==> datums[k] == ValueToDatum(columns[k].1).value
    ensures DatumsOf(columns).Failed? ==>
      exists k :: FirstUnconvertible(columns, k) && DatumsOf(columns).error == ValueToDatum(columns[k].1).error
  {
    DatumsOfDone(columns);
    if DatumsOf(columns).Failed? {
      var k := DatumsOfFirstFailed(columns);
    }
  }

  // ---------------------------------------------------------------------
  // All rows.
  // ---------------------------------------------------------------------

  /** The rows of the raw rows, in order; the first raw row that does not
      parse fails them all. */
  function RowsOf(schema: AvroSchema, raws: seq<seq<u8>>, decode: DecodeDatum): ConvertResult<seq<Row>>
    decreases |raws|
  {
    if raws == [] then Done([])
    else
      var n := |raws| - 1;
      match RowsOf(schema, raws[..n], decode)
      case Failed(e) => Failed(e)
      case Done(rows) =>
        match OneRow(schema, raws[n], decode)
        case Failed(e) => Failed(e)
        case Done(datums) => Done(rows + [Row(datums)])
  }

  /** What `parse_queried_rows` produces. */
  function QueriedRowsOf(rawSchema: string, raws: seq<seq<u8>>, parse: ParseSchemaText, decode: DecodeDatum)
    : ConvertResult<QueriedRows>
  {
    match parse(rawSchema)
    case Failure(msg) => Failed(ParseSchema(msg))
    case Success(avro) =>
      match SchemaOf(avro)
      case Invalid(e) => Failed(InvalidSchema(e))
      case Valid(schema) =>
        match RowsOf(avro, raws, decode)
        case Failed(e) => Failed(e)
        case Done(rows) => Done(QueriedRows(schema, rows))
  }

  /** `parse_queried_rows`: parse the schema, derive the row schema, then
      parse and push the raw rows in order. */
  method ParseQueriedRows(rawSchema: string, raws: seq<seq<u8>>, parse: ParseSchemaText, decode: DecodeDatum)
    returns (r: ConvertResult<QueriedRows>)
    ensures r == QueriedRowsOf(rawSchema, raws, parse, decode)
  {
    var parsed := parse(rawSchema);
    if parsed.Failure? {
      return Failed(ParseSchema(parsed.msg));
    }
    var avro := parsed.value;
    var schema := SchemaTryFrom(avro);
    if schema.Invalid? {
      return Failed(InvalidSchema(schema.error));
    }
    var queriedRows := QueriedRows(schema.value, []);
    for i := 0 to |raws|
      invariant queriedRows.schema == schema.value
      invariant RowsOf(avro, raws[..i], decode) == Done(queriedRows.rows)
    {
      assert raws[..i + 1][..i] == raws[..i];
      var row := ParseOneRow(avro, raws[i], decode);
      if row.Failed? {
        RowsOfFailedSticks(avro, raws, decode, i + 1);
        return Failed(row.error);
      }
      queriedRows := queriedRows.(rows := queriedRows.rows + [Row(row.value)]);
    }
    assert raws[..|raws|] == raws;
    return Done(queriedRows);
  }

  lemma {:induction false} RowsOfFailedSticks(schema: AvroSchema, raws: seq<seq<u8>>, decode: DecodeDatum, c: nat)
    requires c <= |raws| && RowsOf(schema, raws[..c], decode).Failed?
    ensures RowsOf(schema, raws, decode) == RowsOf(schema, raws[..c], decode)
    decreases |raws| - c
  {
    if c < |raws| {
      assert raws[..c + 1][..c] == raws[..c];
      RowsOfFailedSticks(schema, raws, decode, c + 1);
    } else {
      assert raws[..c] == raws;
    }
  }

  /** Raw row `k` is the first that does not parse. */
  ghost predicate FirstUnparsable(schema: AvroSchema, raws: seq<seq<u8>>, decode: DecodeDatum, k: int) {
    && 0 <= k < |raws|
    && OneRow(schema, raws[k], decode).Failed?
    && forall j :: 0 <= j < k ==> OneRow(schema, raws[j], decode).Done?
  }

  lemma {:induction false} RowsOfDone(schema: AvroSchema, raws: seq<seq<u8>>, decode: DecodeDatum)
    ensures RowsOf(schema, raws, decode).Done? <==> forall k :: 0 <= k < |raws| ==> OneRow(schema, raws[k], decode).Done?
    ensures RowsOf(schema, raws, decode).Done? ==>
      var rows := RowsOf(schema, raws, decode).value;
      && |rows| == |raws|
      && forall k :: 0 <= k < |raws| ==> rows[k] == Row(OneRow(schema, raws[k], decode).value)
    decreases |raws|
  {
    if raws != [] {
      var n := |raws| - 1;
      var prefix := raws[..n];
      RowsOfDone(schema, prefix, decode);
      assert forall k :: 0 <= k < n ==> prefix[k] == raws[k];
    }
  }

  lemma {:induction false} RowsOfFirstFailed(schema: AvroSchema, raws: seq<seq<u8>>, decode: DecodeDatum) returns (k: nat)
    requires RowsOf(schema, raws, decode).Failed?
    ensures FirstUnparsable(schema, raws, decode, k)
    ensures RowsOf(schema, raws, decode).error == OneRow(schema, raws[k], decode).error
    decreases |raws|
  {
    var n := |raws| - 1;
    var prefix := raws[..n];
    if RowsOf(schema, prefix, decode).Failed? {
      k := RowsOfFirstFailed(schema, prefix, decode);
      assert forall j :: 0 <= j <= k ==> prefix[j] == raws[j];
    } else {
      RowsOfDone(schema, prefix, decode);
      assert forall j :: 0 <= j < n ==> prefix[j] == raws[j];
      k := n;
    }
  }

  /** The raw rows parse iff each one does; there is then one row per raw
      row, in order, and otherwise the first bad raw row's error. */
  lemma RowsOfSpec(schema: AvroSchema, raws: seq<seq<u8>>, decode: DecodeDatum)
    ensures RowsOf(schema, raws, decode).Done? <==> forall k :: 0 <= k < |raws| ==> OneRow(schema, raws[k], decode).Done?
    ensures RowsOf(schema, raws, decode).Done? ==>
      var rows := RowsOf(schema, raws, decode).value;
      && |rows| == |raws|
      && forall k :: 0 <= k < |raws| ==> rows[k] == Row(OneRow(schema, raws[k], decode).value)
    ensures RowsOf(schema, raws, decode).Failed? ==>
      exists k :: FirstUnparsable(schema, raws, decode, k)
        && RowsOf(schema, raws, decode).error == OneRow(schema, raws[k], decode).error
  {
    RowsOfDone(schema, raws, decode);
    if RowsOf(schema, raws, decode).Failed? {
      var k := RowsOfFirstFailed(schema, raws, decode);
    }
  }

  /** `parse_queried_rows` succeeds iff the schema text parses, its row
      schema derives, and every raw row parses; it then returns that schema
      and exactly one row per raw row, in order, each holding the datums of
      its record's columns. */
  lemma QueriedRowsOfSpec(rawSchema: string, raws: seq<seq<u8>>, parse: ParseSchemaText, decode: DecodeDatum)
    ensures var r := QueriedRowsOf(rawSchema, raws, parse, decode);
      r.Done? <==>
        && parse(rawSchema).Success?
        && SchemaOf(parse(rawSchema).value).Valid?
        && forall k :: 0 <= k < |raws| ==> OneRow(parse(rawSchema).value, raws[k], decode).Done?
    ensures var r := QueriedRowsOf(rawSchema, raws, parse, decode);
      r.Done? ==>
        && r.value.schema == SchemaOf(parse(rawSchema).value).value
        && |r.value.rows| == |raws|
        && forall k :: 0 <= k < |raws| ==> r.value.rows[k].datums == OneRow(parse(rawSchema).value, raws[k], decode).value
    ensures parse(rawSchema).Failure? ==>
      QueriedRowsOf(rawSchema, raws, parse, decode) == Failed(ParseSchema(parse(rawSchema).msg))
    ensures parse(rawSchema).Success? && SchemaOf(parse(rawSchema).value).Invalid? ==>
      QueriedRowsOf(rawSchema, raws, parse, decode) == Failed(InvalidSchema(SchemaOf(parse(rawSchema).value).error))
    ensures var r := QueriedRowsOf(rawSchema, raws, parse, decode);
      parse(rawSchema).Success? && SchemaOf(parse(rawSchema).value).Valid? && r.Failed? ==>
        exists k :: FirstUnparsable(parse(rawSchema).value, raws, decode, k)
          && QueriedRowsOf(rawSchema, raws, parse, decode).error == OneRow(parse(rawSchema).value, raws[k], decode).error
  {
    if parse(rawSchema).Success? {
      RowsOfSpec(parse(rawSchema).value, raws, decode);
    }
  }
}
