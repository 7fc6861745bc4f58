/** Column types and schemas of queried rows, derived from the avro schema
    the server sends (src/model/row.rs). Errors carry the offending schema
    instead of its debug text. */
module Rows {
  import opened Common
  import opened Avro
  import Datums

  datatype ColumnDataType = Null | TimestampMillis | Double | Float | Bytes | String | Int64 | Int32 | Boolean

  datatype SchemaError =
    | UnionNotPair(union: AvroSchema)
    | UnionFirstNotNull(union: AvroSchema)
    | InvalidBasic(basic: AvroSchema)
    | UnsupportedSchema(schema: AvroSchema)

  datatype SchemaResult<+T> = Valid(value: T) | Invalid(error: SchemaError)

  /** `ColumnDataType::try_from`: scalar kinds map one to one, a union
      `[null, T]` maps to the type of `T`, every other schema fails. */
  function ColumnDataTypeOf(s: AvroSchema): SchemaResult<ColumnDataType>
    decreases s
  {
    match s
    case Null => Valid(ColumnDataType.Null)
    case Boolean => Valid(ColumnDataType.Boolean)
    case Int => Valid(Int32)
    case Long => Valid(Int64)
    case Float => Valid(ColumnDataType.Float)
    case Double => Valid(ColumnDataType.Double)
    case Bytes => Valid(ColumnDataType.Bytes)
    case String => Valid(ColumnDataType.String)
    case TimestampMillis => Valid(ColumnDataType.TimestampMillis)
    case Union(variants) =>
      if |variants| != 2 then Invalid(UnionNotPair(s))
      else if variants[0] == AvroSchema.Null then ColumnDataTypeOf(variants[1])
      else Invalid(UnionFirstNotNull(s))
    case _ => Invalid(InvalidBasic(s))
  }

  /** The avro schema each column type comes from. */
  function CanonicalSchema(t: ColumnDataType): AvroSchema {
    match t
    case Null => AvroSchema.Null
    case TimestampMillis => AvroSchema.TimestampMillis
    case Double => AvroSchema.Double
    case Float => AvroSchema.Float
    case Bytes => AvroSchema.Bytes
    case String => AvroSchema.String
    case Int64 => AvroSchema.Long
    case Int32 => AvroSchema.Int
    case Boolean => AvroSchema.Boolean
  }

  /** The schema left after stripping every `[null, T]` wrapper. */
  function Peeled(s: AvroSchema): AvroSchema
    decreases s
  {
    if s.Union? && |s.variants| == 2 && s.variants[0] == AvroSchema.Null then Peeled(s.variants[1]) else s
  }

  /** A schema that is not a union converts to `t` exactly when it is the
      canonical schema of `t`: the scalar mapping is one to one. */
  lemma ScalarOneToOne(s: AvroSchema, t: ColumnDataType)
    requires !s.Union?
    ensures ColumnDataTypeOf(s) == Valid(t) <==> s == CanonicalSchema(t)
  {
  }

  /** Nullable wrappers do not change the type: a schema converts like its
      peeled form, a nullable canonical schema converts to its type, and a
      union that is not `[null, T]` fails with the matching error. */
  lemma {:induction false} ColumnDataTypeOfPeeled(s: AvroSchema)
    ensures ColumnDataTypeOf(s) == ColumnDataTypeOf(Peeled(s))
    ensures var p := Peeled(s);
      && (p.Union? && |p.variants| != 2 ==> ColumnDataTypeOf(s) == Invalid(UnionNotPair(p)))
      && (p.Union? && |p.variants| == 2 ==> ColumnDataTypeOf(s) == Invalid(UnionFirstNotNull(p)))
    decreases s
  {
    if s.Union? && |s.variants| == 2 && s.variants[0] == AvroSchema.Null {
      ColumnDataTypeOfPeeled(s.variants[1]);
    }
  }

  lemma NullableCanonical(t: ColumnDataType)
    ensures ColumnDataTypeOf(AvroSchema.Union([AvroSchema.Null, CanonicalSchema(t)])) == Valid(t)
    ensures ColumnDataTypeOf(AvroSchema.Union([CanonicalSchema(t), AvroSchema.Null])) ==
      if t == ColumnDataType.Null then Valid(ColumnDataType.Null)
      else Invalid(UnionFirstNotNull(AvroSchema.Union([CanonicalSchema(t), AvroSchema.Null])))
  {
  }

  /** Complex and unsupported kinds are rejected as invalid basic schemas. */
  lemma ComplexKindsRejected(s: AvroSchema)
    requires s.Array? || s.Map? || s.Record? || s.Enum? || s.Fixed? || s.Decimal? || s.Uuid?
      || s.Date? || s.TimeMillis? || s.TimeMicros? || s.TimestampMicros? || s.Duration?
    ensures ColumnDataTypeOf(s) == Invalid(InvalidBasic(s))
  {
  }

  // ---------------------------------------------------------------------
  // The schema of queried rows.
  // ---------------------------------------------------------------------

  datatype ColumnSchema = ColumnSchema(dataType: ColumnDataType, name: string)

  datatype Schema = Schema(columnSchemas: seq<ColumnSchema>, lookup: map<string, nat>)
  {
    function NumCols(): nat {
      |columnSchemas|
    }

    function ColIdx(name: string): Option<nat> {
      if name in lookup then Some(lookup[name]) else None
    }
  }

  /** The column schemas of record fields, in order; the first field whose
      type cannot be converted fails them all. */
  function ColumnsOf(fields: seq<RecordField>): SchemaResult<seq<ColumnSchema>>
    decreases |fields|
  {
    if fields == [] then Valid([])
    else
      var n := |fields| - 1;
      match ColumnsOf(fields[..n])
      case Invalid(e) => Invalid(e)
      case Valid(columns) =>
        match ColumnDataTypeOf(fields[n].schema)
        case Invalid(e) => Invalid(e)
        case Valid(t) => Valid(columns + [ColumnSchema(t, fields[n].name)])
  }

  /** `Schema::try_from`, as a value. */
  function SchemaOf(avro: AvroSchema): SchemaResult<Schema> {
    if !avro.Record? then Invalid(UnsupportedSchema(avro))
    else match ColumnsOf(avro.fields)
      case Invalid(e) => Invalid(e)
      case Valid(columns) => Valid(Schema(columns, avro.lookup))
  }

  /** `Schema::try_from`: one column schema per record field, pushed in
      field order. */
  method SchemaTryFrom(avro: AvroSchema) returns (r: SchemaResult<Schema>)
    ensures r == SchemaOf(avro)
  {
    if !avro.Record? {
      return Invalid(UnsupportedSchema(avro));
    }
    var fields := avro.fields;
    var columnSchemas := [];
    for i := 0 to |fields|
      invariant ColumnsOf(fields[..i]) == Valid(columnSchemas)
    {
      assert fields[..i + 1][..i] == fields[..i];
      var field := fields[i];
      var dataType := ColumnDataTypeOf(field.schema);
      if dataType.Invalid? {
        ColumnsOfInvalidSticks(fields, i + 1);
        return Invalid(dataType.error);
      }
      columnSchemas := columnSchemas + [ColumnSchema(dataType.value, field.name)];
    }
    assert fields[..|fields|] == fields;
    return Valid(Schema(columnSchemas, avro.lookup));
  }

  /** Once a prefix of the fields fails, all of them fail with its error. */
  lemma {:induction false} ColumnsOfInvalidSticks(fields: seq<RecordField>, c: nat)
    requires c <= |fields| && ColumnsOf(fields[..c]).Invalid?
    ensures ColumnsOf(fields) == ColumnsOf(fields[..c])
    decreases |fields| - c
  {
    if c < |fields| {
      assert fields[..c + 1][..c] == fields[..c];
      ColumnsOfInvalidSticks(fields, c + 1);
    } else {
      assert fields[..c] == fields;
    }
  }

  /** Field `k` is the first whose type does not convert. */
  ghost predicate FirstInvalid(fields: seq<RecordField>, k: int) {
    && 0 <= k < |fields|
    && ColumnDataTypeOf(fields[k].schema).Invalid?
    && forall j :: 0 <= j < k ==> ColumnDataTypeOf(fields[j].schema).Valid?
  }

  lemma {:induction false} ColumnsOfValid(fields: seq<RecordField>)
    ensures ColumnsOf(fields).Valid? <==> forall k :: 0 <= k < |fields| ==> ColumnDataTypeOf(fields[k].schema).Valid?
    ensures ColumnsOf(fields).Valid? ==>
      var columns := ColumnsOf(fields).value;
      && |columns| == |fields|
      && forall k :: 0 <= k < |fields| ==>
           columns[k] == ColumnSchema(ColumnDataTypeOf(fields[k].schema).value, fields[k].name)
    decreases |fields|
  {
    if fields != [] {
      var n := |fields| - 1;
      var prefix := fields[..n];
      ColumnsOfValid(prefix);
      assert forall k :: 0 <= k < n ==> prefix[k] == fields[k];
    }
  }

  lemma {:induction false} ColumnsOfFirstInvalid(fields: seq<RecordField>) returns (k: nat)
    requires ColumnsOf(fields).Invalid?
    ensures FirstInvalid(fields, k) && ColumnsOf(fields).error == ColumnDataTypeOf(fields[k].schema).error
    decreases |fields|
  {
    var n := |fields| - 1;
    var prefix := fields[..n];
    if ColumnsOf(prefix).Invalid? {
      k := ColumnsOfFirstInvalid(prefix);
      assert forall j :: 0 <= j <= k ==> prefix[j] == fields[j];
    } else {
      ColumnsOfValid(prefix);
      assert forall j :: 0 <= j < n ==> prefix[j] == fields[j];
      k := n;
    }
  }

  /** The fields convert iff each field's type does; the columns then name
      and type the fields in order, and otherwise the first bad field's
      error is reported. */
  lemma ColumnsOfSpec(fields: seq<RecordField>)
    ensures ColumnsOf(fields).Valid? <==> forall k :: 0 <= k < |fields| ==> ColumnDataTypeOf(fields[k].schema).Valid?
    ensures ColumnsOf(fields).Valid? ==>
      var columns := ColumnsOf(fields).value;
      && |columns| == |fields|
      && forall k :: 0 <= k < |fields| ==>
           columns[k] == ColumnSchema(ColumnDataTypeOf(fields[k].schema).value, fields[k].name)
    ensures ColumnsOf(fields).Invalid? ==>
      exists k :: FirstInvalid(fields, k) && ColumnsOf(fields).error == ColumnDataTypeOf(fields[k].schema).error
  {
    ColumnsOfValid(fields);
    if ColumnsOf(fields).Invalid? {
      var k := ColumnsOfFirstInvalid(fields);
    }
  }

  /** `Schema::try_from` succeeds exactly on a record whose field types all
      convert; the schema then has one column per field, named and typed
      after it, `num_cols` is the field count and `col_idx` reads the
      record's lookup map. A failure names the first bad field's schema, or
      the whole schema when it is not a record. */
  lemma SchemaOfSpec(avro: AvroSchema)
    ensures !avro.Record? ==> SchemaOf(avro) == Invalid(UnsupportedSchema(avro))
    ensures SchemaOf(avro).Valid? <==>
      avro.Record? && forall k :: 0 <= k < |avro.fields| ==> ColumnDataTypeOf(avro.fields[k].schema).Valid?
    ensures SchemaOf(avro).Valid? ==>
      var schema := SchemaOf(avro).value;
      && schema.NumCols() == |avro.fields|
      && (forall k :: 0 <= k < |avro.fields| ==>
            schema.columnSchemas[k] == ColumnSchema(ColumnDataTypeOf(avro.fields[k].schema).value, avro.fields[k].name))
      && (forall name :: schema.ColIdx(name) == if name in avro.lookup then Some(avro.lookup[name]) else None)
    ensures avro.Record? && SchemaOf(avro).Invalid? ==>
      exists k :: FirstInvalid(avro.fields, k) && SchemaOf(avro).error == ColumnDataTypeOf(avro.fields[k].schema).error
  {
    if avro.Record? {
      ColumnsOfSpec(avro.fields);
    }
  }

  /** A queried row: one datum per column. */
  datatype Row = Row(datums: seq<Datums.Datum>)

  datatype QueriedRows = QueriedRows(schema: Schema, rows: seq<Row>)
}
