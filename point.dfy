/** A data point and its builder (src/model/write/point.rs). The builder
    steps take the builder by value and return the updated one, so they are
    functions over a record. Tag and field maps are ordered maps; their
    order is the one of `Ordering.SortedNames`. */
module Points {
  import opened Ints
  import opened Common
  import opened Values

  const TSID: string := "tsid"
  const TIMESTAMP: string := "timestamp"

  function AsciiLower(c: char): char {
    if 'A' <= c <= 'Z' then (c as int + 32) as char else c
  }

  /** Rust's `str::eq_ignore_ascii_case`. */
  predicate EqIgnoreAsciiCase(a: string, b: string) {
    |a| == |b| && forall i :: 0 <= i < |a| ==> AsciiLower(a[i]) == AsciiLower(b[i])
  }

  function AsciiLowercase(s: string): (r: string)
    ensures |r| == |s|
  {
    seq(|s|, i requires 0 <= i < |s| => AsciiLower(s[i]))
  }

  predicate IsReservedColumnName(name: string) {
    EqIgnoreAsciiCase(name, TSID) || EqIgnoreAsciiCase(name, TIMESTAMP)
  }

  /** A name is reserved iff its ASCII lower-case form is "tsid" or
      "timestamp". */
  lemma IsReservedIff(name: string)
    ensures IsReservedColumnName(name) <==>
      AsciiLowercase(name) == TSID || AsciiLowercase(name) == TIMESTAMP
  {
    var lower := AsciiLowercase(name);
    assert forall i :: 0 <= i < |TSID| ==> AsciiLower(TSID[i]) == TSID[i];
    assert forall i :: 0 <= i < |TIMESTAMP| ==> AsciiLower(TIMESTAMP[i]) == TIMESTAMP[i];
    if lower == TSID || lower == TIMESTAMP {
      assert forall i :: 0 <= i < |name| ==> lower[i] == AsciiLower(name[i]);
    }
  }

  lemma ReservedExamples()
    ensures IsReservedColumnName("TSID")
    ensures IsReservedColumnName("TimeStamp")
    ensures !IsReservedColumnName("tsid2")
    ensures !IsReservedColumnName("time")
  {
    assert AsciiLowercase("TSID") == TSID;
    assert AsciiLowercase("TimeStamp") == TIMESTAMP;
    IsReservedIff("TSID");
    IsReservedIff("TimeStamp");
    assert AsciiLower("time"[1]) != AsciiLower(TSID[1]);
  }

  datatype Point = Point(
    table: string,
    timestamp: i64,
    tags: map<string, WriteValue>,
    fields: map<string, WriteValue>)

  datatype PointBuilder = PointBuilder(
    table: string,
    timestamp: Option<i64>,
    tags: map<string, WriteValue>,
    fields: map<string, WriteValue>,
    containsReservedColumnName: bool)
  {
    static function New(table: string): PointBuilder {
      PointBuilder(table, None, map[], map[], false)
    }

    function Table(table: string): PointBuilder {
      this.(table := table)
    }

    function Timestamp(timestamp: i64): PointBuilder {
      this.(timestamp := Some(timestamp))
    }

    function Tag(name: string, value: WriteValue): PointBuilder {
      this.(tags := tags[name := value],
            containsReservedColumnName := containsReservedColumnName || IsReservedColumnName(name))
    }

    function Field(name: string, value: WriteValue): PointBuilder {
      this.(fields := fields[name := value],
            containsReservedColumnName := containsReservedColumnName || IsReservedColumnName(name))
    }

    /** The checks in order: reserved names, empty fields, missing timestamp. */
    function Build(): (r: StrResult<Point>)
      ensures r.Success? <==> !containsReservedColumnName && fields != map[] && timestamp.Some?
      ensures containsReservedColumnName ==> r == Failure("Tag or field name reserved column name in ceresdb")
      ensures !containsReservedColumnName && fields == map[] ==> r == Failure("Fields should not be empty")
      ensures !containsReservedColumnName && fields != map[] && timestamp.None? ==> r == Failure("Timestamp must be set")
      ensures r.Success? ==> r.value == Point(table, timestamp.value, tags, fields)
    {
      if containsReservedColumnName then Failure("Tag or field name reserved column name in ceresdb")
      else if fields == map[] then Failure("Fields should not be empty")
      else if timestamp.None? then Failure("Timestamp must be set")
      else Success(Point(table, timestamp.value, tags, fields))
    }
  }

  /** One builder call, for reasoning about whole call chains. */
  datatype Step =
    | SetTable(table: string)
    | SetTimestamp(ts: i64)
    | AddTag(name: string, value: WriteValue)
    | AddField(name: string, value: WriteValue)

  function Apply(b: PointBuilder, step: Step): PointBuilder {
    match step
    case SetTable(t) => b.Table(t)
    case SetTimestamp(ts) => b.Timestamp(ts)
    case AddTag(n, v) => b.Tag(n, v)
    case AddField(n, v) => b.Field(n, v)
  }

  function ApplyAll(b: PointBuilder, steps: seq<Step>): PointBuilder
    decreases |steps|
  {
    if steps == [] then b else ApplyAll(Apply(b, steps[0]), steps[1..])
  }

  predicate NamesReserved(step: Step) {
    (step.AddTag? || step.AddField?) && IsReservedColumnName(step.name)
  }

  /** The value a chain of calls leaves for a key: the last write wins. */
  function LastTag(steps: seq<Step>, name: string, default: Option<WriteValue>): Option<WriteValue>
    decreases |steps|
  {
    if steps == [] then default
    else LastTag(steps[1..], name, if steps[0].AddTag? && steps[0].name == name then Some(steps[0].value) else default)
  }

  function LastField(steps: seq<Step>, name: string, default: Option<WriteValue>): Option<WriteValue>
    decreases |steps|
  {
    if steps == [] then default
    else LastField(steps[1..], name, if steps[0].AddField? && steps[0].name == name then Some(steps[0].value) else default)
  }

  function LastTimestamp(steps: seq<Step>, default: Option<i64>): Option<i64>
    decreases |steps|
  {
    if steps == [] then default
    else LastTimestamp(steps[1..], if steps[0].SetTimestamp? then Some(steps[0].ts) else default)
  }

  function LastTable(steps: seq<Step>, default: string): string
    decreases |steps|
  {
    if steps == [] then default
    else LastTable(steps[1..], if steps[0].SetTable? then steps[0].table else default)
  }

  function Lookup(m: map<string, WriteValue>, name: string): Option<WriteValue> {
    if name in m then Some(m[name]) else None
  }

  /** The reserved-name flag is sticky: once set no call clears it, and it
      is set iff some call named a reserved column. */
  lemma {:induction false} ReservedFlagSticky(b: PointBuilder, steps: seq<Step>)
    ensures ApplyAll(b, steps).containsReservedColumnName <==>
      b.containsReservedColumnName || exists k :: 0 <= k < |steps| && NamesReserved(steps[k])
    decreases |steps|
  {
    if steps != [] {
      ReservedFlagSticky(Apply(b, steps[0]), steps[1..]);
      assert forall k :: 0 < k < |steps| ==> steps[k] == steps[1..][k - 1];
    }
  }

  /** A chain of calls leaves, for every name, the last tag value, the last
      field value, the last timestamp and the last table set. */
  lemma {:induction false} ApplyAllLastWriteWins(b: PointBuilder, steps: seq<Step>, name: string)
    ensures Lookup(ApplyAll(b, steps).tags, name) == LastTag(steps, name, Lookup(b.tags, name))
    ensures Lookup(ApplyAll(b, steps).fields, name) == LastField(steps, name, Lookup(b.fields, name))
    ensures ApplyAll(b, steps).timestamp == LastTimestamp(steps, b.timestamp)
    ensures ApplyAll(b, steps).table == LastTable(steps, b.table)
    decreases |steps|
  {
    if steps != [] {
      ApplyAllLastWriteWins(Apply(b, steps[0]), steps[1..], name);
    }
  }

  /** Building after a chain of calls from `new` succeeds iff no call named a
      reserved column, some field was set and some timestamp was set. */
  lemma BuildAfterSteps(table: string, steps: seq<Step>)
    ensures var b := ApplyAll(PointBuilder.New(table), steps);
      b.Build().Success? <==>
        && (forall k :: 0 <= k < |steps| ==> !NamesReserved(steps[k]))
        && (exists k :: 0 <= k < |steps| && steps[k].AddField?)
        && (exists k :: 0 <= k < |steps| && steps[k].SetTimestamp?)
  {
    var b0 := PointBuilder.New(table);
    ReservedFlagSticky(b0, steps);
    FieldsNonEmptyIff(b0, steps);
    TimestampSetIff(b0, steps);
  }

  lemma {:induction false} FieldsNonEmptyIff(b: PointBuilder, steps: seq<Step>)
    ensures ApplyAll(b, steps).fields != map[] <==>
      b.fields != map[] || exists k :: 0 <= k < |steps| && steps[k].AddField?
    decreases |steps|
  {
    if steps != [] {
      var b' := Apply(b, steps[0]);
      FieldsNonEmptyIff(b', steps[1..]);
      assert forall k :: 0 < k < |steps| ==> steps[k] == steps[1..][k - 1];
      if steps[0].AddField? {
        assert steps[0].name in b'.fields;
      }
    }
  }

  lemma {:induction false} TimestampSetIff(b: PointBuilder, steps: seq<Step>)
    ensures ApplyAll(b, steps).timestamp.Some? <==>
      b.timestamp.Some? || exists k :: 0 <= k < |steps| && steps[k].SetTimestamp?
    decreases |steps|
  {
    if steps != [] {
      TimestampSetIff(Apply(b, steps[0]), steps[1..]);
      assert forall k :: 0 < k < |steps| ==> steps[k] == steps[1..][k - 1];
    }
  }

  /** A reserved name fails the build even when fields and timestamp are
      missing too: its check comes first. */
  lemma ReservedCheckedFirst(table: string, name: string, v: WriteValue)
    requires IsReservedColumnName(name)
    ensures PointBuilder.New(table).Tag(name, v).Build() == Failure("Tag or field name reserved column name in ceresdb")
  {
  }
}
