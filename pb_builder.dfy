/** Encoding a write request into protobuf table requests
    (src/model/write/request.rs, module `pb_builder`): points are grouped by
    table, then by series (tag set), then by timestamp; tag and field names
    are replaced by indexes into per-table name lists. */
module PbBuilder {
  import opened Ints
  import opened Common
  import opened Values
  import opened Ordering
  import opened Points
  import opened WriteRequest

  type Fields = map<string, WriteValue>
  type TagsKey = seq<u8>

  // ---------------------------------------------------------------------
  // The series key.
  // ---------------------------------------------------------------------

  /** The bytes of one tag: its name's, then its value's. */
  function TagBytes(name: string, v: WriteValue): seq<u8> {
    Utf8(name) + AsBytes(v)
  }

  /** The entries of an ordered map, by ascending name. */
  function Entries(m: Fields): (es: seq<(string, WriteValue)>)
    ensures |es| == |m|
    ensures forall i :: 0 <= i < |es| ==> es[i].0 in m && es[i].1 == m[es[i].0]
  {
    var names := SortedNames(m);
    seq(|names|, i requires 0 <= i < |names| => (names[i], m[names[i]]))
  }

  /** The bytes of the listed tags, one after the other. */
  function KeyOf(es: seq<(string, WriteValue)>): seq<u8>
    decreases |es|
  {
    if es == [] then [] else KeyOf(es[..|es| - 1]) + TagBytes(es[|es| - 1].0, es[|es| - 1].1)
  }

  /** The series key of a tag set. */
  function TagsKeyOf(tags: Fields): TagsKey {
    KeyOf(Entries(tags))
  }

  /** `make_tags_key`. */
  method MakeTagsKey(tags: Fields) returns (key: TagsKey)
    ensures key == TagsKeyOf(tags)
  {
    var es := Entries(tags);
    key := [];
    for i := 0 to |es|
      invariant key == KeyOf(es[..i])
    {
      var (name, val) := es[i];
      KeyOfSnoc(es, i);
      key := key + Utf8(name);
      key := key + AsBytes(val);
    }
    TakeAll(es);
  }

  lemma KeyOfSnoc(es: seq<(string, WriteValue)>, i: nat)
    requires i < |es|
    ensures KeyOf(es[..i + 1]) == KeyOf(es[..i]) + Utf8(es[i].0) + AsBytes(es[i].1)
  {
    assert es[..i + 1][..i] == es[..i];
  }

  lemma {:induction false} Utf8Concat(s: string, t: string)
    ensures Utf8(s + t) == Utf8(s) + Utf8(t)
    decreases |s|
  {
    if s != [] {
      assert (s + t)[0] == s[0] && (s + t)[1..] == s[1..] + t;
      Utf8Concat(s[1..], t);
      calc {
        Utf8(s + t);
        Utf8Char(s[0]) + Utf8(s[1..] + t);
        Utf8Char(s[0]) + (Utf8(s[1..]) + Utf8(t));
        (Utf8Char(s[0]) + Utf8(s[1..])) + Utf8(t);
      }
    } else {
      assert s + t == t;
    }
  }

  /** The key of a single tag is its name's bytes then its value's bytes. */
  lemma TagsKeyOfSingle(name: string, v: WriteValue)
    ensures TagsKeyOf(map[name := v]) == Utf8(name) + AsBytes(v)
  {
    var m: Fields := map[name := v];
    var es := Entries(m);
    assert |es| == 1 && es[0].0 in m;
    assert es == [(name, v)];
    assert es[..0] == [];
    assert KeyOf(es) == KeyOf([]) + TagBytes(name, v);
  }

  // ---------------------------------------------------------------------
  // Grouping the points of one table by series, as the source does.
  // ---------------------------------------------------------------------

  /** The tags of a series and its fields per timestamp. */
  datatype SeriesEntry = SeriesEntry(tags: Fields, tsFields: map<i64, Fields>)

  /** Add one point to the series map under `key`: the first point of a
      series supplies its tags, a later point with the same timestamp
      replaces the fields. */
  function AddToSeries<K>(series: map<K, SeriesEntry>, key: K, p: Point): map<K, SeriesEntry> {
    var entry := if key in series then series[key] else SeriesEntry(p.tags, map[]);
    series[key := entry.(tsFields := entry.tsFields[p.timestamp := p.fields])]
  }

  /** The series map after adding the points in order, each under the key
      `keyOf` gives its tags. */
  function GroupSeries<K>(points: seq<Point>, keyOf: Fields -> K): map<K, SeriesEntry>
    decreases |points|
  {
    if points == [] then map[]
    else
      var last := points[|points| - 1];
      AddToSeries(GroupSeries(points[..|points| - 1], keyOf), keyOf(last.tags), last)
  }

  /** The key of the corrected grouping: the tag set itself. */
  function SameTags(tags: Fields): Fields {
    tags
  }

  /** What a series with tag set `tags` should hold: for each timestamp, the
      fields of the last point with those tags and that timestamp. */
  function TsFieldsOf(points: seq<Point>, tags: Fields): map<i64, Fields>
    decreases |points|
  {
    if points == [] then map[]
    else
      var last := points[|points| - 1];
      var m := TsFieldsOf(points[..|points| - 1], tags);
      if last.tags == tags then m[last.timestamp := last.fields] else m
  }

  /** A series holds a timestamp iff some point with its tags has it. */
  lemma {:induction false} TsFieldsOfDomain(points: seq<Point>, tags: Fields, t: i64)
    ensures t in TsFieldsOf(points, tags) <==> exists p :: p in points && p.tags == tags && p.timestamp == t
    decreases |points|
  {
    if points != [] {
      var init := points[..|points| - 1];
      TsFieldsOfDomain(init, tags, t);
      assert points == init + [points[|points| - 1]];
    }
  }

  /** `keyOf` tells the tag sets of `points` apart. */
  ghost predicate SeparatesTags<K(!new)>(points: seq<Point>, keyOf: Fields -> K) {
    forall i, j :: 0 <= i < |points| && 0 <= j < |points| && keyOf(points[i].tags) == keyOf(points[j].tags) ==>
      points[i].tags == points[j].tags
  }

  /** When the key tells tag sets apart, grouping gives every tag set its
      own series, holding the last fields per timestamp, and no other
      series. */
  lemma {:induction false} GroupSeriesSeparated<K(!new)>(points: seq<Point>, keyOf: Fields -> K)
    requires SeparatesTags(points, keyOf)
    ensures forall p :: p in points ==>
      keyOf(p.tags) in GroupSeries(points, keyOf) &&
      GroupSeries(points, keyOf)[keyOf(p.tags)] == SeriesEntry(p.tags, TsFieldsOf(points, p.tags))
    ensures forall k :: k in GroupSeries(points, keyOf) ==> exists p :: p in points && keyOf(p.tags) == k
    decreases |points|
  {
    if points != [] {
      var n := |points| - 1;
      var init, q := points[..n], points[n];
      assert points == init + [q];
      assert SeparatesTags(init, keyOf);
      GroupSeriesSeparated(init, keyOf);
      GroupSeriesStep(init, q, keyOf);
    }
  }

  /** The step of `GroupSeriesSeparated`: adding one more point keeps
      every tag set's series exact ... */
  lemma GroupSeriesStep<K(!new)>(init: seq<Point>, q: Point, keyOf: Fields -> K)
    requires SeparatesTags(init + [q], keyOf)
    requires forall p :: p in init ==>
      keyOf(p.tags) in GroupSeries(init, keyOf) &&
      GroupSeries(init, keyOf)[keyOf(p.tags)] == SeriesEntry(p.tags, TsFieldsOf(init, p.tags))
    requires forall k :: k in GroupSeries(init, keyOf) ==> exists p :: p in init && keyOf(p.tags) == k
    ensures forall p :: p in init + [q] ==>
      keyOf(p.tags) in GroupSeries(init + [q], keyOf) &&
      GroupSeries(init + [q], keyOf)[keyOf(p.tags)] == SeriesEntry(p.tags, TsFieldsOf(init + [q], p.tags))
    ensures forall k :: k in GroupSeries(init + [q], keyOf) ==> exists p :: p in init + [q] && keyOf(p.tags) == k
  {
    var points := init + [q];
    assert points[..|init|] == init;
    var s := GroupSeries(init, keyOf);
    var key := keyOf(q.tags);
    assert GroupSeries(points, keyOf) == AddToSeries(s, key, q);
    GroupSeriesStepNew(init, q, keyOf);
    GroupSeriesStepOld(init, q, keyOf);
    forall k | k in GroupSeries(points, keyOf) ensures exists p :: p in points && keyOf(p.tags) == k {
      if k != key {
        var p :| p in init && keyOf(p.tags) == k;
        assert p in points;
      }
    }
  }

  /** ... the series of the added point's tag set ... */
  lemma GroupSeriesStepNew<K(!new)>(init: seq<Point>, q: Point, keyOf: Fields -> K)
    requires SeparatesTags(init + [q], keyOf)
    requires forall p :: p in init ==>
      keyOf(p.tags) in GroupSeries(init, keyOf) &&
      GroupSeries(init, keyOf)[keyOf(p.tags)] == SeriesEntry(p.tags, TsFieldsOf(init, p.tags))
    requires forall k :: k in GroupSeries(init, keyOf) ==> exists p :: p in init && keyOf(p.tags) == k
    ensures GroupSeries(init + [q], keyOf)[keyOf(q.tags)] == SeriesEntry(q.tags, TsFieldsOf(init + [q], q.tags))
  {
    var points := init + [q];
    assert points[..|init|] == init;
    var s := GroupSeries(init, keyOf);
    var key := keyOf(q.tags);
    assert GroupSeries(points, keyOf) == AddToSeries(s, key, q);
    if key !in s {
      forall p | p in init ensures p.tags != q.tags {
        assert keyOf(p.tags) in s;
      }
      TsFieldsOfAbsent(init, q.tags);
    } else {
      var p' :| p' in init && keyOf(p'.tags) == key;
      assert p' == points[IndexOf(init, p')] && q == points[|init|];
    }
    TsFieldsOfSnoc(init, q, q.tags);
  }

  /** ... and leaves the series of every other tag set as it was. */
  lemma GroupSeriesStepOld<K(!new)>(init: seq<Point>, q: Point, keyOf: Fields -> K)
    requires SeparatesTags(init + [q], keyOf)
    requires forall p :: p in init ==>
      keyOf(p.tags) in GroupSeries(init, keyOf) &&
      GroupSeries(init, keyOf)[keyOf(p.tags)] == SeriesEntry(p.tags, TsFieldsOf(init, p.tags))
    ensures forall p :: p in init && keyOf(p.tags) != keyOf(q.tags) ==>
      keyOf(p.tags) in GroupSeries(init + [q], keyOf) &&
      GroupSeries(init + [q], keyOf)[keyOf(p.tags)] == SeriesEntry(p.tags, TsFieldsOf(init + [q], p.tags))
  {
    var points := init + [q];
    assert points[..|init|] == init;
    var s := GroupSeries(init, keyOf);
    assert GroupSeries(points, keyOf) == AddToSeries(s, keyOf(q.tags), q);
    forall p | p in init && keyOf(p.tags) != keyOf(q.tags) ensures TsFieldsOf(points, p.tags) == TsFieldsOf(init, p.tags) {
      TsFieldsOfSnoc(init, q, p.tags);
    }
  }

  function IndexOf<T(==)>(s: seq<T>, x: T): (i: nat)
    requires x in s
    ensures i < |s| && s[i] == x
  {
    if s[0] == x then 0 else 1 + IndexOf(s[1..], x)
  }

  lemma TsFieldsOfSnoc(init: seq<Point>, q: Point, tags: Fields)
    ensures TsFieldsOf(init + [q], tags) ==
      if q.tags == tags then TsFieldsOf(init, tags)[q.timestamp := q.fields] else TsFieldsOf(init, tags)
  {
    assert (init + [q])[..|init|] == init;
  }

  lemma {:induction false} TsFieldsOfAbsent(points: seq<Point>, tags: Fields)
    requires forall p :: p in points ==> p.tags != tags
    ensures TsFieldsOf(points, tags) == map[]
    decreases |points|
  {
    if points != [] {
      TsFieldsOfAbsent(points[..|points| - 1], tags);
    }
  }

  /** The tag set itself tells tag sets apart. */
  lemma SameTagsSeparates(points: seq<Point>)
    ensures SeparatesTags(points, SameTags)
  {
  }

  /** The table builder: a table and its series in no particular order. */
  datatype TableRequestPbBuilder = TableRequestPbBuilder(table: string, seriesEntries: seq<SeriesEntry>)

  /** `TableRequestPbBuilder::new`: group the points by series, then collect
      the series in hash-map order (any order; the `ghost` keys record it).
      Every point must belong to the table. Series are keyed by their tag
      set, not by the bytes of `make_tags_key` (see `TagsKeyCollision`). */
  method NewTableRequestPbBuilder(table: string, points: seq<Point>)
      returns (b: TableRequestPbBuilder, ghost keys: seq<Fields>)
    requires forall k :: 0 <= k < |points| ==> points[k].table == table
    ensures b.table == table
    ensures var series := GroupSeries(points, SameTags);
      && Enumerates(keys, series.Keys)
      && |b.seriesEntries| == |keys|
      && forall i :: 0 <= i < |keys| ==> b.seriesEntries[i] == series[keys[i]]
  {
    var series: map<Fields, SeriesEntry> := map[];
    for i := 0 to |points|
      invariant series == GroupSeries(points[..i], SameTags)
    {
      TakeSnoc(points, i);
      assert points[..i + 1][..i] == points[..i];
      var point := points[i];
      var entry := if point.tags in series then series[point.tags] else SeriesEntry(point.tags, map[]);
      series := series[point.tags := entry.(tsFields := entry.tsFields[point.timestamp := point.fields])];
    }
    assert points[..|points|] == points;

    var order := HashOrder(series.Keys);
    var entries := seq(|order|, i requires 0 <= i < |order| => series[order[i]]);
    keys := order;
    b := TableRequestPbBuilder(table, entries);
  }

  // ---------------------------------------------------------------------
  // The name dictionary.
  // ---------------------------------------------------------------------

  /** `NameDict`: hands out the indexes 0, 1, 2, ... to names in order of
      first insertion. `names` is the inverse of `dict`. */
  class NameDict {
    var dict: map<string, nat>
    var nameIdx: nat
    ghost var names: seq<string>

    ghost predicate Valid()
      reads this
    {
      && |names| == nameIdx == |dict|
      && (forall i :: 0 <= i < |names| ==> names[i] in dict && dict[names[i]] == i)
      && (forall n :: n in dict ==> dict[n] < |names| && names[dict[n]] == n)
    }

    constructor ()
      ensures Valid() && dict == map[] && nameIdx == 0
    {
      dict := map[];
      nameIdx := 0;
      names := [];
    }

    /** `NameDict::insert`: a known name keeps its index; a new name gets the
        number of names seen so far. */
    method Insert(name: string) returns (idx: nat)
      requires Valid()
      modifies this
      ensures Valid()
      ensures name in dict && dict[name] == idx && Extends(dict, old(dict))
      ensures name in old(dict) ==> idx == old(dict)[name] && dict == old(dict) && names == old(names)
      ensures name !in old(dict) ==> idx == old(nameIdx) && dict == old(dict)[name := idx] && names == old(names) + [name]
    {
      if name in dict {
        idx := dict[name];
      } else {
        idx := nameIdx;
        dict := dict[name := idx];
        nameIdx := nameIdx + 1;
        names := names + [name];
      }
    }

    /** `NameDict::convert_ordered`: the names by index. */
    method ConvertOrdered() returns (ordered: seq<string>)
      requires Valid()
      ensures ordered == names
      ensures |ordered| == |dict| && forall n :: n in dict ==> ordered[dict[n]] == n
    {
      var slots := new string[|dict|](_ => "");
      var remaining := dict.Keys;
      while remaining != {}
        invariant remaining <= dict.Keys
        invariant forall n :: n in dict && n !in remaining ==> slots[dict[n]] == n
        decreases remaining
      {
        var name :| name in remaining;
        slots[dict[name]] := name;
        remaining := remaining - {name};
      }
      ordered := slots[..];
      assert forall i :: 0 <= i < |names| ==> ordered[i] == ordered[dict[names[i]]];
    }
  }

  /** `d2` keeps every index `d1` handed out. */
  ghost predicate Extends(d2: map<string, nat>, d1: map<string, nat>) {
    forall n :: n in d1 ==> n in d2 && d2[n] == d1[n]
  }

  // ---------------------------------------------------------------------
  // The protobuf messages and their decoding.
  // ---------------------------------------------------------------------

  /** A tag or a field of a series entry: an index into the table's tag
      names or field names, and the value. */
  datatype NamedValuePb = NamedValuePb(nameIndex: nat, value: ValuePb)
  datatype FieldGroupPb = FieldGroupPb(timestamp: i64, fields: seq<NamedValuePb>)
  datatype WriteSeriesEntryPb = WriteSeriesEntryPb(tags: seq<NamedValuePb>, fieldGroups: seq<FieldGroupPb>)
  datatype WriteTableRequestPb = WriteTableRequestPb(
    table: string,
    tagNames: seq<string>,
    fieldNames: seq<string>,
    entries: seq<WriteSeriesEntryPb>)

  /** The timestamps of a series in ascending order. */
  function Timestamps(tsFields: map<i64, Fields>): (ts: seq<i64>)
    ensures |ts| == |tsFields|
    ensures forall t :: t in ts <==> t in tsFields
    ensures forall i, j :: 0 <= i < j < |ts| ==> ts[i] < ts[j]
  {
    I64LtIsStrictTotalOrder();
    Sorted(tsFields.Keys, I64Lt)
  }

  predicate I64Lt(a: i64, b: i64) {
    a < b
  }

  lemma I64LtIsStrictTotalOrder()
    ensures IsStrictTotalOrder(I64Lt)
  {
  }

  /** Collect (name, value) pairs into a map, as the decoder in the test of
      request.rs does: a later pair with the same name wins, and a bad index
      or value makes decoding fail. */
  function DecodeNamed(names: seq<string>, pbs: seq<NamedValuePb>): Option<Fields>
    decreases |pbs|
  {
    if pbs == [] then Some(map[])
    else
      var last := pbs[|pbs| - 1];
      match DecodeNamed(names, pbs[..|pbs| - 1])
      case None => None
      case Some(m) =>
        if last.nameIndex < |names| && FromPb(last.value).Some?
        then Some(m[names[last.nameIndex] := FromPb(last.value).value])
        else None
  }

  /** One point per field group, all with the entry's tags. */
  function DecodeGroups(table: string, tags: Fields, fieldNames: seq<string>, groups: seq<FieldGroupPb>): Option<seq<Point>>
    decreases |groups|
  {
    if groups == [] then Some([])
    else
      match (DecodeNamed(fieldNames, groups[0].fields), DecodeGroups(table, tags, fieldNames, groups[1..]))
      case (Some(fields), Some(rest)) => Some([Point(table, groups[0].timestamp, tags, fields)] + rest)
      case _ => None
  }

  function DecodeEntries(pb: WriteTableRequestPb, entries: seq<WriteSeriesEntryPb>): Option<seq<Point>>
    decreases |entries|
  {
    if entries == [] then Some([])
    else
      match DecodeNamed(pb.tagNames, entries[0].tags)
      case None => None
      case Some(tags) =>
        match (DecodeGroups(pb.table, tags, pb.fieldNames, entries[0].fieldGroups), DecodeEntries(pb, entries[1..]))
        case (Some(ps), Some(rest)) => Some(ps + rest)
        case _ => None
  }

  /** The points a table request carries. */
  function Decode(pb: WriteTableRequestPb): Option<seq<Point>> {
    DecodeEntries(pb, pb.entries)
  }

  /** One point per listed timestamp, with the series' tags. */
  function PointsAt(table: string, tags: Fields, tsFields: map<i64, Fields>, ts: seq<i64>): (ps: seq<Point>)
    requires forall k :: 0 <= k < |ts| ==> ts[k] in tsFields
    ensures |ps| == |ts|
    decreases |ts|
  {
    if ts == [] then [] else [Point(table, ts[0], tags, tsFields[ts[0]])] + PointsAt(table, tags, tsFields, ts[1..])
  }

  /** The points of one series, by ascending timestamp. */
  function EntryPoints(table: string, e: SeriesEntry): seq<Point> {
    var ts := Timestamps(e.tsFields);
    assert forall k :: 0 <= k < |ts| ==> ts[k] in e.tsFields;
    PointsAt(table, e.tags, e.tsFields, ts)
  }

  /** The points of the series, series after series. */
  function Flatten(table: string, entries: seq<SeriesEntry>): seq<Point>
    decreases |entries|
  {
    if entries == [] then [] else EntryPoints(table, entries[0]) + Flatten(table, entries[1..])
  }

  // ---------------------------------------------------------------------
  // What the encoder guarantees, relative to the dictionaries.
  // ---------------------------------------------------------------------

  /** `pbs` lists the entries of `m` named in `names`, in that order, each
      with the index `dict` gives its name. */
  ghost predicate EncodesNames(pbs: seq<NamedValuePb>, names: seq<string>, m: Fields, dict: map<string, nat>) {
    && |pbs| == |names|
    && forall j :: 0 <= j < |pbs| ==>
         names[j] in m && names[j] in dict && pbs[j] == NamedValuePb(dict[names[j]], ToPb(m[names[j]]))
  }

  /** `pbs` lists the entries of `m` by ascending name. */
  ghost predicate NamedEncode(pbs: seq<NamedValuePb>, m: Fields, dict: map<string, nat>) {
    EncodesNames(pbs, SortedNames(m), m, dict)
  }

  lemma EncodesNamesSnoc(pbs: seq<NamedValuePb>, names: seq<string>, m: Fields,
                         d1: map<string, nat>, d2: map<string, nat>, name: string)
    requires EncodesNames(pbs, names, m, d1) && Extends(d2, d1)
    requires name in m && name in d2
    ensures EncodesNames(pbs + [NamedValuePb(d2[name], ToPb(m[name]))], names + [name], m, d2)
  {
  }

  /** `pbs` holds one field group per listed timestamp, in that order. */
  ghost predicate EncodesGroups(pbs: seq<FieldGroupPb>, ts: seq<i64>, tsFields: map<i64, Fields>, dict: map<string, nat>) {
    && |pbs| == |ts|
    && forall k :: 0 <= k < |pbs| ==>
         ts[k] in tsFields && pbs[k].timestamp == ts[k] && NamedEncode(pbs[k].fields, tsFields[ts[k]], dict)
  }

  /** `pbs` holds one field group per timestamp, ascending. */
  ghost predicate GroupsEncode(pbs: seq<FieldGroupPb>, tsFields: map<i64, Fields>, dict: map<string, nat>) {
    EncodesGroups(pbs, Timestamps(tsFields), tsFields, dict)
  }

  ghost predicate EntryEncodes(pb: WriteSeriesEntryPb, e: SeriesEntry, tagsDict: map<string, nat>, fieldsDict: map<string, nat>) {
    NamedEncode(pb.tags, e.tags, tagsDict) && GroupsEncode(pb.fieldGroups, e.tsFields, fieldsDict)
  }

  /** `pbs` encodes the series `entries`, one by one. */
  ghost predicate EncodesEntries(pbs: seq<WriteSeriesEntryPb>, entries: seq<SeriesEntry>,
                                 tagsDict: map<string, nat>, fieldsDict: map<string, nat>) {
    && |pbs| == |entries|
    && forall k :: 0 <= k < |pbs| ==> EntryEncodes(pbs[k], entries[k], tagsDict, fieldsDict)
  }

  /** `names` lists every name of `dict` at its index. */
  ghost predicate NamesOf(names: seq<string>, dict: map<string, nat>) {
    forall n :: n in dict ==> dict[n] < |names| && names[dict[n]] == n
  }

  lemma NamedEncodeExtends(pbs: seq<NamedValuePb>, m: Fields, d1: map<string, nat>, d2: map<string, nat>)
    requires NamedEncode(pbs, m, d1) && Extends(d2, d1)
    ensures NamedEncode(pbs, m, d2)
  {
  }

  lemma EncodesGroupsExtends(pbs: seq<FieldGroupPb>, ts: seq<i64>, tsFields: map<i64, Fields>,
                             d1: map<string, nat>, d2: map<string, nat>)
    requires EncodesGroups(pbs, ts, tsFields, d1) && Extends(d2, d1)
    ensures EncodesGroups(pbs, ts, tsFields, d2)
  {
    forall k | 0 <= k < |pbs| ensures NamedEncode(pbs[k].fields, tsFields[ts[k]], d2) {
      NamedEncodeExtends(pbs[k].fields, tsFields[ts[k]], d1, d2);
    }
  }

  lemma EncodesGroupsSnoc(pbs: seq<FieldGroupPb>, ts: seq<i64>, tsFields: map<i64, Fields>,
                          d1: map<string, nat>, d2: map<string, nat>, t: i64, fields: seq<NamedValuePb>)
    requires EncodesGroups(pbs, ts, tsFields, d1) && Extends(d2, d1)
    requires t in tsFields && NamedEncode(fields, tsFields[t], d2)
    ensures EncodesGroups(pbs + [FieldGroupPb(t, fields)], ts + [t], tsFields, d2)
  {
    EncodesGroupsExtends(pbs, ts, tsFields, d1, d2);
  }

  /** The entries of `m` whose names are listed in `ns`. */
  ghost function Restrict(m: Fields, ns: seq<string>): Fields {
    map k | k in ns && k in m :: m[k]
  }

  lemma TakeAll<T>(s: seq<T>)
    ensures s[..|s|] == s
  {
  }

  lemma TakeSnoc<T>(s: seq<T>, j: nat)
    requires j < |s|
    ensures s[..j + 1] == s[..j] + [s[j]]
  {
  }

  lemma EncodesEntriesSnoc(pbs: seq<WriteSeriesEntryPb>, entries: seq<SeriesEntry>,
                           td1: map<string, nat>, fd1: map<string, nat>,
                           td2: map<string, nat>, fd2: map<string, nat>,
                           pb: WriteSeriesEntryPb, e: SeriesEntry)
    requires EncodesEntries(pbs, entries, td1, fd1) && Extends(td2, td1) && Extends(fd2, fd1)
    requires EntryEncodes(pb, e, td2, fd2)
    ensures EncodesEntries(pbs + [pb], entries + [e], td2, fd2)
  {
    forall k | 0 <= k < |pbs| ensures EntryEncodes(pbs[k], entries[k], td2, fd2) {
      NamedEncodeExtends(pbs[k].tags, entries[k].tags, td1, td2);
      EncodesGroupsExtends(pbs[k].fieldGroups, Timestamps(entries[k].tsFields), entries[k].tsFields, fd1, fd2);
    }
  }

  /** Decoding an encoded list gives back the map restricted to the listed
      names. */
  lemma {:induction false} DecodeEncodesNames(names: seq<string>, pbs: seq<NamedValuePb>, ns: seq<string>,
                                              m: Fields, dict: map<string, nat>)
    requires EncodesNames(pbs, ns, m, dict) && NamesOf(names, dict)
    ensures DecodeNamed(names, pbs) == Some(Restrict(m, ns))
    decreases |pbs|
  {
    if pbs != [] {
      var j := |pbs| - 1;
      var n := ns[j];
      var init := ns[..j];
      assert EncodesNames(pbs[..j], init, m, dict);
      DecodeEncodesNames(names, pbs[..j], init, m, dict);
      FromPbToPb(m[n]);
      assert ns == init + [n];
      assert Restrict(m, ns) == Restrict(m, init)[n := m[n]];
    } else {
      assert Restrict(m, ns) == map[];
    }
  }

  lemma DecodeNamedEncoded(names: seq<string>, pbs: seq<NamedValuePb>, m: Fields, dict: map<string, nat>)
    requires NamedEncode(pbs, m, dict) && NamesOf(names, dict)
    ensures DecodeNamed(names, pbs) == Some(m)
  {
    var sorted := SortedNames(m);
    DecodeEncodesNames(names, pbs, sorted, m, dict);
    assert Restrict(m, sorted) == m;
  }

  lemma {:induction false} DecodeGroupsEncoded(table: string, tags: Fields, names: seq<string>,
                                               groups: seq<FieldGroupPb>, ts: seq<i64>,
                                               tsFields: map<i64, Fields>, dict: map<string, nat>)
    requires EncodesGroups(groups, ts, tsFields, dict) && NamesOf(names, dict)
    ensures forall k :: 0 <= k < |ts| ==> ts[k] in tsFields
    ensures DecodeGroups(table, tags, names, groups) == Some(PointsAt(table, tags, tsFields, ts))
    decreases |groups|
  {
    if groups != [] {
      assert EncodesGroups(groups[1..], ts[1..], tsFields, dict);
      DecodeGroupsEncoded(table, tags, names, groups[1..], ts[1..], tsFields, dict);
      DecodeNamedEncoded(names, groups[0].fields, tsFields[ts[0]], dict);
    }
  }

  lemma {:induction false} DecodeEntriesEncoded(pb: WriteTableRequestPb, pbs: seq<WriteSeriesEntryPb>,
                                                entries: seq<SeriesEntry>,
                                                tagsDict: map<string, nat>, fieldsDict: map<string, nat>)
    requires EncodesEntries(pbs, entries, tagsDict, fieldsDict)
    requires NamesOf(pb.tagNames, tagsDict) && NamesOf(pb.fieldNames, fieldsDict)
    ensures DecodeEntries(pb, pbs) == Some(Flatten(pb.table, entries))
    decreases |pbs|
  {
    if pbs != [] {
      assert EncodesEntries(pbs[1..], entries[1..], tagsDict, fieldsDict);
      DecodeEntriesEncoded(pb, pbs[1..], entries[1..], tagsDict, fieldsDict);
      var e := entries[0];
      assert EntryEncodes(pbs[0], e, tagsDict, fieldsDict);
      DecodeNamedEncoded(pb.tagNames, pbs[0].tags, e.tags, tagsDict);
      DecodeGroupsEncoded(pb.table, e.tags, pb.fieldNames, pbs[0].fieldGroups,
                          Timestamps(e.tsFields), e.tsFields, fieldsDict);
      assert DecodeGroups(pb.table, e.tags, pb.fieldNames, pbs[0].fieldGroups) == Some(EntryPoints(pb.table, e));
      assert Flatten(pb.table, entries) == EntryPoints(pb.table, e) + Flatten(pb.table, entries[1..]);
    }
  }

  // ---------------------------------------------------------------------
  // `TableRequestPbBuilder::build` and its helpers.
  // ---------------------------------------------------------------------

  /** `build_tags`, and the inner loop of `build_ts_fields`: the entries of
      an ordered map by ascending name, each name replaced by its index. */
  method BuildNamed(dict: NameDict, m: Fields) returns (pbs: seq<NamedValuePb>)
    requires dict.Valid()
    modifies dict
    ensures dict.Valid() && Extends(dict.dict, old(dict.dict))
    ensures NamedEncode(pbs, m, dict.dict)
  {
    var names := SortedNames(m);
    assert forall k :: 0 <= k < |names| ==> names[k] in m;
    pbs := [];
    for j := 0 to |names|
      invariant dict.Valid() && Extends(dict.dict, old(dict.dict))
      invariant EncodesNames(pbs, names[..j], m, dict.dict)
    {
      ghost var before := dict.dict;
      var idx := dict.Insert(names[j]);
      EncodesNamesSnoc(pbs, names[..j], m, before, dict.dict, names[j]);
      TakeSnoc(names, j);
      pbs := pbs + [NamedValuePb(idx, ToPb(m[names[j]]))];
    }
    assert names[..|names|] == names;
  }

  /** `build_ts_fields`: one field group per timestamp, ascending. */
  method BuildTsFields(fieldsDict: NameDict, tsFields: map<i64, Fields>) returns (groups: seq<FieldGroupPb>)
    requires fieldsDict.Valid()
    modifies fieldsDict
    ensures fieldsDict.Valid() && Extends(fieldsDict.dict, old(fieldsDict.dict))
    ensures GroupsEncode(groups, tsFields, fieldsDict.dict)
  {
    var ts := Timestamps(tsFields);
    assert forall k :: 0 <= k < |ts| ==> ts[k] in tsFields;
    groups := [];
    for k := 0 to |ts|
      invariant fieldsDict.Valid() && Extends(fieldsDict.dict, old(fieldsDict.dict))
      invariant EncodesGroups(groups, ts[..k], tsFields, fieldsDict.dict)
    {
      ghost var before := fieldsDict.dict;
      var fields := BuildNamed(fieldsDict, tsFields[ts[k]]);
      EncodesGroupsSnoc(groups, ts[..k], tsFields, before, fieldsDict.dict, ts[k], fields);
      TakeSnoc(ts, k);
      groups := groups + [FieldGroupPb(ts[k], fields)];
    }
    assert ts[..|ts|] == ts;
  }

  /** `build_series_entry`. */
  method BuildSeriesEntry(tagsDict: NameDict, fieldsDict: NameDict, entry: SeriesEntry) returns (pb: WriteSeriesEntryPb)
    requires tagsDict != fieldsDict && tagsDict.Valid() && fieldsDict.Valid()
    modifies tagsDict, fieldsDict
    ensures tagsDict.Valid() && Extends(tagsDict.dict, old(tagsDict.dict))
    ensures fieldsDict.Valid() && Extends(fieldsDict.dict, old(fieldsDict.dict))
    ensures EntryEncodes(pb, entry, tagsDict.dict, fieldsDict.dict)
  {
    var tags := BuildNamed(tagsDict, entry.tags);
    var fieldGroups := BuildTsFields(fieldsDict, entry.tsFields);
    pb := WriteSeriesEntryPb(tags, fieldGroups);
  }

  /** `TableRequestPbBuilder::build`: decoding the request gives back every
      point of every series, series by series, with its own tag and field
      names. */
  method Build(b: TableRequestPbBuilder) returns (pb: WriteTableRequestPb)
    ensures pb.table == b.table && |pb.entries| == |b.seriesEntries|
    ensures Decode(pb) == Some(Flatten(b.table, b.seriesEntries))
  {
    var tagsDict := new NameDict();
    var fieldsDict := new NameDict();
    var entries: seq<WriteSeriesEntryPb> := [];
    for i := 0 to |b.seriesEntries|
      invariant tagsDict.Valid() && fieldsDict.Valid()
      invariant EncodesEntries(entries, b.seriesEntries[..i], tagsDict.dict, fieldsDict.dict)
    {
      ghost var tagsBefore := tagsDict.dict;
      ghost var fieldsBefore := fieldsDict.dict;
      var entry := BuildSeriesEntry(tagsDict, fieldsDict, b.seriesEntries[i]);
      EncodesEntriesSnoc(entries, b.seriesEntries[..i], tagsBefore, fieldsBefore,
                         tagsDict.dict, fieldsDict.dict, entry, b.seriesEntries[i]);
      TakeSnoc(b.seriesEntries, i);
      entries := entries + [entry];
    }
    assert b.seriesEntries[..|b.seriesEntries|] == b.seriesEntries;
    var tagNames := tagsDict.ConvertOrdered();
    var fieldNames := fieldsDict.ConvertOrdered();
    pb := WriteTableRequestPb(b.table, tagNames, fieldNames, entries);
    DecodeEntriesEncoded(pb, entries, b.seriesEntries, tagsDict.dict, fieldsDict.dict);
  }

  // ---------------------------------------------------------------------
  // What reaches the server.
  // ---------------------------------------------------------------------

  lemma {:induction false} PointsAtOnly(table: string, tags: Fields, tsFields: map<i64, Fields>, ts: seq<i64>, x: Point)
    requires forall l :: 0 <= l < |ts| ==> ts[l] in tsFields
    requires x in PointsAt(table, tags, tsFields, ts)
    ensures x.table == table && x.tags == tags && x.timestamp in tsFields && x.fields == tsFields[x.timestamp]
    decreases |ts|
  {
    if x != Point(table, ts[0], tags, tsFields[ts[0]]) {
      PointsAtOnly(table, tags, tsFields, ts[1..], x);
    }
  }

  /** Each point of a series is the point of one of its timestamps. */
  lemma EntryPointsOnly(table: string, e: SeriesEntry, x: Point)
    requires x in EntryPoints(table, e)
    ensures x.table == table && x.tags == e.tags && x.timestamp in e.tsFields && x.fields == e.tsFields[x.timestamp]
  {
    var ts := Timestamps(e.tsFields);
    assert forall k :: 0 <= k < |ts| ==> ts[k] in e.tsFields;
    PointsAtOnly(table, e.tags, e.tsFields, ts, x);
  }

  lemma {:induction false} PointsAtAll(table: string, tags: Fields, tsFields: map<i64, Fields>, ts: seq<i64>, t: i64)
    requires forall l :: 0 <= l < |ts| ==> ts[l] in tsFields
    requires t in ts
    ensures Point(table, t, tags, tsFields[t]) in PointsAt(table, tags, tsFields, ts)
    decreases |ts|
  {
    if ts[0] != t {
      PointsAtAll(table, tags, tsFields, ts[1..], t);
    }
  }

  /** Each timestamp of a series yields its point. */
  lemma EntryPointsAll(table: string, e: SeriesEntry, t: i64)
    requires t in e.tsFields
    ensures Point(table, t, e.tags, e.tsFields[t]) in EntryPoints(table, e)
  {
    var ts := Timestamps(e.tsFields);
    assert forall k :: 0 <= k < |ts| ==> ts[k] in e.tsFields;
    PointsAtAll(table, e.tags, e.tsFields, ts, t);
  }

  /** A series yields exactly one point per timestamp. */
  lemma InEntryPoints(table: string, e: SeriesEntry, x: Point)
    ensures x in EntryPoints(table, e) <==>
      x.table == table && x.tags == e.tags && x.timestamp in e.tsFields && x.fields == e.tsFields[x.timestamp]
  {
    if x in EntryPoints(table, e) {
      EntryPointsOnly(table, e, x);
    }
    if x.table == table && x.tags == e.tags && x.timestamp in e.tsFields && x.fields == e.tsFields[x.timestamp] {
      EntryPointsAll(table, e, x.timestamp);
      assert x == Point(table, x.timestamp, e.tags, e.tsFields[x.timestamp]);
    }
  }

  /** The elements of `f(x)` for each `x` of `xs` in turn. */
  function ConcatMap<A, B>(f: A -> seq<B>, xs: seq<A>): seq<B>
    decreases |xs|
  {
    if xs == [] then [] else f(xs[0]) + ConcatMap(f, xs[1..])
  }

  lemma {:induction false} ConcatMapHas<A, B>(f: A -> seq<B>, xs: seq<A>, i: nat, y: B)
    requires i < |xs| && y in f(xs[i])
    ensures y in ConcatMap(f, xs)
    decreases i
  {
    if i > 0 {
      assert xs[1..][i - 1] == xs[i];
      ConcatMapHas(f, xs[1..], i - 1, y);
    }
  }

  lemma {:induction false} ConcatMapSource<A, B>(f: A -> seq<B>, xs: seq<A>, y: B) returns (i: nat)
    requires y in ConcatMap(f, xs)
    ensures i < |xs| && y in f(xs[i])
    decreases |xs|
  {
    if y in f(xs[0]) {
      i := 0;
    } else {
      var j := ConcatMapSource(f, xs[1..], y);
      i := j + 1;
    }
  }

  lemma {:induction false} FlattenIsConcatMap(table: string, entries: seq<SeriesEntry>)
    ensures Flatten(table, entries) == ConcatMap(e => EntryPoints(table, e), entries)
    decreases |entries|
  {
    if entries != [] {
      FlattenIsConcatMap(table, entries[1..]);
    }
  }

  /** A point of any series is flattened. */
  lemma FlattenHas(table: string, entries: seq<SeriesEntry>, i: nat, x: Point)
    requires i < |entries| && x in EntryPoints(table, entries[i])
    ensures x in Flatten(table, entries)
  {
    FlattenIsConcatMap(table, entries);
    ConcatMapHas(e => EntryPoints(table, e), entries, i, x);
  }

  /** A flattened point comes from some series, returned as `i`. */
  lemma FlattenSource(table: string, entries: seq<SeriesEntry>, x: Point) returns (i: nat)
    requires x in Flatten(table, entries)
    ensures i < |entries| && x in EntryPoints(table, entries[i])
  {
    FlattenIsConcatMap(table, entries);
    i := ConcatMapSource(e => EntryPoints(table, e), entries, x);
  }

  /** The point the server should hold for point `p` of a table's group:
      `p`'s table, tags and timestamp, and the fields of the last point of
      the group with the same tags and timestamp. */
  ghost function Written(table: string, group: seq<Point>, p: Point): Point
    requires p in group
  {
    TsFieldsOfDomain(group, p.tags, p.timestamp);
    Point(table, p.timestamp, p.tags, TsFieldsOf(group, p.tags)[p.timestamp])
  }

  /** `pts` holds the written form of every point of `group` exactly once
      and nothing else. */
  ghost predicate Delivers(table: string, group: seq<Point>, pts: seq<Point>) {
    && (forall p :: p in group ==> Written(table, group, p) in pts)
    && (forall x :: x in pts ==> exists p :: p in group && x == Written(table, group, p))
    && Distinct(pts)
  }

  /** The series of a group, listed in any order, deliver the group. */
  lemma FlattenDelivers(table: string, group: seq<Point>, entries: seq<SeriesEntry>, keys: seq<Fields>)
    requires Enumerates(keys, GroupSeries(group, SameTags).Keys)
    requires |entries| == |keys|
    requires forall i :: 0 <= i < |keys| ==> entries[i] == GroupSeries(group, SameTags)[keys[i]]
    ensures Delivers(table, group, Flatten(table, entries))
  {
    SameTagsSeparates(group);
    GroupSeriesSeparated(group, SameTags);
    forall p | p in group ensures Written(table, group, p) in Flatten(table, entries) {
      FlattenHasWritten(table, group, entries, keys, p);
    }
    forall x | x in Flatten(table, entries) ensures exists p :: p in group && x == Written(table, group, p) {
      FlattenOnlyWritten(table, group, entries, keys, x);
    }
    forall i, j | 0 <= i < j < |entries| ensures entries[i].tags != entries[j].tags {
      SeriesTagsAreKey(group, keys[i]);
      SeriesTagsAreKey(group, keys[j]);
    }
    FlattenDistinct(table, entries);
  }

  /** The series grouped under a tag set carries that tag set. */
  lemma SeriesTagsAreKey(group: seq<Point>, key: Fields)
    requires key in GroupSeries(group, SameTags)
    ensures GroupSeries(group, SameTags)[key].tags == key
  {
    SameTagsSeparates(group);
    GroupSeriesSeparated(group, SameTags);
    var p :| p in group && SameTags(p.tags) == key;
  }

  /** The `i`-th point of a series is the point of its `i`-th timestamp. */
  lemma {:induction false} PointsAtIndex(table: string, tags: Fields, tsFields: map<i64, Fields>, ts: seq<i64>, i: nat)
    requires forall l :: 0 <= l < |ts| ==> ts[l] in tsFields
    requires i < |ts|
    ensures PointsAt(table, tags, tsFields, ts)[i].timestamp == ts[i]
    decreases i
  {
    if i > 0 {
      PointsAtIndex(table, tags, tsFields, ts[1..], i - 1);
    }
  }

  /** A series yields each of its points once, its timestamps being
      distinct. */
  lemma EntryPointsDistinct(table: string, e: SeriesEntry)
    ensures Distinct(EntryPoints(table, e))
  {
    var ts := Timestamps(e.tsFields);
    assert forall k :: 0 <= k < |ts| ==> ts[k] in e.tsFields;
    var ps := EntryPoints(table, e);
    forall i, j | 0 <= i < j < |ps| ensures ps[i] != ps[j] {
      PointsAtIndex(table, e.tags, e.tsFields, ts, i);
      PointsAtIndex(table, e.tags, e.tsFields, ts, j);
    }
  }

  /** Series with pairwise different tag sets flatten to distinct points. */
  lemma FlattenDistinct(table: string, entries: seq<SeriesEntry>)
    requires forall i, j :: 0 <= i < j < |entries| ==> entries[i].tags != entries[j].tags
    ensures Distinct(Flatten(table, entries))
  {
    var f := e => EntryPoints(table, e);
    forall i | 0 <= i < |entries| ensures Distinct(f(entries[i])) {
      EntryPointsDistinct(table, entries[i]);
    }
    forall i, j, y | 0 <= i < j < |entries| && y in f(entries[i]) ensures y !in f(entries[j]) {
      InEntryPoints(table, entries[i], y);
      InEntryPoints(table, entries[j], y);
    }
    ConcatMapDistinct(f, entries);
    FlattenIsConcatMap(table, entries);
  }

  /** The pieces being duplicate-free and pairwise disjoint, so is their
      concatenation. */
  lemma {:induction false} ConcatMapDistinct<A, B>(f: A -> seq<B>, xs: seq<A>)
    requires forall i :: 0 <= i < |xs| ==> Distinct(f(xs[i]))
    requires forall i, j, y :: 0 <= i < j < |xs| && y in f(xs[i]) ==> y !in f(xs[j])
    ensures Distinct(ConcatMap(f, xs))
    decreases |xs|
  {
    if xs != [] {
      var rest := xs[1..];
      forall i | 0 <= i < |rest| ensures Distinct(f(rest[i])) {
        assert rest[i] == xs[i + 1];
      }
      forall i, j, y | 0 <= i < j < |rest| && y in f(rest[i]) ensures y !in f(rest[j]) {
        assert rest[i] == xs[i + 1] && rest[j] == xs[j + 1];
      }
      ConcatMapDistinct(f, rest);
      forall z | z in ConcatMap(f, rest) ensures z !in f(xs[0]) {
        var k := ConcatMapSource(f, rest, z);
        assert rest[k] == xs[k + 1];
      }
      DistinctConcat(f(xs[0]), ConcatMap(f, rest));
    }
  }

  /** Two duplicate-free sequences with no common element concatenate to a
      duplicate-free sequence. */
  lemma DistinctConcat<T>(a: seq<T>, b: seq<T>)
    requires Distinct(a) && Distinct(b)
    requires forall x :: x in a ==> x !in b
    ensures Distinct(a + b)
  {
    var s := a + b;
    forall i, j | 0 <= i < j < |s| ensures s[i] != s[j] {
      if j < |a| {
        assert s[i] == a[i] && s[j] == a[j];
      } else if i >= |a| {
        assert s[i] == b[i - |a|] && s[j] == b[j - |a|];
      } else {
        assert s[i] == a[i] && s[j] == b[j - |a|];
        assert a[i] in a && b[j - |a|] in b;
      }
    }
  }

  lemma FlattenHasWritten(table: string, group: seq<Point>, entries: seq<SeriesEntry>, keys: seq<Fields>, p: Point)
    requires Enumerates(keys, GroupSeries(group, SameTags).Keys)
    requires |entries| == |keys|
    requires forall i :: 0 <= i < |keys| ==> entries[i] == GroupSeries(group, SameTags)[keys[i]]
    requires forall p :: p in group ==>
      SameTags(p.tags) in GroupSeries(group, SameTags) &&
      GroupSeries(group, SameTags)[SameTags(p.tags)] == SeriesEntry(p.tags, TsFieldsOf(group, p.tags))
    requires p in group
    ensures Written(table, group, p) in Flatten(table, entries)
  {
    assert SameTags(p.tags) in GroupSeries(group, SameTags);
    var i :| 0 <= i < |keys| && keys[i] == p.tags;
    var w := Written(table, group, p);
    TsFieldsOfDomain(group, p.tags, p.timestamp);
    InEntryPoints(table, entries[i], w);
    FlattenHas(table, entries, i, w);
  }

  lemma FlattenOnlyWritten(table: string, group: seq<Point>, entries: seq<SeriesEntry>, keys: seq<Fields>, x: Point)
    requires Enumerates(keys, GroupSeries(group, SameTags).Keys)
    requires |entries| == |keys|
    requires forall i :: 0 <= i < |keys| ==> entries[i] == GroupSeries(group, SameTags)[keys[i]]
    requires forall p :: p in group ==>
      SameTags(p.tags) in GroupSeries(group, SameTags) &&
      GroupSeries(group, SameTags)[SameTags(p.tags)] == SeriesEntry(p.tags, TsFieldsOf(group, p.tags))
    requires forall k :: k in GroupSeries(group, SameTags) ==> exists p :: p in group && SameTags(p.tags) == k
    requires x in Flatten(table, entries)
    ensures exists p :: p in group && x == Written(table, group, p)
  {
    var i := FlattenSource(table, entries, x);
    InEntryPoints(table, entries[i], x);
    assert keys[i] in GroupSeries(group, SameTags);
    var p :| p in group && SameTags(p.tags) == keys[i];
    TsFieldsOfDomain(group, p.tags, x.timestamp);
    var p' :| p' in group && p'.tags == p.tags && p'.timestamp == x.timestamp;
    assert x == Written(table, group, p');
  }

  /** `WriteTableRequestPbsBuilder::build`: one table request per table of
      the request, in hash-map order (the `ghost` tables record it); each
      decodes to exactly the written form of its table's points. */
  method BuildWriteTableRequests(groups: map<string, seq<Point>>)
      returns (pbs: seq<WriteTableRequestPb>, ghost tables: seq<string>)
    requires WellGrouped(groups)
    ensures Enumerates(tables, groups.Keys) && |pbs| == |tables|
    ensures forall i :: 0 <= i < |tables| ==>
      pbs[i].table == tables[i] && Decode(pbs[i]).Some? && Delivers(tables[i], groups[tables[i]], Decode(pbs[i]).value)
  {
    var order := HashOrder(groups.Keys);
    pbs := [];
    for idx := 0 to |order|
      invariant |pbs| == idx
      invariant forall i :: 0 <= i < idx ==> TableDelivered(pbs[i], order[i], groups[order[i]])
    {
      var pb := BuildTable(order[idx], groups[order[idx]]);
      pbs := pbs + [pb];
    }
    tables := order;
  }

  /** `pb` is the request of `table` and decodes to the written form of
      `group`. */
  ghost predicate TableDelivered(pb: WriteTableRequestPb, table: string, group: seq<Point>) {
    pb.table == table && Decode(pb).Some? && Delivers(table, group, Decode(pb).value)
  }

  /** The body of the loop of `build`: one table's builder, built. */
  method BuildTable(table: string, points: seq<Point>) returns (pb: WriteTableRequestPb)
    requires forall k :: 0 <= k < |points| ==> points[k].table == table
    ensures TableDelivered(pb, table, points)
  {
    var builder, keys := NewTableRequestPbBuilder(table, points);
    pb := Build(builder);
    FlattenDelivers(table, points, builder.seriesEntries, keys);
  }

  // ---------------------------------------------------------------------
  // The series key as written.
  // ---------------------------------------------------------------------

  /** `make_tags_key` concatenates names and values with no separator, so
      the tag sets {"a": "bc"} and {"ab": "c"} get the same key. */
  lemma TagsKeyCollides()
    ensures TagsKeyOf(map["a" := String("bc")]) == TagsKeyOf(map["ab" := String("c")])
  {
    TagsKeyOfSingle("a", String("bc"));
    TagsKeyOfSingle("ab", String("c"));
    SameUtf8Bytes();
  }

  lemma SameUtf8Bytes()
    ensures Utf8("a") + AsBytes(String("bc")) == Utf8("ab") + AsBytes(String("c"))
  {
    calc {
      Utf8("a") + Utf8("bc");
      { Utf8Concat("a", "bc"); }
      Utf8("a" + "bc");
      { assert "a" + "bc" == "ab" + "c"; }
      Utf8("ab" + "c");
      { Utf8Concat("ab", "c"); }
      Utf8("ab") + Utf8("c");
    }
  }

  /** Grouping by that key puts a point with the second tag set in the
      series of a point with the first, so the second tag set is never
      written (grouping by the tag set keeps both: `PairKeepsBoth`). */
  lemma TagsKeyCollision(p1: Point, p2: Point)
    requires p1.tags == map["a" := String("bc")] && p2.tags == map["ab" := String("c")]
    ensures !SeparatesTags([p1, p2], TagsKeyOf)
    ensures |GroupSeries([p1, p2], TagsKeyOf)| == 1
    ensures forall k :: k in GroupSeries([p1, p2], TagsKeyOf) ==> GroupSeries([p1, p2], TagsKeyOf)[k].tags == p1.tags
  {
    assert "a" in p1.tags && "a" !in p2.tags;
    TagsKeyCollides();
    SharedKeyMerges(p1, p2, TagsKeyOf);
  }

  /** Grouping two points with different tag sets by the tag set gives the
      second its own series. */
  lemma PairKeepsBoth(p1: Point, p2: Point)
    requires p1.tags != p2.tags
    ensures p2.tags in GroupSeries([p1, p2], SameTags)
    ensures GroupSeries([p1, p2], SameTags)[p2.tags] == SeriesEntry(p2.tags, map[p2.timestamp := p2.fields])
  {
    GroupSeriesPair(p1, p2, SameTags);
  }

  /** Two points whose different tag sets share a key end up in one series,
      under the first point's tags. */
  lemma SharedKeyMerges<K(!new)>(p1: Point, p2: Point, keyOf: Fields -> K)
    requires keyOf(p1.tags) == keyOf(p2.tags) && p1.tags != p2.tags
    ensures !SeparatesTags([p1, p2], keyOf)
    ensures |GroupSeries([p1, p2], keyOf)| == 1
    ensures forall k :: k in GroupSeries([p1, p2], keyOf) ==> GroupSeries([p1, p2], keyOf)[k].tags == p1.tags
  {
    GroupSeriesPair(p1, p2, keyOf);
    var points := [p1, p2];
    assert keyOf(points[0].tags) == keyOf(points[1].tags) && points[0].tags != points[1].tags;
    assert GroupSeries(points, keyOf).Keys == {keyOf(p1.tags)};
  }

  lemma GroupSeriesPair<K>(p1: Point, p2: Point, keyOf: Fields -> K)
    ensures GroupSeries([p1, p2], keyOf) == AddToSeries(AddToSeries(map[], keyOf(p1.tags), p1), keyOf(p2.tags), p2)
  {
    assert [p1, p2][..1] == [p1] && [p1][..0] == [];
    assert GroupSeries([p1], keyOf) == AddToSeries(map[], keyOf(p1.tags), p1);
  }
}
