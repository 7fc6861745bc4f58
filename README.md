# HoraeDB Rust client: routing layer and data models

This project models the client-side core of the HoraeDB (formerly CeresDB)
Rust client:

- the **router** and its route cache;
- the two **database clients**: route-based, and the older cluster client.
  Each one routes a query to the endpoint of its first table. Each one
  splits a write by endpoint and sends one sub-request per endpoint. Each
  one evicts the cached routes of tables whose write failed with a server
  error that `should_refresh` accepts (code 400, "Table" and "not found");
- the **status classification** (`is_ok`, `should_refresh`);
- the **endpoint** parser and printer;
- the **write model**:
  - the point builder and its checks;
  - the grouping of a request's points by table;
  - the little-endian byte encoding of values;
  - the encoding of a table's points into a protobuf write request, using
    name dictionaries;
- the **query-result model**:
  - filling rows from an arrow record batch, column by column;
  - mapping the protobuf response to a `Response`;
  - deriving a row schema from an avro schema;
  - converting avro values into datums.

Some operations change state in place in the client. These are Dafny
classes, and their methods state the new state:

- the router's cache (`Router.RouterImpl`);
- the client pools (`ClientPools.ClientPool`);
- the write request's point groups (`WriteRequest.Request`);
- the name dictionary (`PbBuilder.NameDict`);
- the row grid filled column by column (an `array`, in `SqlRow.FillColumnInRowBatch`).

Each such method is proved against a specification function, and the
properties the client promises are lemmas about that function. The pure
parts are functions with lemmas: the endpoint parser, the point builder,
value encoding, schema and value conversion, and response mapping.

Several things lie outside the client. They are parameters of the methods
that use them:

- the remote `route` call;
- the per-endpoint query and write RPCs;
- the database resolution;
- the arrow and avro decoders;
- the conversion of write results into a `RouteBasedWriteError`, and its
  `all_ok` test.

A hash map's iteration order is unspecified. The model therefore allows any
enumeration of its keys (`Ordering.HashOrder`). A `BTreeMap` iterates its
keys in ascending order (`Ordering.SortedNames`).

Points where the model follows the code rather than a reading of it:

- `RouterImpl::route` starts every table at the default endpoint and only
  ever replaces an entry with another endpoint. Its result therefore never
  holds `None` (`Router.RouteAllPresent`). With this router:
  - the "no corresponding endpoint" branches of both clients cannot be
    taken;
  - the cluster client's write returns an empty vector once routing
    succeeds (`Cluster.WriteReportsNothingOnceRouted`).

  The model keeps both branches as written.
- `make_tags_key` calls `to_bytes` on a value, and `value.rs` defines
  `as_bytes`. The model uses `Values.AsBytes`.
- The row code of SQL query results uses a `Null` value, which `value.rs`
  lacks. The model's `Values.Value` has it.
- The error text for an out-of-range port says `(<=65536)`, but 65536 is
  rejected (`Route.ParsePortAboveMax`). The model follows the check.
- The `assert_eq!` on each point's table in `TableRequestPbBuilder::new`
  is a precondition of `PbBuilder.NewTableRequestPbBuilder`.
- `TableRequestPbBuilder::new` keys series by the bytes of
  `make_tags_key`, which can collide for different tag sets (see
  "## Findings"). The model's builder, `PbBuilder.NewTableRequestPbBuilder`,
  and everything built on it (`PbBuilder.BuildTable`,
  `PbBuilder.BuildWriteTableRequests`, `PbBuilder.FlattenDelivers`) key
  series by the tag set itself, the evidently intended behaviour. The
  keying as written is `PbBuilder.TagsKeyOf`, and `PbBuilder.TagsKeyCollision`
  shows what it does to colliding tag sets.

## Model

| member | source | states |
|---|---|---|
| Util.StatusCode.AsU32 | src/util.rs:18-29 | Ok is 200, InvalidArgument 400, NotFound 404, TooManyRequests 429 and InternalError 500 |
| Util.IsOkIff | src/util.rs:33-35 | a code is OK iff it is 200 |
| Util.ContainsIffOccurs | src/util.rs:41-42 | `contains` holds iff the substring occurs at some position |
| Util.ShouldRefreshIff | src/util.rs:39-43 | refresh iff the code is 400 and the message contains "Table" and "not found", anywhere and in either order |
| Util.ShouldRefreshNeedsInvalidArgument | src/util.rs:39-40 | any code other than 400 never calls for a refresh, whatever the message |
| Util.ShouldRefreshIsCaseSensitive | src/util.rs:41-42 | "table not found" with code 400 does not call for a refresh |
| Util.ShouldRefreshExamples | src/util.rs:39-43 | both substring orders refresh with 400; code 500 does not |
| Route.Decimal | src/model/route.rs:13-17 | the printed port is a non-empty string of decimal digits |
| Route.DecimalValueOfDecimal | src/model/route.rs:13-17 | reading the printed digits back gives the number |
| Route.ParseU32 | src/model/route.rs:42-45 | a port parses iff, after an optional '+', it is non-empty, all decimal digits and below 2^32 |
| Route.ParseU32OfDecimal | src/model/route.rs:42-45 | every printed u32 parses back to itself |
| Route.ParseU32Rejects | src/model/route.rs:42-45 | the empty port, a lone '+' and a port with a non-digit anywhere other than one leading '+' do not parse |
| Route.LastIndexOf | src/model/route.rs:29 | None iff the character is absent; otherwise an index holding it with none after it |
| Route.RSplitOnce | src/model/route.rs:29-35 | None iff there is no separator; otherwise the two parts around the last separator |
| Route.RSplitOnceAt | src/model/route.rs:29 | splitting `a:b` with no ':' in `b` gives back `a` and `b` |
| Route.Parse | src/model/route.rs:28-55 | no ':' fails; success means a non-empty address, a port at most 65535, and the parts around the last ':' |
| Route.ParseToString | src/model/route.rs:13-55 | parsing a printed endpoint succeeds iff its address is non-empty and its port is at most 65535, and then gives back that endpoint |
| Route.ParsePrinted | src/model/route.rs:28-55 | `addr:port` parses iff the address is non-empty and the port fits, and then to exactly those parts |
| Route.ParseRejectsBadPort | src/model/route.rs:42-45 | a non-empty address with an empty port, a lone '+', or a port with a non-digit anywhere other than one leading '+' fails |
| Route.ParseLoopback | src/model/route.rs:73-83 | "127.0.0.1:80" parses to that address and port 80 |
| Route.ParseHostName | src/model/route.rs:73-83 | "hello.world.com:1080" parses to that host and port 1080 |
| Route.ParseNoColon | src/model/route.rs:29-35 | a string without ':' fails, the empty string included |
| Route.ParseEmptyAddr | src/model/route.rs:37-40 | ":1080" fails on the empty address |
| Route.ParsePortTooLarge | src/model/route.rs:42-49 | "0:99999999" fails |
| Route.ParseMaxPort | src/model/route.rs:46-49 | port 65535 is accepted |
| Route.ParsePortAboveMax | src/model/route.rs:46-49 | port 65536 is rejected |
| Route.ParseSplitsAtLastColon | src/model/route.rs:29 | "::1:8831" splits at the last ':', giving address "::1" |
| Route.FromPb | src/model/route.rs:58-65 | the endpoint prints as the message's ip, ':' and port |
| Route.FromPbSkipsRangeCheck | src/model/route.rs:58-65 | a message with port 70000 gives an endpoint with port 70000, which the parser would reject |
| Values.FromLe | src/model/value.rs:28-45 | reading little-endian bytes gives a number below 256^n |
| Values.FromLeBytes | src/model/value.rs:30-42 | writing a number as n little-endian bytes and reading it back gives the number |
| Values.SignedRoundTrip | src/model/value.rs:30-42 | two's-complement little-endian bytes read back as signed give the number |
| Values.AsBytesLength | src/model/value.rs:28-45 | timestamps and 64-bit kinds take 8 bytes, 32-bit kinds 4, 16-bit 2, 8-bit and Boolean 1 |
| Values.AsBytesBoolean | src/model/value.rs:43 | a Boolean encodes as the single byte 1 or 0 |
| Values.AsBytesStrings | src/model/value.rs:33-34 | Varbinary encodes as itself; a String's bytes decode as UTF-8 back to the string |
| Values.AsBytesUnsignedRoundTrip | src/model/value.rs:31-42 | unsigned integers and float bit patterns are recovered from their little-endian bytes |
| Values.AsBytesSignedRoundTrip | src/model/value.rs:30-38 | timestamps and signed integers are recovered from their two's-complement bytes |
| Values.DecodeUtf8OfUtf8 | src/model/value.rs:34 | UTF-8 decoding of a string's encoding gives back the string |
| Values.CodePointOfUtf8Char | src/model/value.rs:34 | the UTF-8 bytes of a character decode to its code point |
| Values.FromPbToPb | src/model/value.rs:48-70 | the protobuf value of a value determines it: the reverse mapping gives it back |
| Values.ToPbWidens | src/model/value.rs:59-64 | UInt16 and UInt8 widen to u32, and Int16 and Int8 to i32, keeping the number |
| Points.AsciiLowercase | src/model/write/point.rs:13-15 | ASCII lowercasing keeps the length |
| Points.IsReservedIff | src/model/write/point.rs:9-15 | a name is reserved iff, ignoring ASCII case, it is "tsid" or "timestamp" |
| Points.ReservedExamples | src/model/write/point.rs:9-15 | "TSID" and "TimeStamp" are reserved; "tsid2" and "time" are not |
| Points.PointBuilder.Build | src/model/write/point.rs:78-97 | success iff no reserved name, non-empty fields and a timestamp; each failure has its message, checked in that order; success copies table, timestamp, tags and fields |
| Points.ReservedFlagSticky | src/model/write/point.rs:60-76 | after builder steps, the reserved flag is set iff it was set or some tag or field step named a reserved column |
| Points.ApplyAllLastWriteWins | src/model/write/point.rs:46-76 | each tag, field, timestamp and table holds the value of its last setting step, or the old one |
| Points.FieldsNonEmptyIff | src/model/write/point.rs:69-76 | fields are non-empty iff they were or some step added a field |
| Points.TimestampSetIff | src/model/write/point.rs:51-54 | a timestamp is set iff it was or some step set one |
| Points.BuildAfterSteps | src/model/write/point.rs:36-97 | a new builder after steps builds iff no step names a reserved column, some step adds a field and some step sets the timestamp |
| Points.ReservedCheckedFirst | src/model/write/point.rs:79-81 | a reserved tag fails with the reserved-name error even though fields and timestamp are missing |
| WriteRequest.OfTable | src/model/write/request.rs:16-24 | the selected points all belong to the table |
| WriteRequest.GroupAddTo | src/model/write/request.rs:16-24 | adding a point appends it to its table's group, creates that group if absent and leaves other groups alone |
| WriteRequest.AddAllGroups | src/model/write/request.rs:26-32 | adding points appends, to each table's group, that table's points in order |
| WriteRequest.AddAllKeys | src/model/write/request.rs:16-32 | a group exists afterwards iff it existed or some added point belongs to its table |
| WriteRequest.AddAllWellGrouped | src/model/write/request.rs:16-32 | adding points keeps every point in the group of its own table |
| WriteRequest.Request.constructor | src/model/write/request.rs:16-24 | a new request has no groups |
| WriteRequest.Request.AddPoint | src/model/write/request.rs:16-24 | the groups become the old groups with the point appended to its table's group |
| WriteRequest.Request.AddPoints | src/model/write/request.rs:26-32 | the groups become the old groups after adding each point in order |
| Ordering.SortedNames | src/model/write/request.rs:220-228 | the map's keys, each exactly once |
| Ordering.SortedNamesAscending | src/model/write/request.rs:220-228 | the keys are in strictly ascending order, so none repeats |
| Ordering.HashOrder | src/model/write/request.rs:59-60 | any enumeration of a hash map's keys: each key exactly once |
| PbBuilder.Entries | src/model/write/request.rs:220-228 | one (name, value) entry per tag, each a tag of the map |
| PbBuilder.MakeTagsKey | src/model/write/request.rs:220-228 | the key is the concatenation, in ascending name order, of each name's UTF-8 bytes and its value's bytes |
| PbBuilder.Utf8Concat | src/model/write/request.rs:220-228 | the UTF-8 bytes of a concatenation are the concatenated bytes |
| PbBuilder.TagsKeyOfSingle | src/model/write/request.rs:220-228 | a single tag's key is its name's bytes followed by its value's bytes |
| PbBuilder.TsFieldsOfDomain | src/model/write/request.rs:81-93 | a series has a fields map for a timestamp iff some point with its tags has that timestamp |
| PbBuilder.GroupSeriesSeparated | src/model/write/request.rs:81-93 | when the key tells tag sets apart, each tag set gets its own series with the last fields per timestamp, and there are no other series |
| PbBuilder.SameTagsSeparates | src/model/write/request.rs:81-93 | keying series by the tag set itself tells tag sets apart |
| PbBuilder.NewTableRequestPbBuilder | src/model/write/request.rs:76-99 | the builder holds the table and lists every series exactly once, in any order; series are keyed by their tag set, the intended keying of the Findings row, where the code merges tag sets whose `make_tags_key` bytes collide |
| PbBuilder.NameDict.constructor | src/model/write/request.rs:196-201 | a new dictionary is empty with counter 0 |
| PbBuilder.NameDict.Insert | src/model/write/request.rs:203-209 | a known name keeps its index and changes nothing; a new name gets the next index and is appended to the names |
| PbBuilder.NameDict.ConvertOrdered | src/model/write/request.rs:211-217 | one name per dictionary entry, and position `dict[n]` holds `n` |
| PbBuilder.Timestamps | src/model/write/request.rs:149-178 | the timestamps of a series, each once, in ascending order |
| PbBuilder.BuildNamed | src/model/write/request.rs:132-147 | each tag is emitted with its name's dictionary index and its protobuf value; the dictionary only grows |
| PbBuilder.BuildTsFields | src/model/write/request.rs:149-178 | one field group per timestamp, each field with its name's index and protobuf value |
| PbBuilder.BuildSeriesEntry | src/model/write/request.rs:121-130 | the entry encodes the series' tags and field groups against both dictionaries |
| PbBuilder.Build | src/model/write/request.rs:101-119 | the request carries the table and one entry per series, and decoding it through its name lists gives back every series' points |
| PbBuilder.DecodeNamedEncoded | src/model/write/request.rs:132-147 | names looked up through the ordered names give back the encoded map |
| PbBuilder.DecodeGroupsEncoded | src/model/write/request.rs:149-178 | decoding the field groups gives one point per timestamp with its fields |
| PbBuilder.DecodeEntriesEncoded | src/model/write/request.rs:101-130 | decoding the entries gives the points of every series in order |
| PbBuilder.InEntryPoints | src/model/write/request.rs:121-130 | a point comes out of a series iff it has the series' tags and one of its timestamps with that timestamp's fields |
| PbBuilder.FlattenDelivers | src/model/write/request.rs:76-130 | under the tag-set keying of the Findings row, the series of a group, in any order, give back each point with the last fields for its tags and timestamp, exactly once, and nothing else |
| PbBuilder.BuildTable | src/model/write/request.rs:60-63 | under the tag-set keying of the Findings row, one table's request decodes to the table's points, each (tags, timestamp) exactly once with the last write's fields, and nothing else |
| PbBuilder.BuildWriteTableRequests | src/model/write/request.rs:54-67 | under the tag-set keying of the Findings row, one request per table group, each decoding to that group's points, each (tags, timestamp) exactly once with the last write's fields, and nothing else |
| PbBuilder.TagsKeyCollides | src/model/write/request.rs:220-228 | tags {a: "bc"} and {ab: "c"} get the same key |
| PbBuilder.TagsKeyCollision | src/model/write/request.rs:81-93 | as written, two points with those tags fall into one series, which carries the first point's tags |
| PbBuilder.SharedKeyMerges | src/model/write/request.rs:81-93 | any two tag sets that share a key are merged into one series |
| PbBuilder.PairKeepsBoth | src/model/write/request.rs:81-93 | keyed by the tag set, the second point keeps its own series with its own tags |
| Router.MissesDomain | src/router.rs:56-70 | a table is a miss iff it is not cached and requested; its index is one where it occurs |
| Router.MissesLast | src/router.rs:65 | a repeated table's miss index is its last occurrence |
| Router.MissesInjective | src/router.rs:56-70 | no two missed tables share an index |
| Router.Initial | src/router.rs:53-67 | one target per requested table |
| Router.LastResolved | src/router.rs:79-92 | present iff some response entry for the table carries an endpoint |
| Router.InsertsAt | src/router.rs:79-92 | a table is cached afterwards iff it was or some entry resolved it; the last resolution wins; others keep their endpoint |
| Router.ApplyOkIff | src/router.rs:79-92 | applying the response succeeds iff every entry names a missed table |
| Router.ApplyOk | src/router.rs:79-92 | on success each missed table's slot holds its last resolution or stays; other slots are unchanged |
| Router.ApplyErr | src/router.rs:79-92 | the first entry naming an unmissed table fails with Unknown, keeping the cache inserts made before it |
| Router.RouteSpec | src/router.rs:52-95 | a successful route has one target per table |
| Router.RouteAllPresent | src/router.rs:53-91 | every target of a successful route is an endpoint, never None |
| Router.RouteRemoteFailure | src/router.rs:73-76 | a failed remote call is returned as is, and the cache is unchanged |
| Router.RouteCacheHit | src/router.rs:58-67 | a cached table is not requested, and its target is the cached endpoint |
| Router.RouteMiss | src/router.rs:58-92 | a missed table is requested; its last occurrence gets its resolved endpoint, and otherwise it gets the default |
| Router.RouteCacheAfterOk | src/router.rs:79-92 | after a successful route a table is cached iff it was or the response resolved it, and resolved tables hold their new endpoint |
| Router.RouteUnknownTable | src/router.rs:79-92 | a response entry for a table that was not missed fails the route, keeping the earlier inserts |
| Router.RouteOkIff | src/router.rs:52-95 | a route succeeds iff the remote call does and every entry names a missed table |
| Router.CachedTableNotRequested | src/router.rs:58-67 | a cached table is not sent to the remote router |
| Router.EvictedTableRequested | src/router.rs:97-101 | after eviction, the table is requested again |
| Router.RouterImpl.constructor | src/router.rs:41-47 | the router starts with the given default endpoint and an empty cache |
| Router.RouterImpl.Lookup | src/router.rs:53-70 | targets start from cache hits and the default; the misses map each uncached table to its last index |
| Router.RouterImpl.Route | src/router.rs:52-95 | exactly one remote request with the missed tables, even when none is missed; the result and the new cache are the route specification's |
| Router.RouterImpl.Evict | src/router.rs:97-101 | exactly the listed tables leave the cache |
| Partition.PlacePlaces | src/db_client/route_based.rs:102-120 | placing a table puts it in its endpoint's partition or the unroutable list, and keeps earlier placements |
| Partition.PartitionPlaces | src/db_client/route_based.rs:102-120 | each table lands in exactly one place with its entry unchanged, and nothing else is in a partition or the unroutable list (the same loop is at src/db_client/cluster.rs:73-92) |
| Partition.PartitionUnroutable | src/db_client/route_based.rs:102-120 | the unroutable list is the tables without an endpoint, in order |
| Partition.AllPresentNoneUnroutable | src/db_client/route_based.rs:147-154 | when every table has an endpoint nothing is unroutable |
| Partition.PartitionByEndpoint | src/db_client/route_based.rs:102-120 | the loop's partitions and unroutable list are those of the partition specification (as in src/db_client/cluster.rs:73-92 too) |
| Partition.EvictsIff | src/db_client/route_based.rs:159-174 | a table is evicted iff it belongs to a pair whose result is a server error that calls for a refresh (the same rule is at src/db_client/cluster.rs:115-129) |
| ClientPools.AfterAllGrows | src/db_client/route_based.rs:199-213 | the pool only grows; existing clients stay; new ones are created for their endpoint |
| ClientPools.ClientForStable | src/db_client/route_based.rs:199-213 | a pooled endpoint's client never changes |
| ClientPools.ClientPool.constructor | src/db_client/route_based.rs:36-44 | a new pool is empty |
| ClientPools.ClientPool.GetOrCreate | src/db_client/route_based.rs:199-213 | returns the pooled client or a new one, and afterwards the endpoint maps to it; a known endpoint changes nothing (the same as `StandalonePool::get_or_create` at src/db_client/cluster.rs:158-171) |
| ClientPools.ClientPool.GetOrCreateAll | src/db_client/route_based.rs:123-132 | one client per endpoint, the pool after getting each in order |
| RouteBased.TablesOf | src/db_client/route_based.rs:123-132 | each endpoint's table list enumerates its partition's tables |
| RouteBased.SendAll | src/db_client/route_based.rs:133-145 | each result is paired, by position, with its partition's table list |
| RouteBased.RouteBasedImpl.constructor | src/db_client/route_based.rs:36-44 | the client starts with an empty cache and an empty pool |
| RouteBased.RouteBasedImpl.SqlQuery | src/db_client/route_based.rs:60-91 | empty tables fail with Unknown before anything else; a resolution error is returned; a routing error or a missing endpoint is returned; otherwise the first table's endpoint is queried, and a failure evicts every table |
| RouteBased.RouteBasedImpl.FanOut | src/db_client/route_based.rs:123-154 | one pair per endpoint, with its tables and its write's result, then one Unknown pair for the unroutable tables if any |
| RouteBased.RouteBasedImpl.Write | src/db_client/route_based.rs:93-182 | a routing failure aborts before any partition is sent; otherwise the write partitions, fans out, evicts the refreshable failures, and returns the converted outcome's `ok` part when the given `all_ok` test accepts it, otherwise the outcome as an error |
| RouteBased.RouterLeavesNothingUnroutable | src/db_client/route_based.rs:147-154 | with the caching router nothing is unroutable and the first table always has an endpoint |
| Cluster.Reported | src/db_client/cluster.rs:94-101 | at most one failed entry, holding the unroutable tables, and none iff nothing is unroutable |
| Cluster.SendAll | src/db_client/cluster.rs:104-115 | one result per endpoint, in order |
| Cluster.ClusterImpl.constructor | src/db_client/cluster.rs:136-141 | the client starts with an empty cache and an empty pool |
| Cluster.ClusterImpl.Query | src/db_client/cluster.rs:28-60 | always one result: Unknown for empty metrics; the routing error; a missing endpoint; or the first metric's query, evicting all metrics on failure |
| Cluster.ClusterImpl.FanOut | src/db_client/cluster.rs:104-115 | one RPC result per endpoint, with the pool's client for it |
| Cluster.ClusterImpl.Write | src/db_client/cluster.rs:62-132 | a routing failure gives one result with all metrics; otherwise only the unroutable entry is returned, and RPC results only drive eviction |
| Cluster.WriteReportsNothingOnceRouted | src/db_client/cluster.rs:94-131 | with the caching router a routed write returns no results |
| Rows.ScalarOneToOne | src/model/row.rs:39-47 | a schema maps to a column type iff it is that type's scalar schema |
| Rows.ColumnDataTypeOfPeeled | src/model/row.rs:48-65 | a `[null, T]` union converts like `T`; other unions fail with the variant-count or first-not-null error |
| Rows.NullableCanonical | src/model/row.rs:57-63 | `[null, T]` gives T's type; `[T, null]` fails unless T is null |
| Rows.ComplexKindsRejected | src/model/row.rs:66-79 | Array, Map, Record, Enum, Fixed, Decimal, Uuid, Date, TimeMillis, TimeMicros, TimestampMicros and Duration are rejected |
| Rows.SchemaTryFrom | src/model/row.rs:113-131 | the push loop gives the schema specification's result |
| Rows.ColumnsOfSpec | src/model/row.rs:113-127 | the fields convert iff each does, then one named column per field in order; otherwise the first bad field's error |
| Rows.SchemaOfSpec | src/model/row.rs:100-131 | a non-record fails; a record converts iff all its fields do, then `num_cols` is the field count and `col_idx` reads the lookup map |
| Convert.Unwrapped | src/model/convert.rs:25 | the unwrapped value is not a union |
| Convert.ValueToDatumSpec | src/model/convert.rs:12-41 | unions are unwrapped; a value gives a datum iff it is that datum's avro form; other kinds fail as unsupported |
| Convert.LongIsInt64 | src/model/convert.rs:20-22 | a Long, bare or in a union, becomes Int64 |
| Convert.PushDatums | src/model/convert.rs:45-50 | the push loop gives the datums specification's result |
| Convert.DatumsOfSpec | src/model/convert.rs:45-50 | the columns convert iff each does, then one datum per column in order; otherwise the first bad column's error |
| Convert.OneRowSpec | src/model/convert.rs:43-55 | a raw row parses iff it decodes to a record whose columns all convert; a non-record or a decoding failure fails it |
| Convert.ParseOneRow | src/model/convert.rs:43-55 | the method gives the one-row specification's result |
| Convert.RowsOfSpec | src/model/convert.rs:63-70 | the raw rows parse iff each does, then one row per raw row in order; otherwise the first bad row's error |
| Convert.ParseQueriedRows | src/model/convert.rs:59-71 | the loop gives the queried-rows specification's result |
| Convert.QueriedRowsOfSpec | src/model/convert.rs:59-71 | success iff the schema parses, converts and every row parses; then that schema and one row per raw row; each failure has its error |
| SqlRow.FindColumn | src/model/sql_query/row.rs:25-27 | None iff no column has the name; otherwise the first column with it |
| SqlRow.Build | src/model/sql_query/row.rs:70-88 | one row per value vector, in order; column j is named by name j and holds value j |
| SqlRow.BuildThenFind | src/model/sql_query/row.rs:70-88 | with distinct names, looking a name up in a built row finds that column's value, if the row is long enough |
| SqlRow.FillOnlyColumn | src/model/sql_query/row.rs:117-198 | filling succeeds iff the type is supported (LargeUtf8, LargeBinary, Float32 and Float64, whose arms would panic, count as unsupported); it writes only that column, a Null column changes nothing, and an unsupported type fails with its name |
| SqlRow.NullGrid | src/model/sql_query/row.rs:91-103 | a rows-by-columns grid of Null |
| SqlRow.FillAllErrSticks | src/model/sql_query/row.rs:105-109 | once a column fails, later columns do not change the outcome |
| SqlRow.BatchRowsSpec | src/model/sql_query/row.rs:90-115 | a batch with all columns supported gives each cell's value; otherwise the first unsupported column's error |
| SqlRow.BatchThenBuild | src/model/sql_query/row.rs:70-115 | rows built from a batch give cell (i, j) under field name j |
| SqlRow.FillColumnInRowBatch | src/model/sql_query/row.rs:117-198 | the array grid is filled as the fill specification says, and left unchanged on failure |
| SqlRow.WithArrowRecordBatch | src/model/sql_query/row.rs:90-115 | the method gives the batch specification's result |
| SqlResponse.RowsOfBatchesOk | src/model/sql_query/response.rs:69-79 | the batches convert iff each does, giving one row per batch row |
| SqlResponse.RowsOfBatchesAppend | src/model/sql_query/response.rs:69-79 | rows of concatenated batches are the concatenated rows, in batch order |
| SqlResponse.RowsOfBatchesFirstError | src/model/sql_query/response.rs:72-78 | a failure is the first failing batch's error |
| SqlResponse.ResponseOfSpec | src/model/sql_query/response.rs:22-87 | no output fails with Unknown; affected rows give the i32 count and no rows; arrow output gives the decoder's error, or exactly the rows of all batches, in batch order, with -1 affected rows |
| Ints.U32AsI32 | src/model/sql_query/response.rs:66 | `as i32` keeps values below 2^31 and subtracts 2^32 from the rest |

## Left out

- gRPC transport, channel options, tenant headers and connectivity checks: I/O. Each RPC is a function parameter returning a `Result`.
- `OnceCell` lazy initialisation of the router: the router is built with the client.
- Other `Router` implementations: the clients use `RouterImpl`, the only router the client constructs.
- `DashMap` sharding and concurrent access to the pool: each pool is a plain map updated sequentially.
- The `join_all` fan-out: the RPCs run one after another, in partition order.
- `resolve_database` is not part of this model: its outcome is a `Result` parameter.
- `RouteBasedWriteError`, its conversion from write results and its `all_ok` test are not part of this model: the conversion and `all_ok` are function parameters of `RouteBased.RouteBasedImpl.Write`. The type keeps the `ok` part the client reads; its failed part, a list of (tables, error) pairs, is an assumed shape that nothing in the model reads.
- `decode_arrow_payload` (zstd decompression and arrow IPC reading): a function parameter.
- Avro `parse_str` and `from_avro_datum`: function parameters.
- Arrow arrays: a typed value sequence per column, with no null bitmaps.
- SqlRow.FillOnlyColumn: does not model the panics of four arrow branches. The Float32 and Float64 arms downcast to `Int8Array`; the LargeUtf8 and LargeBinary arms downcast to `StringArray` and `BinaryArray`, whose offsets are 32-bit where the large arrays' are 64-bit. Each downcast finds no array of that type, and its `unwrap` panics. The model has no column kind for these four types, so such a column is an unsupported type and filling it fails with an error instead of aborting.
- Floating-point values: carried as their IEEE-754 bit patterns, with no arithmetic on them.
- Formatted error texts (`Debug` or `Display` interpolation of the offending value or the underlying error, such as the port parse error's `err:{}`): errors carry the offending value or a short fixed text instead.
- Convert.ParseOneRow: on failure the source leaves the datums pushed so far in the caller's row; the model returns only the error.
- PbBuilder.NewTableRequestPbBuilder: keys series by the tag set, not by the bytes of `make_tags_key`, so it does not merge tag sets whose keys collide as the code does; that merge is stated by `PbBuilder.TagsKeyCollision` and `PbBuilder.SharedKeyMerges` (see "## Findings").
- PbBuilder.NameDict.Insert: the source's `u32` index counter is unbounded here, because no request holds 2^32 distinct names.
- Cluster.ClusterImpl.Write: the cluster client calls an `errors::should_refresh`, which is not part of this model (`src/errors.rs` defines `is_ok` but no `should_refresh`); the model takes it to be `util.rs`'s `should_refresh` (`Util.ShouldRefresh`), so its eviction clause rests on that reading.
- The cluster client's write entries: generic per-table entries, since `write_entries`/`metrics` come from request types that are not part of this model.
- `Schema::num_cols`, `Schema::col_idx` and `Response::default` have no contracts of their own: they are plain accessors, stated through `Rows.SchemaOfSpec` and `SqlResponse.ResponseOfSpec`.
- Configuration defaults, CSV display, builders, module declarations and thin wrappers: no logic beyond copying fields or delegating.

## Findings

| source | as written | input that shows it | evidently intended | confidence | as-written member | corrected member |
|---|---|---|---|---|---|---|
| src/model/write/request.rs:220-228 (used at 81-88) | `make_tags_key` concatenates each tag name's bytes with its value's bytes, with no separator or length | one table with points tagged {"a": String("bc")} and {"ab": String("c")}: both keys are the bytes "abc", so both points go into one series carrying the first point's tags | distinct tag sets give distinct series | not executed | PbBuilder.TagsKeyCollision | PbBuilder.PairKeepsBoth |
