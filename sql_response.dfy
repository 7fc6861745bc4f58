/** The SQL query response and its conversion from the protobuf response
    (src/model/sql_query/response.rs). Decoding the arrow payload
    (decompression and the arrow IPC stream) is a parameter. */
module SqlResponse {
  import opened Ints
  import opened Common
  import opened SqlRow

  datatype Response = Response(affectedRows: i32, rows: seq<Row>)

  /** `Response::default`: no affected-row count (-1) and no rows. */
  function Default(): Response {
    Response(-1, [])
  }

  datatype Output = AffectedRows(affected: i32) | Rows(rows: seq<Row>)

  /** The arrow payload as it comes off the wire. */
  datatype ArrowPayload = ArrowPayload(recordBatches: seq<seq<u8>>, compressed: bool)

  datatype OutputPb = AffectedRowsPb(affected: u32) | ArrowPb(payload: ArrowPayload)

  datatype SqlQueryResponsePb = SqlQueryResponsePb(output: Option<OutputPb>)

  /** A record batch as arrow hands it out: always well formed. */
  type Batch = b: RecordBatch | WellFormed(b) witness RecordBatch([], [], 0)

  /** `decode_arrow_payload`. */
  type DecodeArrow = ArrowPayload -> Result<seq<Batch>>

  const NO_OUTPUT: string := "output is empty in sql query response"

  /** Convert each element and concatenate the results, in order; the
      first element that fails to convert fails the whole. */
  function ConcatAll<A, B>(f: A -> Result<seq<B>>, xs: seq<A>): Result<seq<B>>
    decreases |xs|
  {
    if xs == [] then Ok([])
    else match f(xs[0])
      case Err(e) => Err(e)
      case Ok(first) =>
        match ConcatAll(f, xs[1..])
        case Err(e) => Err(e)
        case Ok(rest) => Ok(first + rest)
  }

  /** The rows of one record batch. */
  function BatchRowsOf(batch: Batch): Result<seq<Row>> {
    match BatchRows(batch)
    case Err(e) => Err(e)
    case Ok(builder) => Ok(Build(builder))
  }

  /** The rows of the batches, in batch order; the first batch that cannot
      be turned into rows fails the whole conversion. */
  function RowsOfBatches(batches: seq<Batch>): Result<seq<Row>> {
    ConcatAll(BatchRowsOf, batches)
  }

  /** The total number of rows of the batches. */
  function TotalRows(batches: seq<Batch>): nat
    decreases |batches|
  {
    if batches == [] then 0 else batches[0].numRows + TotalRows(batches[1..])
  }

  /** Joining two conversion results: the first error wins, otherwise the
      elements are concatenated. */
  function Join<B>(x: Result<seq<B>>, y: Result<seq<B>>): Result<seq<B>> {
    if x.Err? then x else if y.Err? then y else Ok(x.value + y.value)
  }

  lemma {:induction false} ConcatAllAppend<A, B>(f: A -> Result<seq<B>>, a: seq<A>, b: seq<A>)
    ensures ConcatAll(f, a + b) == Join(ConcatAll(f, a), ConcatAll(f, b))
    decreases |a|
  {
    if a == [] {
      assert a + b == b;
      var rb := ConcatAll(f, b);
      if rb.Ok? {
        assert [] + rb.value == rb.value;
      }
    } else {
      assert (a + b)[0] == a[0] && (a + b)[1..] == a[1..] + b;
      ConcatAllAppend(f, a[1..], b);
      var first := f(a[0]);
      if first.Ok? {
        var ra := ConcatAll(f, a[1..]);
        var rb := ConcatAll(f, b);
        if ra.Ok? && rb.Ok? {
          assert first.value + ra.value + rb.value == first.value + (ra.value + rb.value);
        }
      }
    }
  }

  lemma {:induction false} ConcatAllOk<A, B>(f: A -> Result<seq<B>>, xs: seq<A>)
    ensures ConcatAll(f, xs).Ok? <==> forall k :: 0 <= k < |xs| ==> f(xs[k]).Ok?
    decreases |xs|
  {
    if xs != [] {
      ConcatAllOk(f, xs[1..]);
      assert forall k :: 0 < k < |xs| ==> xs[k] == xs[1..][k - 1];
    }
  }

  /** Element `k` is the first one that fails to convert. */
  ghost predicate FirstFailing<A, B>(f: A -> Result<seq<B>>, xs: seq<A>, k: int) {
    && 0 <= k < |xs|
    && f(xs[k]).Err?
    && forall j :: 0 <= j < k ==> f(xs[j]).Ok?
  }

  lemma {:induction false} ConcatAllFirstError<A, B>(f: A -> Result<seq<B>>, xs: seq<A>) returns (k: nat)
    requires ConcatAll(f, xs).Err?
    ensures FirstFailing(f, xs, k) && ConcatAll(f, xs).error == f(xs[k]).error
    decreases |xs|
  {
    if f(xs[0]).Ok? {
      var j := ConcatAllFirstError(f, xs[1..]);
      assert forall i :: 0 < i <= j + 1 ==> xs[i] == xs[1..][i - 1];
      k := j + 1;
    } else {
      k := 0;
    }
  }

  /** Converting a concatenation of batch sequences converts each part and
      joins the results. */
  lemma RowsOfBatchesAppend(a: seq<Batch>, b: seq<Batch>)
    ensures RowsOfBatches(a + b) == Join(RowsOfBatches(a), RowsOfBatches(b))
  {
    ConcatAllAppend(BatchRowsOf, a, b);
  }

  /** The conversion succeeds iff every batch converts; it then yields one
      row per batch row. */
  lemma RowsOfBatchesOk(batches: seq<Batch>)
    ensures RowsOfBatches(batches).Ok? <==> forall k :: 0 <= k < |batches| ==> BatchRows(batches[k]).Ok?
    ensures RowsOfBatches(batches).Ok? ==> |RowsOfBatches(batches).value| == TotalRows(batches)
  {
    ConcatAllOk(BatchRowsOf, batches);
    assert forall k :: 0 <= k < |batches| ==> (BatchRowsOf(batches[k]).Ok? <==> BatchRows(batches[k]).Ok?);
    if RowsOfBatches(batches).Ok? {
      RowsOfBatchesLength(batches);
    }
  }

  lemma {:induction false} RowsOfBatchesLength(batches: seq<Batch>)
    requires RowsOfBatches(batches).Ok?
    ensures |RowsOfBatches(batches).value| == TotalRows(batches)
    decreases |batches|
  {
    if batches != [] {
      var first := BatchRowsOf(batches[0]);
      assert first.Ok?;
      assert |first.value| == batches[0].numRows;
      RowsOfBatchesLength(batches[1..]);
    }
  }

  /** A failed conversion carries the error of the first failing batch. */
  lemma RowsOfBatchesFirstError(batches: seq<Batch>) returns (k: nat)
    requires RowsOfBatches(batches).Err?
    ensures k < |batches| && BatchRows(batches[k]).Err? && RowsOfBatches(batches).error == BatchRows(batches[k]).error
    ensures forall j :: 0 <= j < k ==> BatchRows(batches[j]).Ok?
  {
    k := ConcatAllFirstError(BatchRowsOf, batches);
    assert forall j :: 0 <= j < k ==> BatchRowsOf(batches[j]).Ok?;
  }

  /** `Output::try_from`: an affected-row count is reinterpreted as `i32`;
      an arrow payload is decoded and every record batch turned into rows. */
  function OutputOf(pb: OutputPb, decode: DecodeArrow): Result<Output> {
    match pb
    case AffectedRowsPb(n) => Ok(AffectedRows(U32AsI32(n)))
    case ArrowPb(payload) =>
      match decode(payload)
      case Err(e) => Err(e)
      case Ok(batches) =>
        match RowsOfBatches(batches)
        case Err(e) => Err(e)
        case Ok(rows) => Ok(Rows(rows))
  }

  /** `Response::try_from`: the output is required; the part it does not
      carry keeps its default. */
  function ResponseOf(pb: SqlQueryResponsePb, decode: DecodeArrow): Result<Response> {
    match pb.output
    case None => Err(Unknown(NO_OUTPUT))
    case Some(o) =>
      match OutputOf(o, decode)
      case Err(e) => Err(e)
      case Ok(AffectedRows(n)) => Ok(Default().(affectedRows := n))
      case Ok(Rows(rows)) => Ok(Default().(rows := rows))
  }

  /** A response without output is an error; a count comes back with no
      rows; rows come back with the count -1: the rows of the decoded
      batches in batch order, one per batch row, and only when the payload
      decodes and every batch converts. */
  lemma ResponseOfSpec(pb: SqlQueryResponsePb, decode: DecodeArrow)
    ensures pb.output.None? ==> ResponseOf(pb, decode) == Err(Unknown(NO_OUTPUT))
    ensures pb.output.Some? && pb.output.value.AffectedRowsPb? ==>
      ResponseOf(pb, decode) == Ok(Response(U32AsI32(pb.output.value.affected), []))
    ensures pb.output.Some? && pb.output.value.ArrowPb? ==>
      var d := decode(pb.output.value.payload);
      && (d.Err? ==> ResponseOf(pb, decode) == Err(d.error))
      && (d.Ok? ==> (ResponseOf(pb, decode).Ok? <==> forall k :: 0 <= k < |d.value| ==> BatchRows(d.value[k]).Ok?))
      && (d.Ok? && ResponseOf(pb, decode).Ok? ==>
            && ResponseOf(pb, decode).value.affectedRows == -1
            && |ResponseOf(pb, decode).value.rows| == TotalRows(d.value)
            && ResponseOf(pb, decode).value.rows == RowsOfBatches(d.value).value)
  {
    if pb.output.Some? && pb.output.value.ArrowPb? {
      var d := decode(pb.output.value.payload);
      if d.Ok? {
        RowsOfBatchesOk(d.value);
      }
    }
  }
}
