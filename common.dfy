/** Result and error types shared by the client: the error taxonomy of the
    crate (server, rpc, client, unknown) plus the variants other files raise. */
module Common {
  import opened Ints

  datatype Option<+T> = None | Some(value: T)

  /** No element of `s` occurs twice. */
  ghost predicate Distinct<T>(s: seq<T>) {
    forall i, j :: 0 <= i < j < |s| ==> s[i] != s[j]
  }

  /** The write response of one table request or an aggregate of them. */
  datatype WriteResponse = WriteResponse(success: u32, failed: u32)

  /** The aggregated outcome of a multi-endpoint write: the merged successful
      part with its tables, which the client reads, and the failed part,
      whose shape is assumed here (one (tables, error) pair per failed
      partition) and which the client only passes on. Whether the outcome
      is all ok is a parameter of the write, not a rule of this type. */
  datatype RouteBasedWriteError = RouteBasedWriteError(
    ok: (seq<string>, WriteResponse),
    errors: seq<(seq<string>, Error)>)

  datatype Error =
    | Server(code: u32, msg: string)
    | Rpc(detail: string)
    | Client(msg: string)
    | Unknown(msg: string)
    | BuildRows(msg: string)
    | DecodeArrowPayload(msg: string)
    | RouteBasedWrite(write: RouteBasedWriteError)

  /** The `Result<T, String>` of the source's model layer. */
  datatype StrResult<+T> = Success(value: T) | Failure(msg: string)

  datatype Result<+T> = Ok(value: T) | Err(error: Error) {
    predicate IsFailure() { Err? }
    function PropagateFailure<U>(): Result<U>
      requires Err?
    {
      Err(error)
    }
    function Extract(): T
      requires Ok?
    {
      value
    }
  }
}
