/** The error normalizer of internal/middleware/error_handler.go: it runs
    the rest of the chain first, then turns the first recorded error, if
    any, into a {code, message} envelope under the status already set. */
module ErrorNormalizer {

  import opened Wrappers

  datatype ErrorResponse = ErrorResponse(code: int, message: string)

  /** The parts of the request context the normalizer reads: the status on
      the response writer and the texts of the errors recorded with c.Error. */
  datatype Exchange = Exchange(status: int, errors: seq<string>)

  /** A JSON write of `body` under `status`. */
  datatype Written = Written(status: int, body: ErrorResponse)

  /** `next` is the downstream chain (c.Next()); the result is the envelope
      the normalizer writes afterwards, if any. */
  function ErrorHandler(next: Exchange -> Exchange, c: Exchange): (w: Option<Written>)
    ensures w.None? <==> next(c).errors == []
    ensures w.Some? ==> w.value.status == next(c).status && w.value.body.code == next(c).status
    ensures w.Some? ==> w.value.body.message == next(c).errors[0]
  {
    var after := next(c);
    if |after.errors| > 0 then Some(Written(after.status, ErrorResponse(after.status, after.errors[0])))
    else None
  }

  /** Only the first recorded error reaches the envelope. */
  lemma LaterErrorsIgnored(status: int, first: string, rest1: seq<string>, rest2: seq<string>, c: Exchange)
    ensures ErrorHandler(_ => Exchange(status, [first] + rest1), c) == ErrorHandler(_ => Exchange(status, [first] + rest2), c)
  {
  }

  /** The envelope is decided on the context as the chain left it: two
      requests the chain leaves in the same state get the same envelope. */
  lemma DecidedAfterDownstream(next: Exchange -> Exchange, c1: Exchange, c2: Exchange)
    requires next(c1) == next(c2)
    ensures ErrorHandler(next, c1) == ErrorHandler(next, c2)
  {
  }
}
