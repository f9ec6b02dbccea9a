/** The part of Go's `net/http` request that the authentication core reads and
    writes: the query, the headers, the body stream and the request-scoped
    storage that `gorilla/context` keeps for the request. */
module Http {
  import opened Wrappers
  import Request

  newtype byte = b: int | 0 <= b < 256

  type Bytes = seq<byte>

  /** A body stream. Reading it to the end yields `data`, followed by end of
      stream (`readError == None`) or by the error `readError`. */
  datatype Body = Body(data: Bytes, readError: Option<string>)

  /** The stream left after a reader has pulled `n` bytes out of `b`: the
      rest of its bytes, or none when the reader pulled them all. */
  function Drain(b: Body, n: nat): (rest: Body)
    ensures |rest.data| == if n <= |b.data| then |b.data| - n else 0
    ensures b.data == b.data[..|b.data| - |rest.data|] + rest.data
    ensures rest.readError == b.readError
  {
    if n <= |b.data| then Body(b.data[n..], b.readError) else Body([], b.readError)
  }

  /** `Query().Get` and `Header.Get`: the value stored under `key`, or the empty
      string when there is none. */
  function Get(values: map<string, string>, key: string): string
  {
    if key in values then values[key] else ""
  }

  /** A snapshot of what a request carries, as the pipeline sees it. */
  datatype RequestView = RequestView(query: map<string, string>, header: map<string, string>, body: Body)

  class HttpRequest {
    /** The first value of each query parameter. */
    var query: map<string, string>
    /** The first value of each header, under its canonical name. */
    var header: map<string, string>
    /** `r.Body`, which validation replaces by a re-readable copy. */
    var body: Body
    /** The request-scoped storage of `gorilla/context`. */
    var context: map<string, Request.EchoRequest>

    function View(): RequestView
      reads this
    {
      RequestView(query, header, body)
    }
  }
}
