/**
 * What the fetcher sees of Net::HTTP: the request it builds, the response the transport
 * delivers (status, header fields, whether the response class permits a body, the body bytes)
 * and the response classes by status code.
 */
module Http {
  import opened Wrappers
  import opened Ruby

  newtype byte = x: int | 0 <= x < 256

  /** The request verbs the fetcher can issue. */
  datatype Verb = Get | Head | Post

  /** Net::HTTPSuccess: the 2xx status codes. */
  predicate SuccessStatus(status: int)
  {
    200 <= status <= 299
  }

  /** Net::HTTPRedirection: the 3xx status codes. */
  predicate RedirectionStatus(status: int)
  {
    300 <= status <= 399
  }

  /** Header fields as Net::HTTP stores them: keyed by the lower-cased field name. */
  type Headers = h: map<string, string> | forall k :: k in h ==> Downcase(k) == k witness map[]

  /** Net::HTTPHeader#[]: the field of that name, whatever the letter case of the name asked for. */
  function Header(headers: Headers, name: string): (r: Option<string>)
    ensures r.Some? <==> Downcase(name) in headers
    ensures r.Some? ==> r.value == headers[Downcase(name)]
  {
    if Downcase(name) in headers then Some(headers[Downcase(name)]) else None
  }

  /** Two names that differ only in the case of their letters find the same field. */
  lemma HeaderIgnoresCase(headers: Headers, name: string, other: string)
    requires |name| == |other|
    requires forall i :: 0 <= i < |name| ==> LowerChar(name[i]) == LowerChar(other[i])
    ensures Header(headers, name) == Header(headers, other)
  {
    assert Downcase(name) == Downcase(other);
  }

  /** `header("content-length")` finds the field sent as "Content-Length". */
  lemma ContentLengthNameIgnoresCase(headers: Headers)
    ensures Header(headers, "Content-Length") == Header(headers, "content-length")
  {
    HeaderIgnoresCase(headers, "Content-Length", "content-length");
  }

  /**
   * A response as the transport delivers it. `bodyPermitted` is the response class's
   * body_permitted?; `body` is None when the exchange carries no body (a HEAD request).
   */
  datatype RawResponse = RawResponse(status: int, headers: Headers, bodyPermitted: bool, body: Option<seq<byte>>)

  /** The request handed to the transport: verb, URL, whether TLS is used, and the two timeouts. */
  datatype Request = Request(verb: Verb, url: string, useSsl: bool, openTimeout: Value, readTimeout: Value)

  /** What the transport returns: a response, or the exception a connection or timeout raised. */
  datatype Reply = Delivered(response: RawResponse) | NetworkFailure(cause: string)
}
