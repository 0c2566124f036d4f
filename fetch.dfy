/**
 * The redirect-following fetch: one request per step, the response classified by status, the
 * declared size checked before the body is read, a redirect's Location resolved and offered to
 * the redirect hook, and the next step guarded by an attempt ceiling and a circular-redirect check
 * against every URL requested so far.
 *
 * The transport is a total function from the request built to what came back. The redirect hook,
 * a block that may keep state, is a function of every location passed to it so far, the current
 * one last; whatever Ruby value it returns is kept, and only `false` stops the fetch.
 */
module Fetcher {
  import opened Wrappers
  import opened Ruby
  import opened Http
  import opened Options
  import opened Urls
  import opened Errors

  /** Redirects followed at most; with the initial request, at most six requests. */
  const MAX_ATTEMPTS: nat := 5

  /** Everything a fetch can raise. */
  datatype Raised =
    | FetcherError(error: Error)       // UrlFetcher::TooManyRedirects, UrlFetcher::CircularRedirect
    | HttpError(status: int)           // what Net::HTTPResponse#value raises for the status
    | RuntimeError(message: string)    // "File too big (N bytes)"
    | ArgumentError                    // a :max_size of true, a Symbol or a String, which Integer#> rejects
    | NoMethodError                    // a followed redirect without a Location field
    | NetworkError(cause: string)      // the transport's own failure

  /** A response once its block has run: the body is what was read into storage, if anything. */
  datatype Response = Response(status: int, headers: Headers, body: Option<seq<byte>>)

  type Transport = Request -> Reply

  type Hook = seq<string> -> Value

  /** The declared Content-Length, read with String#to_i; nil.to_i is 0 when the field is absent. */
  function ContentLength(headers: Headers): (n: int)
    ensures Header(headers, "Content-Length").None? ==> n == 0
  {
    ToI(Header(headers, "Content-Length").GetOr(""))
  }

  const TOO_BIG_PREFIX: string := "File too big ("

  function FileTooBigMessage(length: int): (m: string)
    ensures |m| > |TOO_BIG_PREFIX| + 7
    ensures m[..|TOO_BIG_PREFIX|] == TOO_BIG_PREFIX && m[|m| - 7..] == " bytes)"
  {
    TOO_BIG_PREFIX + IntToString(length) + " bytes)"
  }

  /** The size error message starts with its fixed text and reads back as the declared length. */
  lemma FileTooBigMessageNamesLength(length: int)
    ensures var m := FileTooBigMessage(length);
      |m| > |TOO_BIG_PREFIX| && m[..|TOO_BIG_PREFIX|] == TOO_BIG_PREFIX && ToI(m[|TOO_BIG_PREFIX|..]) == length
  {
    var m := FileTooBigMessage(length);
    assert m[|TOO_BIG_PREFIX|..] == IntToString(length) + " bytes)";
    ToIOfIntToString(length, " bytes)");
  }

  /**
   * The block run on the response as it arrives: a status that is neither 2xx nor 3xx raises;
   * a 2xx response whose class permits a body has its declared length compared with the size
   * limit before the body is read; no other response has its body read.
   */
  function Receive(raw: RawResponse, options: Options): (r: Result<Response, Raised>)
    ensures !SuccessStatus(raw.status) && !RedirectionStatus(raw.status) ==> r == Failure(HttpError(raw.status))
    ensures r.Success? ==> r.value.status == raw.status && r.value.headers == raw.headers
    ensures r.Success? && r.value.body.Some? ==> SuccessStatus(raw.status) && raw.bodyPermitted && r.value.body == raw.body
    ensures RedirectionStatus(raw.status) || (SuccessStatus(raw.status) && !raw.bodyPermitted) ==>
      r == Success(Response(raw.status, raw.headers, None))
    ensures SuccessStatus(raw.status) && raw.bodyPermitted ==>
      match MaxSizeLimit(options)
      case Int(limit) =>
        if ContentLength(raw.headers) > limit
        then r == Failure(RuntimeError(FileTooBigMessage(ContentLength(raw.headers))))
        else r == Success(Response(raw.status, raw.headers, raw.body))
      case _ => r == Failure(ArgumentError)
  {
    if !(SuccessStatus(raw.status) || RedirectionStatus(raw.status)) then
      Failure(HttpError(raw.status))
    else if SuccessStatus(raw.status) && raw.bodyPermitted then
      var length := ContentLength(raw.headers);
      match MaxSizeLimit(options)
      case Int(limit) =>
        if length > limit then Failure(RuntimeError(FileTooBigMessage(length)))
        else Success(Response(raw.status, raw.headers, raw.body))
      case _ => Failure(ArgumentError)
    else
      Success(Response(raw.status, raw.headers, None))
  }

  /** The request for a URL: the verb the options select, TLS exactly for https, the two timeouts. */
  function MakeRequest(url: string, options: Options): (q: Request)
    ensures q.url == url && q.verb == RequestVerb(options)
    ensures q.useSsl <==> SchemeOf(url) == "https"
    ensures q.openTimeout == OpenTimeoutValue(options) && q.readTimeout == ReadTimeoutValue(options)
    ensures Truthy(q.openTimeout) && Truthy(q.readTimeout)
  {
    Request(RequestVerb(options), url, SchemeOf(url) == "https", OpenTimeoutValue(options), ReadTimeoutValue(options))
  }

  /** What one request comes to: a final result, or a redirect to follow to the resolved location. */
  datatype Step = Ended(result: Result<Response, Raised>) | Redirected(response: Response, next: string)

  function Exchange(url: string, options: Options, transport: Transport): (x: Step)
    ensures x.Redirected? ==> RedirectionStatus(x.response.status) && FollowsRedirects(options) && x.response.body.None?
    ensures x.Ended? && x.result.Success? ==>
      SuccessStatus(x.result.value.status) || (RedirectionStatus(x.result.value.status) && !FollowsRedirects(options))
    ensures x.Ended? && x.result == Failure(NoMethodError) ==> transport(MakeRequest(url, options)).Delivered?
    ensures x.Ended? && x.result.Failure? ==> !x.result.error.FetcherError?
    ensures transport(MakeRequest(url, options)).NetworkFailure? ==>
      x == Ended(Failure(NetworkError(transport(MakeRequest(url, options)).cause)))
    ensures transport(MakeRequest(url, options)).Delivered? ==>
      var r := Receive(transport(MakeRequest(url, options)).response, options);
      if r.Success? && RedirectionStatus(r.value.status) && FollowsRedirects(options) then
        match Header(r.value.headers, "Location")
        case None => x == Ended(Failure(NoMethodError))
        case Some(location) => x == Redirected(r.value, Resolve(location, url))
      else x == Ended(r)
  {
    match transport(MakeRequest(url, options))
    case NetworkFailure(cause) => Ended(Failure(NetworkError(cause)))
    case Delivered(raw) =>
      match Receive(raw, options)
      case Failure(e) => Ended(Failure(e))
      case Success(response) =>
        if RedirectionStatus(response.status) && FollowsRedirects(options) then
          match Header(response.headers, "Location")
          case None => Ended(Failure(NoMethodError))
          case Some(location) => Redirected(response, Resolve(location, url))
        else Ended(Success(response))
  }

  /** The exchange of each URL under fixed options and transport. */
  type Exchanger = string -> Step

  function ExchangeWith(options: Options, transport: Transport): (exchange: Exchanger)
    ensures forall url :: exchange(url) == Exchange(url, options, transport)
  {
    url => Exchange(url, options, transport)
  }

  /** Whether the hook, given these locations, stops the fetch: only a literal `false` does. */
  predicate Vetoes(hook: Option<Hook>, calls: seq<string>)
  {
    hook.Some? && hook.value(calls) == Bool(false)
  }

  /** A literal `false` from the hook is a veto; no hook, a truthy value and `nil` all let the fetch go on. */
  lemma OnlyFalseVetoes(hook: Option<Hook>, calls: seq<string>)
    ensures hook.None? ==> !Vetoes(hook, calls)
    ensures hook.Some? && Truthy(hook.value(calls)) ==> !Vetoes(hook, calls)
    ensures hook.Some? && hook.value(calls) == Nil ==> !Vetoes(hook, calls)
    ensures Vetoes(hook, calls) ==> hook.Some? && !Truthy(hook.value(calls))
    ensures hook.Some? && hook.value(calls) == Bool(false) ==> Vetoes(hook, calls)
  {
  }

  /** The result of a fetch with the URLs requested and the locations the hook was given. */
  datatype Outcome = Outcome(result: Result<Response, Raised>, visited: seq<string>, hookCalls: seq<string>)

  /**
   * fetch_response(url, options, previous_attempts): the ceiling, then the circular check, then
   * the request; on a followed redirect the hook sees the resolved location before the next call
   * makes its own checks.
   */
  function FetchFrom(url: string, exchange: Exchanger, hook: Option<Hook>,
                     visited: seq<string>, hookCalls: seq<string>): Outcome
    decreases MAX_ATTEMPTS + 1 - |visited|
  {
    if |visited| > MAX_ATTEMPTS then
      Outcome(Failure(FetcherError(TooManyRedirects(visited[0], MAX_ATTEMPTS))), visited, hookCalls)
    else if url in visited then
      Outcome(Failure(FetcherError(CircularRedirect(visited[0]))), visited, hookCalls)
    else
      var attempts := visited + [url];
      match exchange(url)
      case Ended(result) => Outcome(result, attempts, hookCalls)
      case Redirected(response, next) =>
        var calls := if hook.Some? then hookCalls + [next] else hookCalls;
        if Vetoes(hook, calls) then Outcome(Success(response), attempts, calls)
        else FetchFrom(next, exchange, hook, attempts, calls)
  }

  function Fetch(url: string, options: Options, hook: Option<Hook>, transport: Transport): Outcome
  {
    FetchFrom(url, ExchangeWith(options, transport), hook, [], [])
  }

  /** The fetch as the source runs it, with the attempts list appended in place once per request. */
  method FetchResponse(url: string, options: Options, hook: Option<Hook>, transport: Transport)
    returns (outcome: Outcome)
    ensures outcome == Fetch(url, options, hook, transport)
  {
    var exchanger := ExchangeWith(options, transport);
    var current := url;
    var previousAttempts: seq<string> := [];
    var hookCalls: seq<string> := [];
    while true
      invariant |previousAttempts| <= MAX_ATTEMPTS + 1
      invariant FetchFrom(current, exchanger, hook, previousAttempts, hookCalls) == Fetch(url, options, hook, transport)
      decreases MAX_ATTEMPTS + 1 - |previousAttempts|
    {
      if |previousAttempts| > MAX_ATTEMPTS {
        return Outcome(Failure(FetcherError(TooManyRedirects(previousAttempts[0], MAX_ATTEMPTS))), previousAttempts, hookCalls);
      }
      if current in previousAttempts {
        return Outcome(Failure(FetcherError(CircularRedirect(previousAttempts[0]))), previousAttempts, hookCalls);
      }
      ghost var visited, calls := previousAttempts, hookCalls;
      previousAttempts := previousAttempts + [current];
      var exchange := exchanger(current);
      if exchange.Ended? {
        return Outcome(exchange.result, previousAttempts, hookCalls);
      }
      var abort := false;
      if hook.Some? {
        hookCalls := hookCalls + [exchange.next];
        abort := hook.value(hookCalls) == Bool(false);
      }
      assert abort == Vetoes(hook, hookCalls);
      if abort {
        return Outcome(Success(exchange.response), previousAttempts, hookCalls);
      }
      assert FetchFrom(current, exchanger, hook, visited, calls)
          == FetchFrom(exchange.next, exchanger, hook, previousAttempts, hookCalls);
      current := exchange.next;
    }
  }

  /** A fetcher: the URL asked for, the hook, and the response the fetch ended with. */
  class UrlFetcher {
    const url: string
    const redirectHook: Option<Hook>
    const response: Response

    constructor (url: string, redirectHook: Option<Hook>, response: Response)
      ensures this.url == url && this.redirectHook == redirectHook && this.response == response
    {
      this.url := url;
      this.redirectHook := redirectHook;
      this.response := response;
    }

    /**
     * UrlFetcher.new: the caller's options merged over the defaults, then the fetch; an object
     * exists only when the fetch raised nothing.
     */
    static method New(url: string, options: Options, redirectHook: Option<Hook>, transport: Transport)
      returns (r: Result<UrlFetcher, Raised>)
      ensures var o := Fetch(url, Merge(DefaultOptions(), options), redirectHook, transport);
        match o.result
        case Success(response) =>
          r.Success? && fresh(r.value) && r.value.url == url
          && r.value.redirectHook == redirectHook && r.value.response == response
        case Failure(e) => r == Failure(e)
    {
      var outcome := FetchResponse(url, Merge(DefaultOptions(), options), redirectHook, transport);
      match outcome.result
      case Success(response) =>
        var fetcher := new UrlFetcher(url, redirectHook, response);
        r := Success(fetcher);
      case Failure(e) =>
        r := Failure(e);
    }

    /** success?: the response is a 2xx. */
    predicate IsSuccess()
      ensures IsSuccess() ==> !RedirectionStatus(response.status)
    {
      SuccessStatus(response.status)
    }

    /** redirect?: the response is a 3xx, which a fetch only ends with when it did not follow it. */
    predicate IsRedirect()
      ensures IsRedirect() ==> !SuccessStatus(response.status)
    {
      RedirectionStatus(response.status)
    }

    /** body: the stored body of a successful response, nil otherwise. */
    function Body(): (b: Option<seq<byte>>)
      ensures IsSuccess() ==> b == response.body
      ensures !IsSuccess() ==> b.None?
    {
      if IsSuccess() then response.body else None
    }

    /** header(name): the response's field of that name, in any letter case. */
    function Header(name: string): (v: Option<string>)
      ensures v.Some? <==> Downcase(name) in response.headers
      ensures v.Some? ==> v.value == response.headers[Downcase(name)]
    {
      Http.Header(response.headers, name)
    }
  }
}
