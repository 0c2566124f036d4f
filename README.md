# url_fetcher in Dafny

A model of the Ruby `UrlFetcher` class. The class fetches a URL over HTTP, follows redirects, and stores the body of a successful response. The model covers four things:

- the redirect-following state machine of `fetch_response`:
  - the attempt ceiling;
  - the circular-redirect check against every URL requested so far;
  - status classification;
  - the declared-size check;
  - Location resolution;
  - the redirect hook's veto;
- the option defaults and the merge done in `initialize`;
- the accessors `success?`, `redirect?`, `body` and `header`;
- the error family `UrlFetcher::Error`, with `TooManyRedirects` and `CircularRedirect` and their messages.

Modules, one per file:

- `Wrappers` (wrappers.dfy): `Option` and `Result`.
- `Ruby` (ruby.dfy): the Ruby behaviour the fetcher relies on:
  - Ruby values and truthiness, where only `nil` and `false` are falsy;
  - `Integer#to_s` for interpolation;
  - `String#to_i`;
  - ASCII `String#downcase`.
- `Http` (http.dfy): what the fetcher sees of Net::HTTP:
  - the 2xx and 3xx response classes;
  - header fields, looked up case-insensitively;
  - the request built and the response delivered.
- `Options` (options.dfy): the option hash, its defaults, `Hash#merge`, and the `||` defaults applied when it is read.
- `Urls` (urls.dfy): URLs as strings, split into scheme, host, port and rest, and the resolution of a Location value against the URL just requested.
- `Errors` (errors.dfy): the two error classes as the variants of one datatype, each with its `to_s`.
- `Fetcher` (fetch.dfy): the fetch itself and the `UrlFetcher` class. It has four parts:
  - `Exchange` is one request and the handling of its response.
  - `FetchFrom` is the recursive `fetch_response`, threading the attempts list. It is the specification.
  - `FetchResponse` is the fetch as a loop that appends to the attempts list in place. It is proved equal to `FetchFrom`.
  - `UrlFetcher.New` is the constructor: merge the options, fetch, and keep the response.
- `FetchProperties` (properties.dfy): the properties of a whole fetch.

External parts become parameters:

- **The transport.** `Net::HTTP` connection setup, TLS and the request call are a total function from the request built to either a delivered response or a network failure.
  - A delivered response carries its status, header fields, and whether its response class permits a body.
  - It carries its body bytes only when the exchange brought any. That a HEAD exchange brings none is left to the transport: nothing in the model enforces it.
- **The redirect hook.** The hook is a block, and a block can keep state. So it is modelled as a function of every location passed to it so far, with the current location last. The Ruby value it returns is kept, and only `false` stops the fetch.

The model follows the code's order of steps:

- The hook is called with the resolved location before the recursive call makes its own ceiling and circular checks (lib/url_fetcher.rb:107-108, then :59-65). A self-redirect therefore calls the hook once and then raises `CircularRedirect`.
- A location the hook vetoed is never appended to the attempts list. The list grows only when a request is issued (:67).
- There is no separate attempt counter. The ceiling compares the size of the attempts list with 5.
- The size check depends on the response class, not on the verb: a HEAD request whose 2xx response declares a length over the limit still fails with "File too big".

`UrlFetcher.new` either raises or gives a fetcher. So `UrlFetcher.New` returns a `Result`: either a fresh `UrlFetcher` holding the final response, or a `Failure` carrying the exception raised, a value of the datatype `Raised`.

To verify the project, give Dafny all files at once:

```
dafny verify --resource-limit 2000000 --verification-time-limit 0 wrappers.dfy ruby.dfy http.dfy options.dfy urls.dfy errors.dfy fetch.dfy properties.dfy
```

## Model

| member | source | states |
|---|---|---|
| Fetcher.FetchFrom | lib/url_fetcher.rb:58-112 | `fetch_response` with its attempts list threaded through the recursion. This function is the specification: FetchTrace, FetchFromEnd, FetchSucceeds, FetchFails and FetchVetoIsLast state what it computes. |
| Fetcher.Vetoes | lib/url_fetcher.rb:107 | Whether the hook's answer stops the fetch. OnlyFalseVetoes states both directions: a literal `false` is a veto, and nothing else is. |
| Fetcher.Fetch | lib/url_fetcher.rb:29 | The fetch `initialize` starts (the call of :58): `fetch_response` from the URL asked for, with an empty attempts list and no hook calls yet. FetchTrace, FetchSucceeds, FetchFails and FetchVetoIsLast state what it computes. |
| Fetcher.OnlyFalseVetoes | lib/url_fetcher.rb:107 | A fetch without a hook is never vetoed, and neither is one whose hook returns `nil` or a truthy value. A literal `false` from a present hook is a veto, and a veto is always a falsy answer. |
| Fetcher.FetchResponse | lib/url_fetcher.rb:58-112 | The loop returns exactly what the recursive fetch `Fetch` does: the same result, the same attempts list and the same hook calls. |
| FetchProperties.FetchFromAppends | lib/url_fetcher.rb:58-67 | One call only extends the attempts list and the hook log, and keeps both prefixes. The list stays within 6 entries. It grows exactly when the ceiling and circular checks pass, and then its next entry is the URL requested. Distinct entries stay distinct. Without a hook, the hook log does not change. |
| FetchProperties.FetchFromLinks | lib/url_fetcher.rb:100-108 | Each URL requested after the first is the resolved redirect target of the request before it. |
| FetchProperties.FetchFromHookTargets | lib/url_fetcher.rb:107-108 | With a hook, the k-th location passed to it is the redirect target of the k-th request. There are never more hook calls than requests. |
| FetchProperties.FetchFromHookCount | lib/url_fetcher.rb:100-108 | With a hook, request k is followed by a hook call exactly when its response was a followed redirect. |
| FetchProperties.FetchFromVetoIsLast | lib/url_fetcher.rb:107-108 | Within one call, no hook call except the last can have been a veto: every hook call that is followed by a further request let the fetch go on. |
| FetchProperties.FetchFromVetoIsLastFromStart | lib/url_fetcher.rb:100-108 | From an empty attempts list: each request after the first was preceded by a hook call that was not a veto. |
| FetchProperties.FetchVetoIsLast | lib/url_fetcher.rb:107-108 | In a whole fetch with a hook, each request after the first follows a hook call, and none of those hook calls was a veto. So a `false` from any hook call, not only the first, ends the fetch. |
| FetchProperties.FetchTrace | lib/url_fetcher.rb:58-112 | A whole fetch makes 1 to 6 requests. It starts with the URL asked for and requests no URL twice. Each request after the first goes to the previous one's redirect target. Without a hook, the hook is never called. With a hook, it is called once per followed redirect, with the resolved location, in chain order. |
| FetchProperties.FetchFromEnd | lib/url_fetcher.rb:59-111 | How a call that issues a request ends, in terms of the last request. Either it ends with that request's own result, or, after its redirect, in one of three ways: the hook's last call got the target, a `false` veto returns the redirect response, or the next call raises — TooManyRedirects of the first URL once 6 requests were made, otherwise CircularRedirect of the first URL for a target already requested. |
| FetchProperties.FetchSucceeds | lib/url_fetcher.rb:87-111 | A fetch that raises nothing ends on a 2xx or a 3xx response. A 3xx with redirects followed is returned only when the hook returned `false`, and then it has no body. |
| FetchProperties.FetchFails | lib/url_fetcher.rb:58-93 | A fetch that raises a fetcher error does so after a followed redirect. The error is TooManyRedirects(url, 5) once 6 requests were made, and CircularRedirect(url) before that, where url is the URL asked for. Any other failure is the last request's own failure. |
| FetchProperties.FetchFromFails | lib/url_fetcher.rb:58-65 | The same as FetchFails, for any exchange whose own failures are never fetcher errors. |
| FetchProperties.ChainHitsCeiling | lib/url_fetcher.rb:59-61 | Along a chain of redirects through distinct URLs, the call reached after the sixth request raises TooManyRedirects(first URL, 5). The attempts list is then exactly the six URLs. |
| FetchProperties.SixRedirectsExceedCeiling | spec/url_fetcher_spec.rb:102-107 | Six redirects in a row with no hook: exactly six requests are made, then TooManyRedirects(url, 5) is raised. |
| FetchProperties.SelfRedirectIsCircular | spec/url_fetcher_spec.rb:97-100 | A URL that redirects to itself: one request, one hook call with the URL when a hook is given, then CircularRedirect(url). |
| FetchProperties.FollowDisabled | spec/url_fetcher_spec.rb:57-63 | With `:follow_redirects` falsy: one request, the hook never called, and the first response's result, a 3xx included, is the result. |
| FetchProperties.HookFalseStopsFetch | spec/url_fetcher_spec.rb:81-95 | A hook that returns false for the first location: one request, one hook call, and the redirect response as the result. |
| FetchProperties.SuccessFetcherHasBody | lib/url_fetcher.rb:33-50 | A fetcher left on a 2xx reports `success?`, not `redirect?`, and its body is the stored one. |
| FetchProperties.RedirectFetcherHasNoBody | lib/url_fetcher.rb:33-50 | A fetcher left on a 3xx reports `redirect?`, not `success?`, and its body is nil. |
| FetchProperties.SizeBound | lib/url_fetcher.rb:91-93 | For a 2xx whose class permits a body and an Integer limit, the response is read exactly when the declared length is at most the limit, so a length equal to the limit is read. The stored body is the one delivered. Otherwise the RuntimeError message names the declared length. |
| FetchProperties.ContentLengthReadsDecimal | lib/url_fetcher.rb:92 | A Content-Length field written as a decimal integer is read as that integer. |
| FetchProperties.HeadRequestSizeChecked | lib/url_fetcher.rb:91-93 | A HEAD request whose 2xx response declares more than the limit still fails with "File too big (N bytes)". |
| Fetcher.Exchange | lib/url_fetcher.rb:68-106 | One request. What it does depends on what the transport returns for the request built. A network failure ends the exchange with that failure. A delivered response ends it with Receive's result, except a received 3xx with redirects followed. Such a 3xx redirects to `Resolve(location, url)` when it has a Location field, and raises NoMethodError when it has none. So a redirect always carries a 3xx without a body, an ended success is a 2xx or an unfollowed 3xx, and the exchange never raises a fetcher error. |
| Fetcher.Receive | lib/url_fetcher.rb:87-98 | A status outside 2xx and 3xx raises the HTTP error before anything else. Status and headers are kept. A 3xx, or a 2xx whose class permits no body, is kept without a body. For a 2xx with a permitted body: an Integer `max_size` below the declared length raises "File too big", otherwise the body is read; a `true`, Symbol or String limit raises ArgumentError, as `Integer#>` does. |
| Fetcher.MakeRequest | lib/url_fetcher.rb:70-85 | The request goes to the URL with the verb the options select. TLS is used exactly when the scheme is "https". The two timeouts are the option values with their defaults, and both are truthy. |
| Fetcher.ContentLength | lib/url_fetcher.rb:92 | An absent Content-Length field counts as 0. |
| Fetcher.FileTooBigMessage | lib/url_fetcher.rb:93 | The size error message starts with "File too big (" and ends with " bytes)". |
| Fetcher.FileTooBigMessageNamesLength | lib/url_fetcher.rb:93 | The size error message starts with "File too big (" and the length after it reads back as the declared length. |
| Fetcher.UrlFetcher.New | lib/url_fetcher.rb:25-30 | Merges the caller's options over the defaults and fetches. If the fetch raised nothing, the result is a fresh fetcher holding the URL, the hook and the final response. Otherwise it is the failure raised. |
| Fetcher.UrlFetcher.constructor | lib/url_fetcher.rb:26-29 | Sets the URL, the hook and the response. |
| Fetcher.UrlFetcher.IsSuccess | lib/url_fetcher.rb:48-50 | `success?` (a 2xx) excludes `redirect?` (a 3xx). |
| Fetcher.UrlFetcher.IsRedirect | lib/url_fetcher.rb:43-45 | `redirect?` (a 3xx) excludes `success?`. |
| Fetcher.UrlFetcher.Body | lib/url_fetcher.rb:33-35 | On success the stored body is returned. Otherwise the result is nil. |
| Fetcher.UrlFetcher.Header | lib/url_fetcher.rb:38-40 | A field is found exactly when its downcased name is stored, and then its value is returned. |
| Http.SuccessStatus | lib/url_fetcher.rb:49 | `Net::HTTPSuccess`, also checked with `is_a?` at :88 and :91: the statuses 200 to 299. |
| Http.RedirectionStatus | lib/url_fetcher.rb:44 | `Net::HTTPRedirection`, also checked with `is_a?` at :88 and :100: the statuses 300 to 399. |
| Ruby.Truthy | lib/url_fetcher.rb:71 | Ruby truthiness, as `||` here and the conditions at :100 and :107 use it: only `nil` and `false` are falsy. |
| Http.Header | lib/url_fetcher.rb:39 | A field is found exactly when its downcased name is stored, and then its value is returned. |
| Http.HeaderIgnoresCase | lib/url_fetcher.rb:38-40 | Two names of the same length whose characters agree once each is lower-cased find the same field. |
| Http.ContentLengthNameIgnoresCase | spec/url_fetcher_spec.rb:10 | `header("content-length")` finds the field sent as "Content-Length". |
| Options.DefaultOptions | lib/url_fetcher.rb:54-56 | The defaults have exactly the keys `:unlink`, `:follow_redirects` and `:method`, with the values `true`, `true` and `:get`. |
| Options.Lookup | lib/url_fetcher.rb:71 | `Hash#[]`: a missing key reads as nil, and a present key reads as its value. |
| Options.FollowsRedirects | lib/url_fetcher.rb:100 | Redirects are not followed when `:follow_redirects` is missing or `false`. They are followed when it is an Integer or a String, including 0 and "". |
| Options.Merge | lib/url_fetcher.rb:28 | The merged hash has the keys of both hashes. The caller's value wins where both have one, and the default is kept where the caller has none. |
| Options.MergedDefaults | lib/url_fetcher.rb:54-56 | After the merge: redirects are followed unless the caller gave a falsy `:follow_redirects`, the verb is GET without `:method`, the size limit is 10 megabytes without `:max_size`, and `:unlink` is true without `:unlink`. |
| Options.RequestVerb | lib/url_fetcher.rb:78-85 | HEAD exactly for `:head`, POST exactly for `:post`, otherwise GET. |
| Options.MaxSizeLimit | lib/url_fetcher.rb:93 | A truthy `:max_size` is used as given. Otherwise the limit is 10 * 1048576. |
| Options.ReadTimeoutValue | lib/url_fetcher.rb:71 | The read timeout is a truthy caller's value as given, and 20 when the caller's value is falsy. |
| Options.OpenTimeoutValue | lib/url_fetcher.rb:72 | The open timeout is a truthy caller's value as given, and 10 when the caller's value is falsy. |
| Urls.Resolve | lib/url_fetcher.rb:102 | A Location containing ':' anywhere is used unchanged. |
| Urls.ResolvedRelative | lib/url_fetcher.rb:102-106 | A Location without ':' resolves to a URL with the scheme and host of the requested URL, no port, and the Location's own path and query. |
| Urls.FirstIndexIn | lib/url_fetcher.rb:68 | The first index of a character in the set, or the length when there is none. |
| Urls.SchemeOf | lib/url_fetcher.rb:73 | The scheme contains no ':', '/', '?' or '#'. |
| Urls.HostOf | lib/url_fetcher.rb:105 | The host contains no ':', '/', '?' or '#'. |
| Urls.SchemeSplit | lib/url_fetcher.rb:104 | A URL written as a scheme without delimiters, then ':', has that scheme, and the rest after the ':'. |
| Urls.AuthoritySplit | lib/url_fetcher.rb:105 | After the scheme, "//" + host + path, where the host has no delimiters and the path is empty or starts with one, gives that authority and that rest. |
| Urls.HostSplit | lib/url_fetcher.rb:105 | An authority without ':' is all host, and the port is empty. |
| Urls.PathAndQuery | lib/url_fetcher.rb:103 | A reference that does not start with "//" is kept whole. One that does splits as "//" + authority + rest: the authority holds no '/', '?' or '#', and the rest is empty or starts with one of them. |
| Errors.Error.Message | lib/url_fetcher/errors.rb:11-25 | Each message starts with the error's URL. A TooManyRedirects message goes on with " has too many redirects (over " and ends with ")."; a CircularRedirect message goes on with " has a redirect loop." and nothing else. |
| Errors.TooManyMessageNamesCount | lib/url_fetcher/errors.rb:12 | The number after "has too many redirects (over " reads back as the stored attempt count. |
| Errors.TooManyMessageInjective | lib/url_fetcher/errors.rb:6-13 | For one URL, the TooManyRedirects message determines the attempt count. |
| Errors.CircularMessageInjective | lib/url_fetcher/errors.rb:18-26 | The CircularRedirect message determines the URL. |
| Errors.MessagesTellKindsApart | lib/url_fetcher/errors.rb:11-25 | A TooManyRedirects message never equals a CircularRedirect message. |
| Ruby.ToI | lib/url_fetcher.rb:92 | `String#to_i` of a string without any digit is 0. The lemma ToIOfIntToString gives its other direction. |
| Ruby.IntToString | lib/url_fetcher.rb:93 | `Integer#to_s` is a non-empty digit string for a non-negative integer, and '-' followed by digits for a negative one. |
| Ruby.ToIOfIntToString | lib/url_fetcher.rb:92-93 | `to_i` reads back what `to_s` wrote, followed by any text that does not start with a digit. |
| Ruby.IntToStringInjective | lib/url_fetcher/errors.rb:12 | Distinct integers print differently. |
| Ruby.NatToString | lib/url_fetcher/errors.rb:12 | The decimal form of a count is a non-empty digit string without a leading zero. |
| Ruby.DigitsValueOfNatToString | lib/url_fetcher/errors.rb:12 | Reading the decimal form of a count gives back the count. |
| Ruby.Downcase | lib/url_fetcher.rb:39 | Downcasing keeps the length and lower-cases each ASCII letter in place. |

## Left out

- Net::HTTP itself is not modelled: connection setup, the per-status response classes and their `body_permitted?` table, and the timeouts taking effect (lib/url_fetcher.rb:70-72, 87). The transport parameter stands for all of it, and whether a class permits a body is a field of the delivered response.
- The HEAD exchange carrying no body happens inside Net::HTTP. In the model it is left to the transport: nothing constrains a transport to deliver no body bytes for HEAD.
- A redirect hook that raises is not expressible: the hook is a total function. In the source such an exception propagates out of `UrlFetcher.new` from lib/url_fetcher.rb:107.
- TLS: `use_ssl` becomes a flag on the request. `verify_mode = VERIFY_NONE` (lib/url_fetcher.rb:75) is not modelled. It turns certificate verification off, which is a security weakness of the source.
- Tempfile I/O (lib/url_fetcher.rb:94-96): creating the file, streaming the body into it, and closing it. The model keeps only the bytes read. They are present only when the size check passed, and only when the exchange delivered body bytes; whether a HEAD exchange delivers any is up to the transport.
- URI parsing internals. `URI(url)` and `Addressable::URI.parse` are replaced by a plain string split. The model does not capture:
  - URIs those libraries reject;
  - userinfo;
  - relative paths without a leading '/';
  - IPv6 literal hosts: the host is taken up to the first ':', so for "http://[::1]:8080/a" it is "[" where Ruby's URI gives "[::1]", and a relative Location from such a URL resolves against "[" (lib/url_fetcher.rb:105);
  - the normalisation done by `to_s`;
  - the lower-casing of the scheme: Ruby's URI downcases it, so "HTTPS://…" gets `use_ssl` (lib/url_fetcher.rb:73) and a relative Location gets the scheme "https" (lib/url_fetcher.rb:104). MakeRequest and Resolve use the scheme as written.
- For a relative Location, the source passes an `Addressable::URI` object, not a string, to the next call. Whether `include?` then matches it against the stored strings is library behaviour (lib/url_fetcher.rb:63, 103, 108). The model compares resolved locations as strings.
- `String#to_i` is modelled without underscores between digits. `String#downcase` is modelled on ASCII letters only.
- A header field that was sent several times is not joined. Each name holds one value.
- The status is an unbounded integer, and it is classified by its range as Net::HTTP does for 2xx and 3xx.
- Ruby Floats and Rationals are not among the modelled values. So the model cannot express a `:max_size`, `:read_timeout` or `:open_timeout` given as a Float, such as `1e7` or `0.5`. `Integer#>` would compare with a Float without raising.
- The `Headers` type holds only lower-cased field names, which is how Net::HTTP stores them. So the model does not capture a transport that could deliver a mixed-case key.
- Option keys the source never reads are not part of the option hash's key type.
- `:unlink` is defaulted (lib/url_fetcher.rb:55) but never read by the code, so it has no effect in the model either.
- There is no `UrlFetcher::FileTooBig` class. The source raises a plain RuntimeError with the message "File too big (N bytes)" (lib/url_fetcher.rb:93), and the model does the same.
- `close`, `closed?` and `body.path` appear only in the tests (spec/url_fetcher_spec.rb:11-16, 121-123). The code does not define them.
- `Net::HTTPResponse#value`: the HTTP error class it raises for each status is reduced to `HttpError(status)`.
- Errors.Error: the ancestry of the family (a StandardError subclass) is modelled by the two variants sharing one datatype. Nothing else in Ruby's exception machinery is modelled.
- Urls.Resolve: its contract states only the absolute case. The relative case is stated by the lemma Urls.ResolvedRelative.
