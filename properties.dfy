/** What a fetch guarantees: its request log, how it ends, and the scenarios the source promises. */
module FetchProperties {
  import opened Wrappers
  import opened Ruby
  import opened Http
  import opened Options
  import opened Urls
  import opened Errors
  import opened Fetcher

  ghost predicate NoDuplicates(s: seq<string>)
  {
    forall i, j :: 0 <= i < j < |s| ==> s[i] != s[j]
  }

  /** Where a request for this URL redirects the fetch, if it does. */
  ghost function RedirectTarget(url: string, exchange: Exchanger): Option<string>
  {
    match exchange(url)
    case Redirected(_, next) => Some(next)
    case Ended(_) => None
  }

  /** Each URL of the chain is where the request for the one before it redirected. */
  ghost predicate Linked(chain: seq<string>, exchange: Exchanger)
  {
    forall i :: 0 <= i < |chain| - 1 ==> RedirectTarget(chain[i], exchange) == Some(chain[i + 1])
  }

  /** The hook was given, in order, exactly the resolved targets of the redirects in the chain. */
  ghost predicate HookLog(calls: seq<string>, chain: seq<string>, exchange: Exchanger)
  {
    && |calls| <= |chain|
    && (forall j :: 0 <= j < |calls| ==> RedirectTarget(chain[j], exchange) == Some(calls[j]))
    && (forall j :: 0 <= j < |chain| ==> (j < |calls| <==> RedirectTarget(chain[j], exchange).Some?))
  }

  /**
   * Every hook call that a further request followed was made and was not a veto: of the hook
   * calls, only the last can have returned `false`.
   */
  ghost predicate NoEarlyVeto(o: Outcome, hook: Option<Hook>)
  {
    forall n {:trigger o.hookCalls[..n]} :: 0 < n < |o.visited| ==>
      n <= |o.hookCalls| && !Vetoes(hook, o.hookCalls[..n])
  }

  /** A suffix of a sequence is its first element followed by the rest. */
  lemma SuffixSplit(s: seq<string>, k: nat)
    requires k < |s|
    ensures s[k..] == [s[k]] + s[k + 1..]
  {
  }

  /** What one fetch call appends to the attempts list and to the hook's log, and what it keeps. */
  lemma {:induction false} FetchFromAppends(url: string, exchange: Exchanger, hook: Option<Hook>,
                                            visited: seq<string>, hookCalls: seq<string>)
    requires |visited| <= MAX_ATTEMPTS + 1
    ensures var o := FetchFrom(url, exchange, hook, visited, hookCalls);
      && |visited| <= |o.visited| <= MAX_ATTEMPTS + 1
      && o.visited[..|visited|] == visited
      && |hookCalls| <= |o.hookCalls| && o.hookCalls[..|hookCalls|] == hookCalls
      && (|visited| <= MAX_ATTEMPTS && url !in visited <==> |o.visited| > |visited|)
      && (|o.visited| > |visited| ==> o.visited[|visited|] == url)
      && (NoDuplicates(visited) ==> NoDuplicates(o.visited))
      && (hook.None? ==> o.hookCalls == hookCalls)
    decreases MAX_ATTEMPTS + 1 - |visited|
  {
    if |visited| <= MAX_ATTEMPTS && url !in visited {
      var attempts := visited + [url];
      match exchange(url)
      case Ended(_) =>
      case Redirected(response, next) =>
        var calls := if hook.Some? then hookCalls + [next] else hookCalls;
        if !Vetoes(hook, calls) {
          FetchFromAppends(next, exchange, hook, attempts, calls);
          var o := FetchFrom(next, exchange, hook, attempts, calls);
          assert FetchFrom(url, exchange, hook, visited, hookCalls) == o;
          assert o.visited[..|visited|] == o.visited[..|attempts|][..|visited|];
          assert o.visited[|visited|] == o.visited[..|attempts|][|visited|] == url;
          assert o.hookCalls[..|hookCalls|] == o.hookCalls[..|calls|][..|hookCalls|];
          assert NoDuplicates(visited) ==> NoDuplicates(attempts);
        }
    }
  }

  /** Each URL one fetch call requests after the first is the redirect target of the one before. */
  lemma {:induction false} FetchFromLinks(url: string, exchange: Exchanger, hook: Option<Hook>,
                                          visited: seq<string>, hookCalls: seq<string>)
    requires |visited| <= MAX_ATTEMPTS + 1
    ensures var o := FetchFrom(url, exchange, hook, visited, hookCalls);
      |visited| <= |o.visited| && Linked(o.visited[|visited|..], exchange)
    decreases MAX_ATTEMPTS + 1 - |visited|
  {
    FetchFromAppends(url, exchange, hook, visited, hookCalls);
    if |visited| <= MAX_ATTEMPTS && url !in visited {
      var attempts := visited + [url];
      match exchange(url)
      case Ended(_) =>
        assert attempts[|visited|..] == [url];
      case Redirected(response, next) =>
        var calls := if hook.Some? then hookCalls + [next] else hookCalls;
        if Vetoes(hook, calls) {
          assert attempts[|visited|..] == [url];
        } else {
          FetchFromLinks(next, exchange, hook, attempts, calls);
          FetchFromAppends(next, exchange, hook, attempts, calls);
          var o := FetchFrom(next, exchange, hook, attempts, calls);
          assert FetchFrom(url, exchange, hook, visited, hookCalls) == o;
          var chain, rest := o.visited[|visited|..], o.visited[|attempts|..];
          SuffixSplit(o.visited, |visited|);
          assert chain == [url] + rest;
          assert RedirectTarget(url, exchange) == Some(next);
          forall i | 0 <= i < |chain| - 1
            ensures RedirectTarget(chain[i], exchange) == Some(chain[i + 1])
          {
            if i == 0 {
              assert chain[1] == rest[0] == next;
            } else {
              assert chain[i] == rest[i - 1] && chain[i + 1] == rest[i];
            }
          }
        }
    }
  }

  /** With a hook, each call one fetch call makes to it is given the target of the matching request. */
  lemma {:induction false} FetchFromHookTargets(url: string, exchange: Exchanger, hook: Option<Hook>,
                                                visited: seq<string>, hookCalls: seq<string>)
    requires |visited| <= MAX_ATTEMPTS + 1
    requires hook.Some?
    ensures var o := FetchFrom(url, exchange, hook, visited, hookCalls);
      && |visited| <= |o.visited| && |hookCalls| <= |o.hookCalls|
      && var chain, log := o.visited[|visited|..], o.hookCalls[|hookCalls|..];
      && |log| <= |chain|
      && forall j :: 0 <= j < |log| ==> RedirectTarget(chain[j], exchange) == Some(log[j])
    decreases MAX_ATTEMPTS + 1 - |visited|
  {
    FetchFromAppends(url, exchange, hook, visited, hookCalls);
    if |visited| <= MAX_ATTEMPTS && url !in visited {
      var attempts := visited + [url];
      match exchange(url)
      case Ended(_) =>
        assert hookCalls[|hookCalls|..] == [];
      case Redirected(response, next) =>
        var calls := hookCalls + [next];
        if Vetoes(hook, calls) {
          assert attempts[|visited|..] == [url];
          assert calls[|hookCalls|..] == [next];
        } else {
          FetchFromHookTargets(next, exchange, hook, attempts, calls);
          FetchFromAppends(next, exchange, hook, attempts, calls);
          var o := FetchFrom(next, exchange, hook, attempts, calls);
          assert FetchFrom(url, exchange, hook, visited, hookCalls) == o;
          var chain, rest := o.visited[|visited|..], o.visited[|attempts|..];
          var log, restLog := o.hookCalls[|hookCalls|..], o.hookCalls[|calls|..];
          SuffixSplit(o.visited, |visited|);
          assert chain == [url] + rest;
          assert log == [next] + restLog;
          forall j | 0 <= j < |log|
            ensures RedirectTarget(chain[j], exchange) == Some(log[j])
          {
            if j > 0 {
              assert chain[j] == rest[j - 1] && log[j] == restLog[j - 1];
            }
          }
        }
    }
  }

  /** With a hook, one fetch call calls it once for each of its requests that was redirected. */
  lemma {:induction false} FetchFromHookCount(url: string, exchange: Exchanger, hook: Option<Hook>,
                                              visited: seq<string>, hookCalls: seq<string>)
    requires |visited| <= MAX_ATTEMPTS + 1
    requires hook.Some?
    ensures var o := FetchFrom(url, exchange, hook, visited, hookCalls);
      && |visited| <= |o.visited| && |hookCalls| <= |o.hookCalls|
      && var chain, log := o.visited[|visited|..], o.hookCalls[|hookCalls|..];
      forall j :: 0 <= j < |chain| ==> (j < |log| <==> RedirectTarget(chain[j], exchange).Some?)
    decreases MAX_ATTEMPTS + 1 - |visited|
  {
    FetchFromAppends(url, exchange, hook, visited, hookCalls);
    if |visited| <= MAX_ATTEMPTS && url !in visited {
      var attempts := visited + [url];
      match exchange(url)
      case Ended(_) =>
        assert attempts[|visited|..] == [url];
        assert hookCalls[|hookCalls|..] == [];
      case Redirected(response, next) =>
        var calls := hookCalls + [next];
        if Vetoes(hook, calls) {
          assert attempts[|visited|..] == [url];
          assert calls[|hookCalls|..] == [next];
        } else {
          FetchFromHookCount(next, exchange, hook, attempts, calls);
          FetchFromAppends(next, exchange, hook, attempts, calls);
          var o := FetchFrom(next, exchange, hook, attempts, calls);
          assert FetchFrom(url, exchange, hook, visited, hookCalls) == o;
          var chain, rest := o.visited[|visited|..], o.visited[|attempts|..];
          var log, restLog := o.hookCalls[|hookCalls|..], o.hookCalls[|calls|..];
          SuffixSplit(o.visited, |visited|);
          assert chain == [url] + rest;
          assert |log| == 1 + |restLog|;
          forall j | 0 <= j < |chain|
            ensures j < |log| <==> RedirectTarget(chain[j], exchange).Some?
          {
            if j > 0 {
              assert chain[j] == rest[j - 1];
            }
          }
        }
    }
  }

  /**
   * With a hook, every call to it that one fetch call made and that was followed by a further
   * request was not a veto: a hook call returning `false` is the last thing the fetch does.
   */
  lemma {:induction false} FetchFromVetoIsLast(url: string, exchange: Exchanger, hook: Option<Hook>,
                                               visited: seq<string>, hookCalls: seq<string>)
    requires |visited| <= MAX_ATTEMPTS + 1
    requires hook.Some?
    ensures var o := FetchFrom(url, exchange, hook, visited, hookCalls);
      && |visited| <= |o.visited| && |hookCalls| <= |o.hookCalls|
      && forall n {:trigger o.hookCalls[..n]} ::
           |hookCalls| < n <= |o.hookCalls| && n - |hookCalls| < |o.visited| - |visited| ==>
             !Vetoes(hook, o.hookCalls[..n])
    decreases MAX_ATTEMPTS + 1 - |visited|
  {
    FetchFromAppends(url, exchange, hook, visited, hookCalls);
    if |visited| <= MAX_ATTEMPTS && url !in visited {
      var attempts := visited + [url];
      match exchange(url)
      case Ended(_) =>
      case Redirected(response, next) =>
        var calls := hookCalls + [next];
        if !Vetoes(hook, calls) {
          FetchFromVetoIsLast(next, exchange, hook, attempts, calls);
          FetchFromAppends(next, exchange, hook, attempts, calls);
          var o := FetchFrom(next, exchange, hook, attempts, calls);
          assert FetchFrom(url, exchange, hook, visited, hookCalls) == o;
          assert o.hookCalls[..|calls|] == calls;
        }
    }
  }

  /**
   * A fetch with a hook goes on past every hook call but possibly the last: the n-th call, when a
   * further request followed it, was made and did not return `false`.
   */
  lemma FetchVetoIsLast(url: string, options: Options, hook: Option<Hook>, transport: Transport)
    requires hook.Some?
    ensures NoEarlyVeto(Fetch(url, options, hook, transport), hook)
  {
    var exchange := ExchangeWith(options, transport);
    FetchFromVetoIsLastFromStart(url, exchange, hook);
    assert Fetch(url, options, hook, transport) == FetchFrom(url, exchange, hook, [], []);
  }

  /** FetchVetoIsLast for any exchange, from the first call of a fetch. */
  lemma FetchFromVetoIsLastFromStart(url: string, exchange: Exchanger, hook: Option<Hook>)
    requires hook.Some?
    ensures NoEarlyVeto(FetchFrom(url, exchange, hook, [], []), hook)
  {
    FetchFromVetoIsLast(url, exchange, hook, [], []);
    FetchFromLinks(url, exchange, hook, [], []);
    FetchFromHookCount(url, exchange, hook, [], []);
    var o := FetchFrom(url, exchange, hook, [], []);
    assert o.visited[0..] == o.visited;
    assert o.hookCalls[0..] == o.hookCalls;
    assert Linked(o.visited, exchange);
    if |o.visited| >= 2 {
      var i := |o.visited| - 2;
      assert RedirectTarget(o.visited[i], exchange) == Some(o.visited[i + 1]);
      assert i < |o.hookCalls|;
    }
    assert |o.visited| - 1 <= |o.hookCalls|;
  }

  /**
   * The attempts list of a fetch: it starts with the URL asked for, holds each URL once, at most
   * six in all, each the redirect target of the one before; the hook was called once per redirect
   * response, with its resolved location, in order.
   */
  lemma FetchTrace(url: string, options: Options, hook: Option<Hook>, transport: Transport)
    ensures var o := Fetch(url, options, hook, transport);
      var exchange := ExchangeWith(options, transport);
      && 1 <= |o.visited| <= MAX_ATTEMPTS + 1
      && o.visited[0] == url
      && NoDuplicates(o.visited)
      && Linked(o.visited, exchange)
      && (hook.None? ==> o.hookCalls == [])
      && (hook.Some? ==> HookLog(o.hookCalls, o.visited, exchange))
  {
    var exchange := ExchangeWith(options, transport);
    FetchFromAppends(url, exchange, hook, [], []);
    FetchFromLinks(url, exchange, hook, [], []);
    if hook.Some? {
      FetchFromHookTargets(url, exchange, hook, [], []);
      FetchFromHookCount(url, exchange, hook, [], []);
    }
    var o := Fetch(url, options, hook, transport);
    assert o.visited[0..] == o.visited;
    assert o.hookCalls[0..] == o.hookCalls;
  }

  /**
   * How a fetch call that issues a request ends, in terms of the last request: with that
   * request's own result, or, after a redirect, with the vetoed redirect response, the ceiling
   * error, or the circular error for a target already requested.
   */
  lemma {:induction false} FetchFromEnd(url: string, exchange: Exchanger, hook: Option<Hook>,
                                        visited: seq<string>, hookCalls: seq<string>)
    requires |visited| <= MAX_ATTEMPTS && url !in visited
    ensures var o := FetchFrom(url, exchange, hook, visited, hookCalls);
      && |visited| < |o.visited|
      && match exchange(o.visited[|o.visited| - 1])
         case Ended(result) => o.result == result
         case Redirected(response, next) =>
           && (hook.Some? ==> |o.hookCalls| > 0 && o.hookCalls[|o.hookCalls| - 1] == next)
           && if Vetoes(hook, o.hookCalls) then o.result == Success(response)
              else if |o.visited| > MAX_ATTEMPTS then
                o.result == Failure(FetcherError(TooManyRedirects(o.visited[0], MAX_ATTEMPTS)))
              else
                next in o.visited && o.result == Failure(FetcherError(CircularRedirect(o.visited[0])))
    decreases MAX_ATTEMPTS + 1 - |visited|
  {
    var attempts := visited + [url];
    match exchange(url)
    case Ended(_) =>
    case Redirected(response, next) =>
      var calls := if hook.Some? then hookCalls + [next] else hookCalls;
      if !Vetoes(hook, calls) && |attempts| <= MAX_ATTEMPTS && next !in attempts {
        FetchFromEnd(next, exchange, hook, attempts, calls);
      }
  }

  /**
   * A fetch that raises nothing ends on a 2xx response, or on a 3xx when redirects are off or
   * when the hook returned false for its location; only false stops a followed redirect.
   */
  lemma FetchSucceeds(url: string, options: Options, hook: Option<Hook>, transport: Transport)
    ensures var o := Fetch(url, options, hook, transport);
      o.result.Success? ==>
        && (SuccessStatus(o.result.value.status) || RedirectionStatus(o.result.value.status))
        && (RedirectionStatus(o.result.value.status) && FollowsRedirects(options) ==>
              Vetoes(hook, o.hookCalls) && o.result.value.body.None?)
  {
    var exchange := ExchangeWith(options, transport);
    FetchFromEnd(url, exchange, hook, [], []);
    var o := Fetch(url, options, hook, transport);
    var last := o.visited[|o.visited| - 1];
    assert exchange(last) == Exchange(last, options, transport);
  }

  /**
   * A fetch that raises: after a followed redirect, the ceiling error once six requests were made
   * and the circular error before that, each naming the URL asked for; otherwise the failure of
   * the last request itself.
   */
  lemma FetchFails(url: string, options: Options, hook: Option<Hook>, transport: Transport)
    ensures var o := Fetch(url, options, hook, transport);
      && |o.visited| > 0
      && (o.result.Failure? && o.result.error.FetcherError? ==>
            && ExchangeWith(options, transport)(o.visited[|o.visited| - 1]).Redirected?
            && o.result.error.error ==
                 if |o.visited| > MAX_ATTEMPTS then TooManyRedirects(url, MAX_ATTEMPTS) else CircularRedirect(url))
      && (o.result.Failure? && !o.result.error.FetcherError? ==>
            ExchangeWith(options, transport)(o.visited[|o.visited| - 1]) == Ended(o.result))
  {
    FetchFromFails(url, ExchangeWith(options, transport), hook);
  }

  /** FetchFails for any exchange whose own failures are never the fetcher's errors. */
  lemma FetchFromFails(url: string, exchange: Exchanger, hook: Option<Hook>)
    requires forall u :: exchange(u).Ended? && exchange(u).result.Failure? ==> !exchange(u).result.error.FetcherError?
    ensures var o := FetchFrom(url, exchange, hook, [], []);
      && |o.visited| > 0
      && (o.result.Failure? && o.result.error.FetcherError? ==>
            && exchange(o.visited[|o.visited| - 1]).Redirected?
            && o.result.error.error ==
                 if |o.visited| > MAX_ATTEMPTS then TooManyRedirects(url, MAX_ATTEMPTS) else CircularRedirect(url))
      && (o.result.Failure? && !o.result.error.FetcherError? ==>
            exchange(o.visited[|o.visited| - 1]) == Ended(o.result))
  {
    FetchFromAppends(url, exchange, hook, [], []);
    FetchFromEnd(url, exchange, hook, [], []);
  }

  /** A chain of redirects through distinct URLs ends at the sixth request with the ceiling error. */
  lemma {:induction false} ChainHitsCeiling(chain: seq<string>, exchange: Exchanger, k: nat)
    requires |chain| == MAX_ATTEMPTS + 2
    requires NoDuplicates(chain[..MAX_ATTEMPTS + 1])
    requires Linked(chain, exchange)
    requires k <= MAX_ATTEMPTS + 1
    ensures FetchFrom(chain[k], exchange, None, chain[..k], [])
         == Outcome(Failure(FetcherError(TooManyRedirects(chain[0], MAX_ATTEMPTS))), chain[..MAX_ATTEMPTS + 1], [])
    decreases MAX_ATTEMPTS + 1 - k
  {
    if k <= MAX_ATTEMPTS {
      assert chain[k] !in chain[..k] by {
        forall i | 0 <= i < k ensures chain[..k][i] != chain[k] {
          assert chain[..k][i] == chain[..MAX_ATTEMPTS + 1][i];
          assert chain[k] == chain[..MAX_ATTEMPTS + 1][k];
        }
      }
      assert RedirectTarget(chain[k], exchange) == Some(chain[k + 1]);
      assert chain[..k] + [chain[k]] == chain[..k + 1];
      ChainHitsCeiling(chain, exchange, k + 1);
    }
  }

  /** Six redirects in a row, with no hook: exactly six requests, then TooManyRedirects(url, 5). */
  lemma SixRedirectsExceedCeiling(chain: seq<string>, options: Options, transport: Transport)
    requires |chain| == MAX_ATTEMPTS + 2
    requires NoDuplicates(chain[..MAX_ATTEMPTS + 1])
    requires Linked(chain, ExchangeWith(options, transport))
    ensures Fetch(chain[0], options, None, transport)
         == Outcome(Failure(FetcherError(TooManyRedirects(chain[0], MAX_ATTEMPTS))), chain[..MAX_ATTEMPTS + 1], [])
  {
    ChainHitsCeiling(chain, ExchangeWith(options, transport), 0);
    assert chain[..0] == [];
  }

  /** A URL that redirects to itself: one request, the hook called once, then CircularRedirect. */
  lemma SelfRedirectIsCircular(url: string, options: Options, hook: Option<Hook>, transport: Transport, response: Response)
    requires Exchange(url, options, transport) == Redirected(response, url)
    requires !Vetoes(hook, if hook.Some? then [url] else [])
    ensures Fetch(url, options, hook, transport)
         == Outcome(Failure(FetcherError(CircularRedirect(url))), [url], if hook.Some? then [url] else [])
  {
    assert [] + [url] == [url];
  }

  /** With redirects off, the first response is the result, and the hook is never called. */
  lemma FollowDisabled(url: string, options: Options, hook: Option<Hook>, transport: Transport)
    requires !FollowsRedirects(options)
    ensures var o := Fetch(url, options, hook, transport);
      && o.visited == [url] && o.hookCalls == []
      && Exchange(url, options, transport) == Ended(o.result)
  {
  }

  /** A 2xx response with a body is read exactly when its declared length is at most the limit. */
  lemma SizeBound(raw: RawResponse, options: Options, limit: int)
    requires SuccessStatus(raw.status) && raw.bodyPermitted
    requires MaxSizeLimit(options) == Int(limit)
    ensures Receive(raw, options).Success? <==> ContentLength(raw.headers) <= limit
    ensures Receive(raw, options).Success? ==> Receive(raw, options).value.body == raw.body
    ensures Receive(raw, options).Failure? ==>
      && Receive(raw, options).error.RuntimeError?
      && ToI(Receive(raw, options).error.message[|TOO_BIG_PREFIX|..]) == ContentLength(raw.headers)
  {
    FileTooBigMessageNamesLength(ContentLength(raw.headers));
  }

  /** A Content-Length written as a decimal number is read as that number. */
  lemma ContentLengthReadsDecimal(headers: Headers, n: int)
    requires Header(headers, "Content-Length") == Some(IntToString(n))
    ensures ContentLength(headers) == n
  {
    ToIOfIntToString(n, []);
    assert IntToString(n) + [] == IntToString(n);
  }

  /**
   * The size check is keyed on the response class, not on the verb: a HEAD request whose 2xx
   * response declares more than the limit still fails with "File too big".
   */
  lemma HeadRequestSizeChecked(url: string, options: Options, transport: Transport, raw: RawResponse, limit: int)
    requires RequestVerb(options) == Head
    requires transport(MakeRequest(url, options)) == Delivered(raw)
    requires SuccessStatus(raw.status) && raw.bodyPermitted
    requires MaxSizeLimit(options) == Int(limit) && ContentLength(raw.headers) > limit
    ensures Fetch(url, options, None, transport).result == Failure(RuntimeError(FileTooBigMessage(ContentLength(raw.headers))))
  {
  }

  /** A hook that returns false for the first location: one request, the redirect response kept. */
  lemma HookFalseStopsFetch(url: string, options: Options, hook: Hook, transport: Transport, response: Response, next: string)
    requires Exchange(url, options, transport) == Redirected(response, next)
    requires hook([next]) == Bool(false)
    ensures Fetch(url, options, Some(hook), transport) == Outcome(Success(response), [url], [next])
  {
    assert [] + [next] == [next];
  }

  /** A fetcher left on a redirect reports redirect?, not success?, and has no body. */
  lemma RedirectFetcherHasNoBody(f: UrlFetcher)
    requires RedirectionStatus(f.response.status)
    ensures f.IsRedirect() && !f.IsSuccess() && f.Body() == None
  {
  }

  /** A fetcher left on a 2xx reports success?, not redirect?, and its body is the one stored. */
  lemma SuccessFetcherHasBody(f: UrlFetcher)
    requires SuccessStatus(f.response.status)
    ensures f.IsSuccess() && !f.IsRedirect() && f.Body() == f.response.body
  {
  }
}
