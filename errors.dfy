/**
 * The fetcher's own exception family (UrlFetcher::Error, a StandardError): one datatype whose
 * variants are its two subclasses, each holding exactly what it was constructed with.
 */
module Errors {
  import opened Ruby

  datatype Error =
    | TooManyRedirects(url: string, maxAttempts: int)
    | CircularRedirect(url: string)
  {
    /** to_s: the URL first, then what went wrong. */
    function Message(): (m: string)
      ensures |m| > |url| && m[..|url|] == url
      ensures TooManyRedirects? ==>
        && |m| >= |url| + |TOO_MANY_TEXT| + 3
        && m[|url|..|url| + |TOO_MANY_TEXT|] == TOO_MANY_TEXT
        && m[|m| - 2..] == ")."
      ensures CircularRedirect? ==> m[|url|..] == LOOP_TEXT
    {
      match this
      case TooManyRedirects(u, n) => u + TOO_MANY_TEXT + IntToString(n) + ")."
      case CircularRedirect(u) => u + LOOP_TEXT
    }
  }

  const TOO_MANY_TEXT: string := " has too many redirects (over "
  const LOOP_TEXT: string := " has a redirect loop."

  /** The attempt count in a TooManyRedirects message reads back with String#to_i. */
  lemma TooManyMessageNamesCount(u: string, n: int)
    ensures var m := TooManyRedirects(u, n).Message();
      |m| >= |u| + |TOO_MANY_TEXT| && ToI(m[|u| + |TOO_MANY_TEXT|..]) == n
  {
    var m := TooManyRedirects(u, n).Message();
    assert m == u + TOO_MANY_TEXT + (IntToString(n) + ").");
    assert m[|u| + |TOO_MANY_TEXT|..] == IntToString(n) + ").";
    ToIOfIntToString(n, ").");
  }

  /** For one URL, the TooManyRedirects message determines the attempt count. */
  lemma TooManyMessageInjective(u: string, n: int, k: int)
    requires TooManyRedirects(u, n).Message() == TooManyRedirects(u, k).Message()
    ensures n == k
  {
    TooManyMessageNamesCount(u, n);
    TooManyMessageNamesCount(u, k);
  }

  /** The CircularRedirect message determines the URL. */
  lemma CircularMessageInjective(u: string, v: string)
    requires CircularRedirect(u).Message() == CircularRedirect(v).Message()
    ensures u == v
  {
    var m := CircularRedirect(u).Message();
    assert |u| == |v|;
    assert u == m[..|u|];
  }

  /** The two kinds of error never print the same message: one ends in ")." and the other in "p.". */
  lemma MessagesTellKindsApart(u: string, n: int, v: string)
    ensures TooManyRedirects(u, n).Message() != CircularRedirect(v).Message()
  {
    var a := TooManyRedirects(u, n).Message();
    var b := CircularRedirect(v).Message();
    assert a[|a| - 2] == ')';
    assert b[|b| - 2] == 'p';
  }
}
