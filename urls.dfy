/**
 * URLs as strings, split the simple way an absolute http(s) URL splits:
 * `scheme ":" "//" host [":" port] rest`, where rest (path, query, fragment) starts at the first
 * '/', '?' or '#' after the authority. Also the resolution of a Location header value against
 * the URL that was requested.
 */
module Urls {

  /** The index of the first character of s that is in cs, or |s| when there is none. */
  function FirstIndexIn(s: string, cs: set<char>): (i: nat)
    ensures i <= |s|
    ensures i < |s| ==> s[i] in cs
    ensures forall j :: 0 <= j < i ==> s[j] !in cs
  {
    if s == [] || s[0] in cs then 0 else 1 + FirstIndexIn(s[1..], cs)
  }

  /** Where a is free of cs and b starts with a member of cs (or is empty), the first hit is at |a|. */
  lemma FirstIndexInConcat(a: string, b: string, cs: set<char>)
    requires forall j :: 0 <= j < |a| ==> a[j] !in cs
    requires b == [] || b[0] in cs
    ensures FirstIndexIn(a + b, cs) == |a|
  {
    var s := a + b;
    assert forall j :: 0 <= j < |a| ==> s[j] == a[j];
    if b != [] {
      assert s[|a|] == b[0];
    }
  }

  /** The characters that end an authority. */
  const DELIMITERS: set<char> := {'/', '?', '#'}

  /** The characters that can end a scheme; only ':' ends one that is really there. */
  const SCHEME_END: set<char> := {':', '/', '?', '#'}

  function SchemeLength(url: string): (n: nat)
    ensures n < |url| || n == 0
  {
    var i := FirstIndexIn(url, SCHEME_END);
    if 0 < i < |url| && url[i] == ':' then i else 0
  }

  /** The scheme: the non-empty text before a ':' that comes before any '/', '?' or '#'; or "". */
  function SchemeOf(url: string): (s: string)
    ensures forall j :: 0 <= j < |s| ==> s[j] !in SCHEME_END
  {
    url[..SchemeLength(url)]
  }

  function AfterScheme(url: string): string
  {
    if SchemeLength(url) > 0 then url[SchemeLength(url) + 1..] else url
  }

  predicate HasAuthority(url: string)
  {
    |AfterScheme(url)| >= 2 && AfterScheme(url)[..2] == "//"
  }

  /** The authority: what follows "//" up to the first '/', '?' or '#'; "" without "//". */
  function Authority(url: string): (a: string)
    ensures forall j :: 0 <= j < |a| ==> a[j] !in DELIMITERS
  {
    if HasAuthority(url) then
      var t := AfterScheme(url)[2..];
      t[..FirstIndexIn(t, DELIMITERS)]
    else ""
  }

  /** The host: the authority up to its first ':'. */
  function HostOf(url: string): (h: string)
    ensures forall j :: 0 <= j < |h| ==> h[j] != ':' && h[j] !in DELIMITERS
  {
    var a := Authority(url);
    a[..FirstIndexIn(a, {':'})]
  }

  /** The port as written: the authority after its first ':'; "" when there is none. */
  function PortOf(url: string): string
  {
    var a := Authority(url);
    var i := FirstIndexIn(a, {':'});
    if i < |a| then a[i + 1..] else ""
  }

  /** Path, query and fragment: what follows the authority. */
  function RestOf(url: string): string
  {
    if HasAuthority(url) then
      var t := AfterScheme(url)[2..];
      t[FirstIndexIn(t, DELIMITERS)..]
    else AfterScheme(url)
  }

  /** Path, query and fragment of a reference without a scheme: a leading "//authority" is dropped. */
  function PathAndQuery(location: string): (p: string)
    ensures |p| <= |location| && p == location[|location| - |p|..]
    ensures !(|location| >= 2 && location[..2] == "//") ==> p == location
    ensures |location| >= 2 && location[..2] == "//" ==>
      && |p| <= |location| - 2
      && var a := location[2..|location| - |p|];
      && location == "//" + a + p
      && (forall j :: 0 <= j < |a| ==> a[j] !in DELIMITERS)
      && (p == [] || p[0] in DELIMITERS)
  {
    if |location| >= 2 && location[..2] == "//" then
      var t := location[2..];
      var i := FirstIndexIn(t, DELIMITERS);
      assert location == location[..2] + t[..i] + t[i..];
      t[i..]
    else location
  }

  /**
   * The URL a Location value leads to from the URL just requested: a value holding ':' anywhere
   * is used unchanged; any other value keeps its path and query and takes the scheme and host
   * (not the port) of the requested URL.
   */
  function Resolve(location: string, current: string): (r: string)
    ensures ':' in location ==> r == location
  {
    if ':' in location then location
    else SchemeOf(current) + (":" + ("//" + (HostOf(current) + PathAndQuery(location))))
  }

  /** A non-empty scheme followed by ':' splits off as the scheme. */
  lemma SchemeSplit(scheme: string, tail: string)
    requires scheme != [] && forall j :: 0 <= j < |scheme| ==> scheme[j] !in SCHEME_END
    requires tail != [] && tail[0] == ':'
    ensures SchemeOf(scheme + tail) == scheme
    ensures AfterScheme(scheme + tail) == tail[1..]
  {
    var url := scheme + tail;
    FirstIndexInConcat(scheme, tail, SCHEME_END);
    assert url[|scheme|] == ':';
    assert SchemeLength(url) == |scheme|;
    assert url[..|scheme|] == scheme;
    assert url[|scheme| + 1..] == tail[1..];
  }

  /** After "//", a delimiter-free host followed by a path splits into authority and rest. */
  lemma AuthoritySplit(url: string, host: string, path: string)
    requires AfterScheme(url) == "//" + (host + path)
    requires forall j :: 0 <= j < |host| ==> host[j] !in DELIMITERS
    requires path == [] || path[0] in DELIMITERS
    ensures Authority(url) == host
    ensures RestOf(url) == path
  {
    var after := AfterScheme(url);
    assert after[..2] == "//";
    var t := after[2..];
    assert t == host + path;
    FirstIndexInConcat(host, path, DELIMITERS);
    assert t[..|host|] == host;
    assert t[|host|..] == path;
  }

  /** An authority without ':' is all host and no port. */
  lemma HostSplit(url: string)
    requires forall j :: 0 <= j < |Authority(url)| ==> Authority(url)[j] != ':'
    ensures HostOf(url) == Authority(url)
    ensures PortOf(url) == ""
  {
    var a := Authority(url);
    assert FirstIndexIn(a, {':'}) == |a|;
    assert a[..|a|] == a;
  }

  /**
   * A relative Location whose path is absolute (or empty) resolves to a URL with the scheme and
   * host of the requested URL, no port, and the Location's own path and query.
   */
  lemma ResolvedRelative(location: string, current: string)
    requires ':' !in location
    requires SchemeOf(current) != ""
    requires PathAndQuery(location) == [] || PathAndQuery(location)[0] in DELIMITERS
    ensures var r := Resolve(location, current);
      && SchemeOf(r) == SchemeOf(current)
      && HostOf(r) == HostOf(current)
      && PortOf(r) == ""
      && RestOf(r) == PathAndQuery(location)
  {
    var s, h, p := SchemeOf(current), HostOf(current), PathAndQuery(location);
    var r := Resolve(location, current);
    var tail := ":" + ("//" + (h + p));
    assert r == s + tail;
    SchemeSplit(s, tail);
    assert tail[1..] == "//" + (h + p);
    AuthoritySplit(r, h, p);
    HostSplit(r);
  }
}
