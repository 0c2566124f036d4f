/** The options hash of a fetch: its defaults, the merge with the caller's hash, and its readers. */
module Options {
  import opened Ruby
  import opened Http

  /** The option keys the fetcher reads or defaults. */
  datatype Key = Unlink | FollowRedirects | Method | MaxSize | OpenTimeout | ReadTimeout

  type Options = map<Key, Value>

  const MEGABYTE: int := 1048576
  const DEFAULT_MAX_SIZE: int := 10 * MEGABYTE
  const DEFAULT_READ_TIMEOUT: int := 20
  const DEFAULT_OPEN_TIMEOUT: int := 10

  /** The defaults every fetch starts from. */
  function DefaultOptions(): (d: Options)
    ensures d.Keys == {Unlink, FollowRedirects, Method}
    ensures d[Unlink] == Bool(true) && d[FollowRedirects] == Bool(true) && d[Method] == Sym("get")
  {
    map[Unlink := Bool(true), FollowRedirects := Bool(true), Method := Sym("get")]
  }

  /** Hash#merge: every key of either hash, the value of `given` winning where both have one. */
  function Merge(base: Options, given: Options): (o: Options)
    ensures o.Keys == base.Keys + given.Keys
    ensures forall k :: k in given ==> o[k] == given[k]
    ensures forall k :: k in base && k !in given ==> o[k] == base[k]
  {
    base + given
  }

  /** Hash#[]: nil for a missing key. */
  function Lookup(o: Options, k: Key): (v: Value)
    ensures k !in o ==> v == Nil
    ensures k in o ==> v == o[k]
  {
    if k in o then o[k] else Nil
  }

  /** The verb of the request: :head and :post select HEAD and POST, anything else GET. */
  function RequestVerb(o: Options): (v: Verb)
    ensures v == Head <==> Lookup(o, Method) == Sym("head")
    ensures v == Post <==> Lookup(o, Method) == Sym("post")
  {
    match Lookup(o, Method)
    case Sym("head") => Head
    case Sym("post") => Post
    case _ => Get
  }

  /** Whether redirects are followed: the truthiness of :follow_redirects. */
  predicate FollowsRedirects(o: Options)
    ensures FollowRedirects !in o ==> !FollowsRedirects(o)
    ensures Lookup(o, FollowRedirects) == Bool(false) ==> !FollowsRedirects(o)
    ensures Lookup(o, FollowRedirects).Int? || Lookup(o, FollowRedirects).Str? ==> FollowsRedirects(o)
  {
    Truthy(Lookup(o, FollowRedirects))
  }

  /** `options[:max_size] || 10 * MEGABYTE`. */
  function MaxSizeLimit(o: Options): (v: Value)
    ensures Truthy(v)
    ensures Truthy(Lookup(o, MaxSize)) ==> v == Lookup(o, MaxSize)
    ensures !Truthy(Lookup(o, MaxSize)) ==> v == Int(DEFAULT_MAX_SIZE)
  {
    if Truthy(Lookup(o, MaxSize)) then Lookup(o, MaxSize) else Int(DEFAULT_MAX_SIZE)
  }

  /** `options[:read_timeout] || 20`. */
  function ReadTimeoutValue(o: Options): (v: Value)
    ensures Truthy(v)
    ensures Truthy(Lookup(o, ReadTimeout)) ==> v == Lookup(o, ReadTimeout)
    ensures !Truthy(Lookup(o, ReadTimeout)) ==> v == Int(DEFAULT_READ_TIMEOUT)
  {
    if Truthy(Lookup(o, ReadTimeout)) then Lookup(o, ReadTimeout) else Int(DEFAULT_READ_TIMEOUT)
  }

  /** `options[:open_timeout] || 10`. */
  function OpenTimeoutValue(o: Options): (v: Value)
    ensures Truthy(v)
    ensures Truthy(Lookup(o, OpenTimeout)) ==> v == Lookup(o, OpenTimeout)
    ensures !Truthy(Lookup(o, OpenTimeout)) ==> v == Int(DEFAULT_OPEN_TIMEOUT)
  {
    if Truthy(Lookup(o, OpenTimeout)) then Lookup(o, OpenTimeout) else Int(DEFAULT_OPEN_TIMEOUT)
  }

  /** What the defaults mean once merged with a caller's hash that leaves a key out. */
  lemma MergedDefaults(given: Options)
    ensures var o := Merge(DefaultOptions(), given);
      && (FollowsRedirects(o) <==> FollowRedirects !in given || Truthy(given[FollowRedirects]))
      && (Method !in given ==> RequestVerb(o) == Get)
      && (MaxSize !in given ==> MaxSizeLimit(o) == Int(DEFAULT_MAX_SIZE))
      && (Unlink !in given ==> Lookup(o, Unlink) == Bool(true))
  {
    var o := Merge(DefaultOptions(), given);
    if Method !in given {
      assert Lookup(o, Method) == Sym("get");
    }
  }
}
