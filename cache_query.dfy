/** The `cache_query` decorator with its process-wide `query_cache`, and
    `fetch_users_with_cache`, which is decorated with `with_db_connection`
    outside `cache_query`. */
module QueryCaching {
  import opened Outcomes
  import opened Errors
  import opened Driver
  import opened ConnectionScope

  /** The cache key of a call: its `query` keyword argument, or `None` when
      the call has none (so a query passed by position, or `query=None`, all
      share the key `None`). */
  function CacheKey(args: Args): Value
  {
    if "query" in args.keywords then args.keywords["query"] else Null
  }

  /** Only the `query` keyword argument decides the key: positional
      arguments and every other keyword argument leave it unchanged. */
  lemma KeyIgnoresOtherArguments(a: Args, b: Args)
    requires ("query" in a.keywords) == ("query" in b.keywords)
    requires "query" in a.keywords ==> a.keywords["query"] == b.keywords["query"]
    ensures CacheKey(a) == CacheKey(b)
  {
  }

  /** The module-level dictionary `query_cache`. */
  class QueryCache {
    var entries: map<Value, Value>

    constructor ()
      ensures entries == map[]
    {
      entries := map[];
    }
  }

  /** `wrapper(*args, **kwargs)` of `cache_query` around a function whose
      call, if made, ends as `answer`. */
  method CacheQuery(d: Driver, cache: QueryCache, args: Args, answer: Outcome<Value>)
    returns (r: Outcome<Value>)
    modifies d, cache
    ensures d.issued == old(d.issued) && d.live == old(d.live)
    // entries are never removed or overwritten; only the missed key is added
    ensures forall k :: k in old(cache.entries) ==> k in cache.entries && cache.entries[k] == old(cache.entries)[k]
    ensures cache.entries.Keys <= old(cache.entries).Keys + {CacheKey(args)}
    ensures var key := CacheKey(args);
      if !key.Hashable() then
        r == Raised(Unhashable) && d.log == old(d.log) && cache.entries == old(cache.entries)
      else if key in old(cache.entries) then
        r == Ok(old(cache.entries)[key]) && d.log == old(d.log) && cache.entries == old(cache.entries)
      else
        r == answer && d.log == old(d.log) + [Call(args)] &&
        cache.entries == if answer.Ok? then old(cache.entries)[key := answer.value] else old(cache.entries)
  {
    var query := CacheKey(args);
    if !query.Hashable() {
      return Raised(Unhashable);
    }
    if query in cache.entries {
      return Ok(cache.entries[query]);
    }
    r := d.Invoke(args, answer);
    if r.Ok? {
      cache.entries := cache.entries[query := r.value];
    }
  }

  /** `fetch_users_with_cache(query=...)`: a connection is opened and closed
      around the cache lookup, on a hit as well as on a miss. */
  method FetchUsersWithCache(d: Driver, cache: QueryCache, args: Args, refusal: Option<Exc>,
                             answer: Outcome<Value>) returns (r: Outcome<Value>)
    requires d.Valid()
    modifies d, cache
    ensures d.Valid() && d.live == old(d.live)
    ensures d.issued == old(d.issued) + if refusal.None? then 1 else 0
    ensures forall k :: k in old(cache.entries) ==> k in cache.entries && cache.entries[k] == old(cache.entries)[k]
    ensures cache.entries.Keys <= old(cache.entries).Keys + {CacheKey(args)}
    ensures refusal.Some? ==> r == Raised(refusal.value) && d.log == old(d.log) && cache.entries == old(cache.entries)
    ensures refusal.None? ==>
      var h := old(d.issued);
      var key := CacheKey(args);
      if !key.Hashable() then
        r == Raised(Unhashable) && d.log == old(d.log) + Scoped(h, []) && cache.entries == old(cache.entries)
      else if key in old(cache.entries) then
        r == Ok(old(cache.entries)[key]) && d.log == old(d.log) + Scoped(h, []) &&
        cache.entries == old(cache.entries)
      else
        r == answer && d.log == old(d.log) + Scoped(h, [Call(args.WithConn(h))]) &&
        cache.entries == if answer.Ok? then old(cache.entries)[key := answer.value] else old(cache.entries)
  {
    var c := d.Connect(UsersDb, refusal);
    if c.Raised? {
      return Raised(c.error);
    }
    var conn := c.value;
    assert CacheKey(args.WithConn(conn)) == CacheKey(args);
    r := CacheQuery(d, cache, args.WithConn(conn), answer);
    d.Close(conn);
  }

  /** The two calls at the end of the module, with the same query text,
      both connecting successfully. The function runs in the first call
      only. If that call raises, its exception ends the script and the
      second call never happens (`usersAgain` is `None`); otherwise the
      second call is a cache hit that returns the same rows. */
  method FetchTwice(d: Driver, cache: QueryCache, query: string, first: Outcome<Value>)
    returns (users: Outcome<Value>, usersAgain: Option<Outcome<Value>>)
    requires d.Valid() && cache.entries == map[]
    modifies d, cache
    ensures d.Valid() && d.live == old(d.live)
    ensures users == first
    ensures var h := old(d.issued);
      var args := Args([], map["query" := Text(query)]);
      if first.Ok? then
        usersAgain == Some(users) && d.issued == h + 2 &&
        d.log == old(d.log) + Scoped(h, [Call(args.WithConn(h))]) + Scoped(h + 1, [])
      else
        usersAgain == None && d.issued == h + 1 &&
        d.log == old(d.log) + Scoped(h, [Call(args.WithConn(h))])
  {
    var args := Args([], map["query" := Text(query)]);
    assert CacheKey(args) == Text(query) && Text(query).Hashable();
    ghost var h := d.issued;
    users := FetchUsersWithCache(d, cache, args, None, first);
    if users.Raised? {
      // the exception leaves the module: `users_again = ...` never runs
      return users, None;
    }
    ghost var afterFirst := d.log;
    assert afterFirst == old(d.log) + Scoped(h, [Call(args.WithConn(h))]);
    // a cache hit: the function is not called, so its answer is never used
    var again := FetchUsersWithCache(d, cache, args, None, first);
    usersAgain := Some(again);
  }
}
