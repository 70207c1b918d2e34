/** The `with_db_connection` decorator: it opens a connection to `users.db`,
    calls the decorated function with that connection in front of the caller's
    arguments, and closes the connection in a `finally`. */
module ConnectionScope {
  import opened Outcomes
  import opened Driver

  /** The database file every decorated call connects to. */
  const UsersDb: string := "users.db"

  /** The events of one `with_db_connection` call that connected as `h`,
      around the events `inner` of the call it wraps. */
  function Scoped(h: Handle, inner: seq<Event>): seq<Event>
  {
    [Open(UsersDb, h)] + inner + [Close(h)]
  }

  /** The scope opens `users.db` once, as its first event, and closes the same
      connection exactly once, as its last event, whatever the wrapped call
      did in between, provided that call neither opens nor closes that
      connection itself. */
  lemma ScopedOpensAndClosesOnce(h: Handle, inner: seq<Event>)
    requires Open(UsersDb, h) !in inner && Close(h) !in inner
    ensures var t := Scoped(h, inner);
      t[0] == Open(UsersDb, h) && t[|t| - 1] == Close(h) &&
      Occurrences(t, Open(UsersDb, h)) == 1 && Occurrences(t, Close(h)) == 1
  {
    OccurrencesAbsent(inner, Open(UsersDb, h));
    OccurrencesAbsent(inner, Close(h));
    OccurrencesAppend([Open(UsersDb, h)] + inner, [Close(h)], Open(UsersDb, h));
    OccurrencesAppend([Open(UsersDb, h)], inner, Open(UsersDb, h));
    OccurrencesAppend([Open(UsersDb, h)] + inner, [Close(h)], Close(h));
    OccurrencesAppend([Open(UsersDb, h)], inner, Close(h));
  }

  /** `wrapper(*args, **kwargs)` of `with_db_connection` around a function
      whose call ends as `answer`. `refusal` is the exception
      `sqlite3.connect` raises, if any; the connect sits before the `try`, so
      then nothing is called and nothing is closed. */
  method WithDbConnection(d: Driver, args: Args, refusal: Option<Exc>, answer: Outcome<Value>)
    returns (r: Outcome<Value>)
    requires d.Valid()
    modifies d
    ensures d.Valid() && d.live == old(d.live)
    ensures d.issued == old(d.issued) + if refusal.None? then 1 else 0
    ensures refusal.Some? ==> r == Raised(refusal.value) && d.log == old(d.log)
    ensures refusal.None? ==>
      r == answer &&
      d.log == old(d.log) + Scoped(old(d.issued), [Call(args.WithConn(old(d.issued)))])
  {
    var c := d.Connect(UsersDb, refusal);
    if c.Raised? {
      return Raised(c.error);
    }
    var conn := c.value;
    r := d.Invoke(args.WithConn(conn), answer);
    d.Close(conn);
  }

  /** Whatever the decorated function does, one scoped call opens exactly one
      connection and closes it exactly once, and does no commit or rollback. */
  lemma ScopedCallClosesOnce(h: Handle, args: Args)
    ensures var t := Scoped(h, [Call(args.WithConn(h))]);
      Occurrences(t, Open(UsersDb, h)) == 1 && Occurrences(t, Close(h)) == 1 &&
      Occurrences(t, Commit(h)) == 0 && Occurrences(t, Rollback(h)) == 0
  {
    var t := Scoped(h, [Call(args.WithConn(h))]);
    ScopedOpensAndClosesOnce(h, [Call(args.WithConn(h))]);
    OccurrencesAbsent(t, Commit(h));
    OccurrencesAbsent(t, Rollback(h));
  }
}
