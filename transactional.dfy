/** The `transactional` decorator and `update_user_email`, which is decorated
    with `with_db_connection` outside `transactional`. */
module Transactions {
  import opened Outcomes
  import opened Errors
  import opened Driver
  import opened ConnectionScope

  /** How a transactional call ends: with the function's result when the
      function and the commit both succeed, and otherwise with the first
      exception raised (the function's, else the commit's), re-raised unchanged. */
  function TransactionOutcome(answer: Outcome<Value>, commitFailure: Option<Exc>): (r: Outcome<Value>)
    ensures r.Ok? <==> answer.Ok? && commitFailure.None?
    ensures r.Ok? ==> r == answer
    ensures answer.Raised? ==> r == answer
    ensures answer.Ok? && commitFailure.Some? ==> r == Raised(commitFailure.value)
  {
    if answer.Raised? then answer
    else if commitFailure.Some? then Raised(commitFailure.value)
    else answer
  }

  /** The rollback of the `except Exception` clause, which runs only for an
      exception the clause catches. */
  function RollbackFor(h: Handle, e: Exc): seq<Event>
  {
    if Caught(e) then [Rollback(h)] else []
  }

  /** The events of one transactional call on connection `h`, whose cursor
      (created and never used) gets the handle `cur`. */
  function TransactionEvents(h: Handle, cur: Handle, args: Args, answer: Outcome<Value>,
                             commitFailure: Option<Exc>): seq<Event>
  {
    [NewCursor(h, cur), Call(args.WithConn(h))] +
    (if answer.Raised? then RollbackFor(h, answer.error)
     else if commitFailure.Some? then [Commit(h)] + RollbackFor(h, commitFailure.value)
     else [Commit(h)])
  }

  /** The cursor is made first and the function runs exactly once, right
      after it; a commit is attempted exactly when the function returned, right
      after the call, and is the last event when it succeeds; a rollback happens exactly when the
      call ends with an exception that `except Exception` catches, and then as
      the last event; and the connection is neither opened nor closed. */
  lemma TransactionEventsSpec(h: Handle, cur: Handle, args: Args, answer: Outcome<Value>,
                              commitFailure: Option<Exc>)
    ensures var t := TransactionEvents(h, cur, args, answer, commitFailure);
      var r := TransactionOutcome(answer, commitFailure);
      t[0] == NewCursor(h, cur) && t[1] == Call(args.WithConn(h)) &&
      (answer.Ok? ==> t[2] == Commit(h)) &&
      (answer.Ok? && commitFailure.None? ==> t == [NewCursor(h, cur), Call(args.WithConn(h)), Commit(h)]) &&
      Occurrences(t, Call(args.WithConn(h))) == 1 &&
      Occurrences(t, Commit(h)) == (if answer.Ok? then 1 else 0) &&
      Occurrences(t, Rollback(h)) == (if r.Raised? && Caught(r.error) then 1 else 0) &&
      (r.Raised? && Caught(r.error) ==> t[|t| - 1] == Rollback(h)) &&
      (forall e :: e in t ==> !e.Open? && !e.Close?)
  {
    var t := TransactionEvents(h, cur, args, answer, commitFailure);
    var head := [NewCursor(h, cur), Call(args.WithConn(h))];
    var tail := t[2..];
    assert t == head + tail;
    OccurrencesAppend(head, tail, Call(args.WithConn(h)));
    OccurrencesAppend(head, tail, Commit(h));
    OccurrencesAppend(head, tail, Rollback(h));
    assert Occurrences(head, Call(args.WithConn(h))) == 1 by {
      assert head == [NewCursor(h, cur)] + [Call(args.WithConn(h))];
      OccurrencesAppend([NewCursor(h, cur)], [Call(args.WithConn(h))], Call(args.WithConn(h)));
    }
    OccurrencesAbsent(head, Commit(h));
    OccurrencesAbsent(head, Rollback(h));
    OccurrencesAbsent(tail, Call(args.WithConn(h)));
    if answer.Ok? && commitFailure.Some? && Caught(commitFailure.value) {
      assert tail == [Commit(h)] + [Rollback(h)];
      OccurrencesAppend([Commit(h)], [Rollback(h)], Commit(h));
      OccurrencesAppend([Commit(h)], [Rollback(h)], Rollback(h));
    }
  }

  /** `wrapper(conn, *args, **kwargs)` of `transactional`, on the connection
      `h` it is given and the remaining arguments `args`, around a function whose call ends as `answer`;
      `commitFailure` is the exception `conn.commit()` raises, if any. */
  method Transactional(d: Driver, h: Handle, args: Args, answer: Outcome<Value>,
                       commitFailure: Option<Exc>) returns (r: Outcome<Value>)
    requires d.Valid()
    modifies d
    ensures d.Valid() && d.live == old(d.live) && d.issued == old(d.issued) + 1
    ensures r == TransactionOutcome(answer, commitFailure)
    ensures d.log == old(d.log) + TransactionEvents(h, old(d.issued), args, answer, commitFailure)
  {
    var cursor := d.Cursor(h);
    var result := d.Invoke(args.WithConn(h), answer);
    if result.Ok? {
      var committed := d.Commit(h, commitFailure);
      if committed.Ok? {
        return result;
      }
      if Caught(committed.error) {
        d.Rollback(h);
      }
      return Raised(committed.error);
    }
    if Caught(result.error) {
      d.Rollback(h);
    }
    r := result;
  }

  /** `update_user_email(user_id=..., new_email=...)`: `with_db_connection`
      outside `transactional` outside the update itself. */
  method UpdateUserEmail(d: Driver, args: Args, refusal: Option<Exc>, answer: Outcome<Value>,
                         commitFailure: Option<Exc>) returns (r: Outcome<Value>)
    requires d.Valid()
    modifies d
    ensures d.Valid() && d.live == old(d.live)
    ensures d.issued == old(d.issued) + if refusal.None? then 2 else 0
    ensures refusal.Some? ==> r == Raised(refusal.value) && d.log == old(d.log)
    ensures refusal.None? ==>
      r == TransactionOutcome(answer, commitFailure) &&
      d.log == old(d.log) + Scoped(old(d.issued),
                                   TransactionEvents(old(d.issued), old(d.issued) + 1, args, answer, commitFailure))
  {
    var c := d.Connect(UsersDb, refusal);
    if c.Raised? {
      return Raised(c.error);
    }
    var conn := c.value;
    r := Transactional(d, conn, args, answer, commitFailure);
    d.Close(conn);
  }

  /** An update whose statement raises an `Exception` `e` is rolled back
      once, never committed, its connection is closed once, after the
      rollback, and `e` itself reaches the caller. */
  lemma FailedUpdateRollsBackAndCloses(h: Handle, args: Args, e: Exc, commitFailure: Option<Exc>)
    requires Caught(e)
    ensures var t := Scoped(h, TransactionEvents(h, h + 1, args, Raised(e), commitFailure));
      TransactionOutcome(Raised(e), commitFailure) == Raised(e) &&
      Occurrences(t, Rollback(h)) == 1 && Occurrences(t, Commit(h)) == 0 &&
      Occurrences(t, Close(h)) == 1 &&
      t[|t| - 2] == Rollback(h) && t[|t| - 1] == Close(h)
  {
    var inner := TransactionEvents(h, h + 1, args, Raised(e), commitFailure);
    TransactionEventsSpec(h, h + 1, args, Raised(e), commitFailure);
    ScopedOpensAndClosesOnce(h, inner);
    OccurrencesAppend([Open(UsersDb, h)] + inner, [Close(h)], Rollback(h));
    OccurrencesAppend([Open(UsersDb, h)], inner, Rollback(h));
    OccurrencesAppend([Open(UsersDb, h)] + inner, [Close(h)], Commit(h));
    OccurrencesAppend([Open(UsersDb, h)], inner, Commit(h));
  }

  /** An update interrupted by an exception that `except Exception` lets
      through (KeyboardInterrupt, SystemExit, ...) is neither committed nor
      rolled back; the `finally` of `with_db_connection` still closes its
      connection, right after the call, and `e` reaches the caller. */
  lemma InterruptedUpdateOnlyCloses(h: Handle, args: Args, e: Exc, commitFailure: Option<Exc>)
    requires !Caught(e)
    ensures var t := Scoped(h, TransactionEvents(h, h + 1, args, Raised(e), commitFailure));
      TransactionOutcome(Raised(e), commitFailure) == Raised(e) &&
      Occurrences(t, Rollback(h)) == 0 && Occurrences(t, Commit(h)) == 0 &&
      Occurrences(t, Close(h)) == 1 &&
      t[|t| - 2] == Call(args.WithConn(h)) && t[|t| - 1] == Close(h)
  {
    var inner := TransactionEvents(h, h + 1, args, Raised(e), commitFailure);
    TransactionEventsSpec(h, h + 1, args, Raised(e), commitFailure);
    ScopedOpensAndClosesOnce(h, inner);
    OccurrencesAppend([Open(UsersDb, h)] + inner, [Close(h)], Rollback(h));
    OccurrencesAppend([Open(UsersDb, h)], inner, Rollback(h));
    OccurrencesAppend([Open(UsersDb, h)] + inner, [Close(h)], Commit(h));
    OccurrencesAppend([Open(UsersDb, h)], inner, Commit(h));
  }
}
