/** The sqlite3 driver as the decorators and context managers see it: it hands
    out connection and cursor handles and records, in order, every call made on
    it. What the SQL means is not modelled; the answers the database gives (a
    refused connection, a failed commit, the rows of a query, the outcome of the
    decorated function) are parameters of the calls that receive them. */
module Driver {
  import opened Outcomes

  /** Identity of a connection or cursor object. */
  type Handle = nat

  /** The Python values that pass through the wrappers. */
  datatype Value =
    | Null                        // None
    | Bool(b: bool)
    | Int(i: int)
    | Text(s: string)
    | Tuple(items: seq<Value>)
    | List(items: seq<Value>)
    | Conn(h: Handle)             // an sqlite3.Connection object
  {
    /** Python truthiness, as `if x:` and `x or y` test it. A connection
        object defines neither `__bool__` nor `__len__`, so it is always true. */
    predicate Truthy()
    {
      match this
      case Null => false
      case Bool(b) => b
      case Int(i) => i != 0
      case Text(s) => s != ""
      case Tuple(xs) => xs != []
      case List(xs) => xs != []
      case Conn(_) => true
    }

    /** Whether Python can hash the value (lists cannot be dictionary keys,
        nor can tuples that contain one). */
    predicate Hashable()
    {
      match this
      case List(_) => false
      case Tuple(xs) => forall i :: 0 <= i < |xs| ==> xs[i].Hashable()
      case _ => true
    }
  }

  /** The `*args` and `**kwargs` of a Python call. */
  datatype Args = Args(positional: seq<Value>, keywords: map<string, Value>)
  {
    /** The arguments of `func(conn, *args, **kwargs)`: the connection first,
        then these positional arguments, and the same keyword arguments. */
    function WithConn(h: Handle): (a: Args)
      ensures |a.positional| == |positional| + 1 && a.positional[0] == Conn(h)
      ensures a.positional[1..] == positional && a.keywords == keywords
    {
      Args([Conn(h)] + positional, keywords)
    }
  }

  /** One call on the driver, or the decorated function being entered. */
  datatype Event =
    | Open(db: string, conn: Handle)          // sqlite3.connect(db) returned a connection
    | Call(args: Args)                        // the decorated function was called with args
    | NewCursor(conn: Handle, cursor: Handle) // conn.cursor()
    | Execute(cursor: Handle, sql: string, params: Value)
    | FetchAll(cursor: Handle)
    | CloseCursor(cursor: Handle)
    | Commit(conn: Handle)
    | Rollback(conn: Handle)
    | Close(conn: Handle)
    | Sleep(seconds: int)                     // time.sleep(seconds)

  /** How many times `e` occurs in `log`. */
  function Occurrences(log: seq<Event>, e: Event): nat
  {
    if log == [] then 0
    else Occurrences(log[..|log| - 1], e) + (if log[|log| - 1] == e then 1 else 0)
  }

  lemma {:induction false} OccurrencesAppend(a: seq<Event>, b: seq<Event>, e: Event)
    ensures Occurrences(a + b, e) == Occurrences(a, e) + Occurrences(b, e)
    decreases |b|
  {
    if b == [] {
      assert a + b == a;
    } else {
      assert (a + b)[..|a + b| - 1] == a + b[..|b| - 1];
      OccurrencesAppend(a, b[..|b| - 1], e);
    }
  }

  lemma {:induction false} OccurrencesAbsent(log: seq<Event>, e: Event)
    requires e !in log
    ensures Occurrences(log, e) == 0
    decreases |log|
  {
    if log != [] {
      assert forall x :: x in log[..|log| - 1] ==> x in log;
      OccurrencesAbsent(log[..|log| - 1], e);
    }
  }

  /** The driver state: the event log, how many handles have been issued
      (every new connection or cursor gets the next number) and the
      connections that are open. */
  class Driver {
    var log: seq<Event>
    var issued: nat
    var live: set<Handle>

    ghost predicate Valid()
      reads this
    {
      forall h :: h in live ==> h < issued
    }

    constructor ()
      ensures Valid() && log == [] && issued == 0 && live == {}
    {
      log, issued, live := [], 0, {};
    }

    /** sqlite3.connect(db): raises `refusal` when there is one, and
        otherwise opens a new connection. */
    method Connect(db: string, refusal: Option<Exc>) returns (r: Outcome<Handle>)
      requires Valid()
      modifies this
      ensures Valid()
      ensures refusal.Some? ==> r == Raised(refusal.value) && log == old(log) && issued == old(issued) && live == old(live)
      ensures refusal.None? ==> r == Ok(old(issued)) && old(issued) !in old(live)
                                && log == old(log) + [Open(db, old(issued))]
                                && issued == old(issued) + 1 && live == old(live) + {old(issued)}
    {
      if refusal.Some? {
        return Raised(refusal.value);
      }
      r := Ok(issued);
      log := log + [Open(db, issued)];
      live := live + {issued};
      issued := issued + 1;
    }

    /** conn.close() */
    method Close(h: Handle)
      requires Valid()
      modifies this
      ensures Valid()
      ensures log == old(log) + [Event.Close(h)] && issued == old(issued) && live == old(live) - {h}
    {
      log := log + [Event.Close(h)];
      live := live - {h};
    }

    /** conn.cursor(): a new cursor handle. */
    method Cursor(h: Handle) returns (c: Handle)
      requires Valid()
      modifies this
      ensures Valid()
      ensures c == old(issued) && issued == old(issued) + 1 && live == old(live)
      ensures log == old(log) + [NewCursor(h, c)]
    {
      c := issued;
      log := log + [NewCursor(h, c)];
      issued := issued + 1;
    }

    /** conn.commit(), which raises `failure` when there is one. */
    method Commit(h: Handle, failure: Option<Exc>) returns (r: Outcome<()>)
      modifies this
      ensures log == old(log) + [Event.Commit(h)] && issued == old(issued) && live == old(live)
      ensures r == if failure.Some? then Raised(failure.value) else Ok(())
    {
      log := log + [Event.Commit(h)];
      r := if failure.Some? then Raised(failure.value) else Ok(());
    }

    /** conn.rollback() */
    method Rollback(h: Handle)
      modifies this
      ensures log == old(log) + [Event.Rollback(h)] && issued == old(issued) && live == old(live)
    {
      log := log + [Event.Rollback(h)];
    }

    /** cursor.execute(sql, params), which raises `failure` when there is one. */
    method Execute(c: Handle, sql: string, params: Value, failure: Option<Exc>) returns (r: Outcome<()>)
      modifies this
      ensures log == old(log) + [Event.Execute(c, sql, params)] && issued == old(issued) && live == old(live)
      ensures r == if failure.Some? then Raised(failure.value) else Ok(())
    {
      log := log + [Event.Execute(c, sql, params)];
      r := if failure.Some? then Raised(failure.value) else Ok(());
    }

    /** cursor.fetchall(), answered by the database with `rows`. */
    method FetchAll(c: Handle, rows: seq<Value>) returns (r: Value)
      modifies this
      ensures log == old(log) + [Event.FetchAll(c)] && issued == old(issued) && live == old(live)
      ensures r == List(rows)
    {
      log := log + [Event.FetchAll(c)];
      r := List(rows);
    }

    /** cursor.close() */
    method CloseCursor(c: Handle)
      modifies this
      ensures log == old(log) + [Event.CloseCursor(c)] && issued == old(issued) && live == old(live)
    {
      log := log + [Event.CloseCursor(c)];
    }

    /** time.sleep(seconds); the clock itself is not modelled. */
    method Sleep(seconds: int)
      modifies this
      ensures log == old(log) + [Event.Sleep(seconds)] && issued == old(issued) && live == old(live)
    {
      log := log + [Event.Sleep(seconds)];
    }

    /** The decorated function, called with `args`; how it ends is `answer`.
        What it does inside with the connection is not modelled. */
    method Invoke(args: Args, answer: Outcome<Value>) returns (r: Outcome<Value>)
      modifies this
      ensures log == old(log) + [Call(args)] && issued == old(issued) && live == old(live)
      ensures r == answer
    {
      log := log + [Call(args)];
      r := answer;
    }
  }
}
