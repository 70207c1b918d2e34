/** The two context-manager classes, `DatabaseConnection` and
    `ExecuteQuery`, and the `with` statement that drives them: `__enter__`,
    then the body, then `__exit__` (only if `__enter__` returned); the
    body's exception propagates unless `__exit__` returns a true value. */
module ContextManagers {
  import opened Outcomes
  import opened Driver

  /** `DatabaseConnection(db_name)`: `conn` goes from `None` to an open
      connection in `__enter__`, which `__exit__` closes but leaves in place. */
  class DatabaseConnection {
    const dbName: string
    var conn: Option<Handle>

    constructor (dbName: string)
      ensures this.dbName == dbName && conn == None
    {
      this.dbName := dbName;
      conn := None;
    }

    /** `__enter__`: connects to `dbName`, keeps the connection in `conn`
        and returns that same connection. */
    method Enter(d: Driver, refusal: Option<Exc>) returns (r: Outcome<Handle>)
      requires d.Valid()
      modifies this, d
      ensures d.Valid()
      ensures refusal.Some? ==>
        r == Raised(refusal.value) && conn == old(conn) && d.log == old(d.log) && d.live == old(d.live)
      ensures d.issued == old(d.issued) + if refusal.None? then 1 else 0
      ensures refusal.None? ==>
        r == Ok(old(d.issued)) && conn == Some(old(d.issued)) &&
        d.log == old(d.log) + [Open(dbName, old(d.issued))] && d.live == old(d.live) + {old(d.issued)}
    {
      r := d.Connect(dbName, refusal);
      if r.Ok? {
        conn := Some(r.value);
      }
    }

    /** `__exit__`: closes `conn` once if it is set, and returns `None`, a
        false value, so an exception from the body is not suppressed. `conn`
        still refers to the closed connection afterwards. */
    method Exit(d: Driver) returns (suppress: Value)
      requires d.Valid()
      modifies d
      ensures d.Valid() && suppress == Null && !suppress.Truthy() && d.issued == old(d.issued)
      ensures conn.Some? ==> d.log == old(d.log) + [Close(conn.value)] && d.live == old(d.live) - {conn.value}
      ensures conn.None? ==> d.log == old(d.log) && d.live == old(d.live)
    {
      if conn.Some? {
        d.Close(conn.value);
      }
      suppress := Null;
    }
  }

  /** `with DatabaseConnection(dbName) as conn: <body>`, for a body that
      ends as `body`. The body's own calls on the connection are not
      modelled. */
  method WithDatabaseConnection(d: Driver, dbName: string, refusal: Option<Exc>, body: Outcome<Value>)
    returns (manager: DatabaseConnection, r: Outcome<Value>)
    requires d.Valid()
    modifies d
    ensures d.Valid() && fresh(manager) && manager.dbName == dbName && d.live == old(d.live)
    ensures d.issued == old(d.issued) + if refusal.None? then 1 else 0
    ensures refusal.Some? ==> r == Raised(refusal.value) && manager.conn == None && d.log == old(d.log)
    ensures refusal.None? ==>
      r == body && manager.conn == Some(old(d.issued)) &&
      d.log == old(d.log) + [Open(dbName, old(d.issued)), Close(old(d.issued))]
  {
    manager := new DatabaseConnection(dbName);
    var entered := manager.Enter(d, refusal);
    if entered.Raised? {
      return manager, Raised(entered.error);
    }
    var suppress := manager.Exit(d);
    r := if body.Raised? && suppress.Truthy() then Ok(Null) else body;
  }

  /** `ExecuteQuery(query, params=None, db_path=":memory:")`. */
  class ExecuteQuery {
    const query: string
    const params: Value
    const dbPath: string
    var conn: Option<Handle>
    var cursor: Option<Handle>

    /** `params` becomes `()` whenever the argument is false in Python
        (`None`, an empty tuple or list, `0`, `""`, `False`). */
    constructor (query: string, params: Value := Null, dbPath: string := ":memory:")
      ensures this.query == query && this.dbPath == dbPath
      ensures this.params == if params.Truthy() then params else Tuple([])
      ensures conn == None && cursor == None
    {
      this.query := query;
      this.params := if params.Truthy() then params else Tuple([]);
      this.dbPath := dbPath;
      conn := None;
      cursor := None;
    }

    /** `__enter__`: connects to `dbPath`, makes one cursor, executes
        `query` once with `params` and returns every row fetched (the rows
        the database answers with are `rows`). The value `as` binds is that
        list, not this object. A connection that is refused leaves both
        fields as they were; a query that raises leaves both set, and the
        connection open, since `__exit__` is then never called. */
    method Enter(d: Driver, refusal: Option<Exc>, executeFailure: Option<Exc>, rows: seq<Value>)
      returns (r: Outcome<Value>)
      requires d.Valid()
      modifies this, d
      ensures d.Valid()
      ensures refusal.Some? ==>
        r == Raised(refusal.value) && conn == old(conn) && cursor == old(cursor) &&
        d.log == old(d.log) && d.live == old(d.live)
      ensures d.issued == old(d.issued) + if refusal.None? then 2 else 0
      ensures refusal.None? ==>
        var h := old(d.issued);
        conn == Some(h) && cursor == Some(h + 1) && d.live == old(d.live) + {h} &&
        d.log == old(d.log) + [Open(dbPath, h), NewCursor(h, h + 1), Execute(h + 1, query, params)] +
                 (if executeFailure.None? then [FetchAll(h + 1)] else []) &&
        r == if executeFailure.Some? then Raised(executeFailure.value) else Ok(List(rows))
    {
      var c := d.Connect(dbPath, refusal);
      if c.Raised? {
        return Raised(c.error);
      }
      conn := Some(c.value);
      var cur := d.Cursor(c.value);
      cursor := Some(cur);
      var executed := d.Execute(cur, query, params, executeFailure);
      if executed.Raised? {
        return Raised(executed.error);
      }
      var all := d.FetchAll(cur, rows);
      r := Ok(all);
    }

    /** `__exit__`: closes the cursor, then the connection, each only if it
        is set, and returns `None`, so an exception from the body propagates. */
    method Exit(d: Driver) returns (suppress: Value)
      requires d.Valid()
      modifies d
      ensures d.Valid() && suppress == Null && !suppress.Truthy() && d.issued == old(d.issued)
      ensures d.log == old(d.log) + (if cursor.Some? then [CloseCursor(cursor.value)] else []) +
                                    (if conn.Some? then [Close(conn.value)] else [])
      ensures d.live == if conn.Some? then old(d.live) - {conn.value} else old(d.live)
    {
      if cursor.Some? {
        d.CloseCursor(cursor.value);
      }
      if conn.Some? {
        d.Close(conn.value);
      }
      suppress := Null;
    }
  }

  /** `with ExecuteQuery(query, params, dbPath) as result: <body>`, for a
      body that ends as `body(result)`. On success the cursor is closed,
      then the connection, and the body's outcome is the statement's. */
  method WithExecuteQuery(d: Driver, query: string, params: Value, dbPath: string,
                          refusal: Option<Exc>, executeFailure: Option<Exc>, rows: seq<Value>,
                          body: Value -> Outcome<Value>)
    returns (manager: ExecuteQuery, r: Outcome<Value>)
    requires d.Valid()
    modifies d
    ensures d.Valid() && fresh(manager)
    ensures d.issued == old(d.issued) + if refusal.None? then 2 else 0
    ensures refusal.Some? ==> r == Raised(refusal.value) && d.log == old(d.log) && d.live == old(d.live)
    ensures refusal.None? ==>
      var h := old(d.issued);
      var started := [Open(dbPath, h), NewCursor(h, h + 1), Execute(h + 1, query, manager.params)];
      if executeFailure.Some? then
        r == Raised(executeFailure.value) && d.log == old(d.log) + started &&
        d.live == old(d.live) + {h}
      else
        r == body(List(rows)) && d.live == old(d.live) &&
        d.log == old(d.log) + started + [FetchAll(h + 1), CloseCursor(h + 1), Close(h)]
  {
    manager := new ExecuteQuery(query, params, dbPath);
    var result := manager.Enter(d, refusal, executeFailure, rows);
    if result.Raised? {
      return manager, result;
    }
    var outcome := body(result.value);
    var suppress := manager.Exit(d);
    r := if outcome.Raised? && suppress.Truthy() then Ok(Null) else outcome;
  }
}
