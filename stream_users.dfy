/** `stream_users()`: one query over `user_data`, then fetchone() until it
    returns None, yielding each row; then the cursor is closed, and after it
    the connection. */
module UserStream {
  import opened Outcomes
  import opened Errors
  import opened Generators

  /** The fetch-and-yield steps for the rows `rows`, one row at a time. */
  function FetchLoop(rows: seq<User>): seq<Step>
  {
    if rows == [] then []
    else FetchLoop(rows[..|rows| - 1]) + [Do(FetchOne), Yield(rows[|rows| - 1])]
  }

  /** The loop hands the consumer exactly the rows it fetched, in order. */
  lemma {:induction false} FetchLoopYields(rows: seq<User>)
    ensures |FetchLoop(rows)| == 2 * |rows|
    ensures Yields(FetchLoop(rows)) == rows && YieldCount(FetchLoop(rows)) == |rows|
    decreases |rows|
  {
    if rows != [] {
      var init, last := rows[..|rows| - 1], rows[|rows| - 1];
      var tail := [Do(FetchOne), Yield(last)];
      FetchLoopYields(init);
      YieldsAppend(FetchLoop(init), tail);
      YieldCountAppend(FetchLoop(init), tail);
      assert tail[1..] == [Yield(last)] && tail[1..][1..] == [];
      assert Yields(tail[1..]) == [last] && YieldCount(tail[1..]) == 1;
      assert Yields(tail) == [last] && YieldCount(tail) == 1;
      assert init + [last] == rows;
    }
  }

  /** Each row is fetched by its own fetchone() and yielded right after it. */
  lemma {:induction false} FetchLoopShape(rows: seq<User>)
    ensures |FetchLoop(rows)| == 2 * |rows|
    ensures forall i :: 0 <= i < |rows| ==>
      FetchLoop(rows)[2 * i] == Do(FetchOne) && FetchLoop(rows)[2 * i + 1] == Yield(rows[i])
    decreases |rows|
  {
    if rows != [] {
      FetchLoopShape(rows[..|rows| - 1]);
    }
  }

  /** The loop does nothing but fetchone() and yield. */
  lemma {:induction false} FetchLoopSteps(rows: seq<User>)
    ensures forall x :: x in FetchLoop(rows) ==> x == Do(FetchOne) || x.Yield?
    decreases |rows|
  {
    if rows != [] {
      FetchLoopSteps(rows[..|rows| - 1]);
    }
  }

  lemma FetchLoopLacks(rows: seq<User>, x: Step)
    requires x != Do(FetchOne) && !x.Yield?
    ensures x !in FetchLoop(rows)
  {
    FetchLoopSteps(rows);
  }

  lemma FetchLoopEndsWithYield(rows: seq<User>)
    requires rows != []
    ensures FetchLoop(rows) != [] && FetchLoop(rows)[|FetchLoop(rows)| - 1].Yield?
  {
  }

  lemma FetchLoopSnoc(rows: seq<User>, row: User)
    ensures FetchLoop(rows + [row]) == FetchLoop(rows) + [Do(FetchOne), Yield(row)]
  {
    assert (rows + [row])[..|rows|] == rows;
  }

  /** Fetching fewer rows runs a prefix of the loop. */
  lemma {:induction false} FetchLoopPrefix(part: seq<User>, rows: seq<User>)
    requires part <= rows
    ensures FetchLoop(part) <= FetchLoop(rows)
    decreases |rows|
  {
    if |part| < |rows| {
      var init := rows[..|rows| - 1];
      assert part <= init;
      FetchLoopPrefix(part, init);
    } else {
      assert part == rows;
    }
  }

  const StreamStart: seq<Step> := [Do(Connect), Do(OpenCursor), Do(Execute(SelectUsers))]
  const StreamEnd: seq<Step> := [Do(FetchOne), Do(CloseCursor), Do(CloseConnection)]

  lemma StartAndEndYieldNothing()
    ensures YieldCount(StreamStart) == 0 && Yields(StreamStart) == []
    ensures YieldCount(StreamEnd) == 0 && Yields(StreamEnd) == []
  {
    YieldsNone(StreamStart);
    YieldsNone(StreamEnd);
  }

  /** The program of `stream_users()`, as it runs when its consumer asks for
      every row. Without a connection it raises on its second line. */
  function StreamUsersProgram(table: seq<User>, reachable: bool): seq<Step>
  {
    if !reachable then [Do(Connect), Raise(NoCursor)]
    else StreamStart + (FetchLoop(table) + StreamEnd)
  }

  /** What runs of `stream_users()` when its consumer has `demand`, by cases:
      nothing when no row is asked for, the whole program when more rows are
      asked for than there are, and otherwise everything up to the yield of
      the last row asked for. */
  function StreamUsersRun(table: seq<User>, reachable: bool, demand: Demand): seq<Step>
  {
    if demand == Take(0) then []
    else if !reachable then [Do(Connect), Raise(NoCursor)]
    else if demand.All? || demand.n > |table| then StreamStart + (FetchLoop(table) + StreamEnd)
    else StreamStart + FetchLoop(table[..demand.n])
  }

  /** The cases above are exactly what a lazy consumer observes of the
      program. */
  lemma StreamUsersRunIsObserved(table: seq<User>, reachable: bool, demand: Demand)
    ensures Observe(StreamUsersProgram(table, reachable), demand) == StreamUsersRun(table, reachable, demand)
  {
    var program := StreamUsersProgram(table, reachable);
    StartAndEndYieldNothing();
    if demand == Take(0) || demand.All? {
    } else if !reachable {
      YieldsNone(program);
      UptoWhole(program, demand.n);
    } else if demand.n > |table| {
      FetchLoopYields(table);
      YieldCountAppend(FetchLoop(table), StreamEnd);
      YieldCountAppend(StreamStart, FetchLoop(table) + StreamEnd);
      UptoWhole(program, demand.n);
    } else {
      var rows := table[..demand.n];
      var loop := FetchLoop(rows);
      FetchLoopYields(rows);
      FetchLoopPrefix(rows, table);
      SplitAtPrefix(loop, FetchLoop(table));
      var rest := FetchLoop(table)[|loop|..];
      assert FetchLoop(table) + StreamEnd == loop + (rest + StreamEnd);
      FetchLoopEndsWithYield(rows);
      UptoStopsInside(StreamStart, loop, rest + StreamEnd, demand.n);
    }
  }

  /** The consumer receives the table's rows in order: all of them, or the
      first `n` it asked for; no row twice and no None. Without a
      connection it receives none. */
  lemma StreamUsersDelivers(table: seq<User>, reachable: bool, demand: Demand)
    ensures Yields(StreamUsersRun(table, reachable, demand)) ==
      if reachable then Wanted(table, demand) else []
  {
    StartAndEndYieldNothing();
    if demand == Take(0) {
    } else if !reachable {
      YieldsNone([Do(Connect), Raise(NoCursor)]);
    } else if demand.All? || demand.n > |table| {
      FetchLoopYields(table);
      YieldsAppend(FetchLoop(table), StreamEnd);
      YieldsAppend(StreamStart, FetchLoop(table) + StreamEnd);
    } else {
      FetchLoopYields(table[..demand.n]);
      YieldsAppend(StreamStart, FetchLoop(table[..demand.n]));
    }
  }

  /** The cursor and then the connection are closed, each once and as the
      last two steps, exactly when the consumer asks for more rows than there
      are; a consumer that stops earlier leaves both open. */
  lemma StreamUsersClosesOnlyWhenExhausted(table: seq<User>, demand: Demand)
    ensures var run := StreamUsersRun(table, true, demand);
      var exhausted := demand.All? || demand.n > |table|;
      (exhausted ==> |run| >= 2 && run[|run| - 2..] == [Do(CloseCursor), Do(CloseConnection)] &&
                     Do(CloseCursor) !in run[..|run| - 2] && Do(CloseConnection) !in run[..|run| - 2]) &&
      (!exhausted ==> Do(CloseCursor) !in run && Do(CloseConnection) !in run)
  {
    if demand.All? || demand.n > |table| {
      Regroup(StreamStart, FetchLoop(table), StreamEnd);
      EndsWith(StreamStart + FetchLoop(table), StreamEnd);
      FetchLoopLacks(table, Do(CloseCursor));
      FetchLoopLacks(table, Do(CloseConnection));
      var run := StreamUsersRun(table, true, demand);
      assert run[..|run| - 2] == StreamStart + FetchLoop(table) + [Do(FetchOne)];
    } else if demand.n > 0 {
      FetchLoopLacks(table[..demand.n], Do(CloseCursor));
      FetchLoopLacks(table[..demand.n], Do(CloseConnection));
    }
  }

  /** `for user in stream_users()` under `demand`: the rows the consumer
      receives, and everything the generator does meanwhile. */
  method StreamUsers(s: Session, demand: Demand) returns (rows: seq<User>)
    modifies s
    ensures s.log == old(s.log) + StreamUsersRun(s.table, s.reachable, demand)
    ensures rows == if s.reachable then Wanted(s.table, demand) else []
  {
    if demand == Take(0) {
      // the generator object is created but its body never starts
      return [];
    }
    rows := [];
    var connected := s.Connect();
    if !connected {
      s.Raise(NoCursor);
      Snoc2(old(s.log), Do(Connect), Step.Raise(NoCursor));
      return;
    }
    s.OpenCursor();
    s.Execute(SelectUsers);
    Snoc3(old(s.log), Do(Connect), Do(OpenCursor), Do(Execute(SelectUsers)));
    var exhausted;
    rows, exhausted := FetchUntilNone(s, demand);
    if !exhausted {
      Regroup(old(s.log), StreamStart, FetchLoop(rows));
      return;
    }
    s.CloseCursor();
    s.CloseConnection();
    Snoc3(old(s.log) + StreamStart + FetchLoop(rows), Do(FetchOne), Do(CloseCursor), Do(CloseConnection));
    Regroup(old(s.log) + StreamStart, FetchLoop(rows), StreamEnd);
    Regroup(old(s.log), StreamStart, FetchLoop(rows) + StreamEnd);
  }

  /** The `while True` loop of `stream_users`: fetchone() and yield the row,
      until fetchone() returns None (`exhausted`) or the consumer, having
      received the rows it asked for, stops calling `next()`. */
  method FetchUntilNone(s: Session, demand: Demand) returns (rows: seq<User>, exhausted: bool)
    requires demand != Take(0) && s.result == s.table && s.pos == 0
    modifies s
    ensures exhausted <==> demand.All? || demand.n > |s.table|
    ensures rows == Wanted(s.table, demand)
    ensures exhausted ==> s.log == old(s.log) + FetchLoop(rows) + [Do(FetchOne)]
    ensures !exhausted ==> s.log == old(s.log) + FetchLoop(rows)
  {
    rows := [];
    while true
      invariant s.result == s.table && s.pos == |rows| <= |s.table| && rows == s.table[..|rows|]
      invariant s.log == old(s.log) + FetchLoop(rows)
      invariant demand.Take? ==> |rows| < demand.n
      decreases |s.table| - |rows|
    {
      var row := s.FetchOne();
      if row.None? {
        return rows, true;
      }
      s.Yield(row.value);
      FetchLoopSnoc(rows, row.value);
      Snoc2(old(s.log) + FetchLoop(rows), Do(FetchOne), Step.Yield(row.value));
      rows := rows + [row.value];
      if demand.Take? && |rows| == demand.n {
        return rows, false;
      }
    }
  }
}
