/** What the generators over the `user_data` table of the ALX_prodev MySQL
    database share. A generator is modelled by its program: the sequence of
    steps it would take if its consumer asked for every row. A consumer that
    stops after `n` rows causes only the program's prefix up to and
    including its `n`-th yield; the rest never runs. */
module Generators {
  import opened Outcomes

  /** A row of `user_data`, as a dictionary cursor returns it. Every column
      is NOT NULL; `age` is a DECIMAL with no fractional digits. */
  datatype User = User(userId: string, name: string, email: string, age: int)

  /** The row queries the generators send. */
  datatype Query =
    | SelectUsers                          // SELECT * FROM user_data
    | SelectPage(limit: int, offset: int)  // SELECT * FROM user_data LIMIT limit OFFSET offset

  /** A call a generator makes on mysql.connector. */
  datatype Call =
    | Connect           // seed.connect_to_prodev()
    | OpenCursor        // connection.cursor(dictionary=True)
    | CountUsers        // execute("SELECT COUNT(*) as total FROM user_data")
    | Execute(q: Query)
    | FetchOne
    | FetchAll
    | CloseCursor
    | CloseConnection

  /** One step of a generator: a driver call, a row handed to the consumer,
      or an exception raised out of `next()`, which ends the generator. */
  datatype Step = Do(call: Call) | Yield(user: User) | Raise(error: Exc)

  /** How many rows the consumer asks for before it stops: all of them (a
      `for` loop run to the end) or `n`. */
  datatype Demand = All | Take(n: nat)

  /** The rows a consumer with `demand` wants from a source of `rows`. */
  function Wanted(rows: seq<User>, demand: Demand): (w: seq<User>)
    ensures w <= rows
    ensures demand.All? ==> w == rows
    ensures demand.Take? ==> |w| == if demand.n < |rows| then demand.n else |rows|
  {
    match demand
    case All => rows
    case Take(n) => if n <= |rows| then rows[..n] else rows
  }

  /** The rows a query returns from `table`, whose order is taken as fixed. */
  function Answer(table: seq<User>, q: Query): seq<User>
  {
    match q
    case SelectUsers => table
    case SelectPage(limit, offset) => Slice(table, offset, limit)
  }

  /** LIMIT `limit` OFFSET `offset`: at most `limit` rows, from row `offset`. */
  function Slice(table: seq<User>, offset: int, limit: int): (rows: seq<User>)
    ensures |rows| <= (if limit < 0 then 0 else limit)
    ensures 0 <= offset <= |table| ==> rows <= table[offset..]
    ensures 0 <= offset && 0 <= limit && offset + limit <= |table| ==> rows == table[offset..offset + limit]
    ensures 0 <= offset <= |table| && 0 <= limit && offset + limit > |table| ==> rows == table[offset..]
  {
    var from := if offset < 0 then 0 else if offset > |table| then |table| else offset;
    var to := if limit < 0 then from else if from + limit > |table| then |table| else from + limit;
    table[from..to]
  }

  // ---------------------------------------------------------------------
  // Programs and what a consumer observes of them

  /** The rows handed to the consumer in `steps`, in order. */
  function Yields(steps: seq<Step>): seq<User>
  {
    if steps == [] then []
    else (if steps[0].Yield? then [steps[0].user] else []) + Yields(steps[1..])
  }

  /** How many rows `steps` hands to the consumer. */
  function YieldCount(steps: seq<Step>): nat
  {
    if steps == [] then 0
    else (if steps[0].Yield? then 1 else 0) + YieldCount(steps[1..])
  }

  /** The prefix of `steps` that runs when the consumer asks for `n` rows:
      everything up to and including the `n`-th yield. With `n == 0` not
      even the first step runs: a generator does nothing until `next()`. */
  function Upto(steps: seq<Step>, n: nat): seq<Step>
    decreases |steps|
  {
    if n == 0 || steps == [] then []
    else [steps[0]] + Upto(steps[1..], if steps[0].Yield? then n - 1 else n)
  }

  /** What runs of `program` under `demand`. */
  function Observe(program: seq<Step>, demand: Demand): seq<Step>
  {
    match demand
    case All => program
    case Take(n) => Upto(program, n)
  }

  lemma {:induction false} YieldsAppend(a: seq<Step>, b: seq<Step>)
    ensures Yields(a + b) == Yields(a) + Yields(b)
    decreases |a|
  {
    if a == [] {
      assert a + b == b;
    } else {
      var head := if a[0].Yield? then [a[0].user] else [];
      assert (a + b)[0] == a[0] && (a + b)[1..] == a[1..] + b;
      YieldsAppend(a[1..], b);
      assert Yields(a + b) == head + Yields(a[1..] + b);
      assert Yields(a) == head + Yields(a[1..]);
    }
  }

  lemma {:induction false} YieldCountAppend(a: seq<Step>, b: seq<Step>)
    ensures YieldCount(a + b) == YieldCount(a) + YieldCount(b)
    decreases |a|
  {
    if a == [] {
      assert a + b == b;
    } else {
      assert (a + b)[1..] == a[1..] + b;
      YieldCountAppend(a[1..], b);
    }
  }

  lemma {:induction false} YieldCountIsLength(steps: seq<Step>)
    ensures YieldCount(steps) == |Yields(steps)|
    decreases |steps|
  {
    if steps != [] {
      YieldCountIsLength(steps[1..]);
    }
  }

  /** Only the middle part of `a + (m + e)` hands the consumer anything. */
  lemma YieldsBetween(a: seq<Step>, m: seq<Step>, e: seq<Step>)
    requires Yields(a) == [] && Yields(e) == []
    ensures Yields(a + (m + e)) == Yields(m)
    ensures YieldCount(a + (m + e)) == YieldCount(m)
  {
    YieldsAppend(m, e);
    YieldsAppend(a, m + e);
    YieldCountIsLength(a + (m + e));
    YieldCountIsLength(m);
  }

  /** Steps that are not yields hand the consumer nothing. */
  lemma {:induction false} YieldsNone(steps: seq<Step>)
    requires forall x :: x in steps ==> !x.Yield?
    ensures Yields(steps) == [] && YieldCount(steps) == 0
    decreases |steps|
  {
    if steps != [] {
      assert steps[0] in steps;
      assert forall x :: x in steps[1..] ==> x in steps;
      YieldsNone(steps[1..]);
    }
  }

  /** A consumer that asks for more rows than the program yields runs all of it. */
  lemma {:induction false} UptoWhole(steps: seq<Step>, n: nat)
    requires YieldCount(steps) < n
    ensures Upto(steps, n) == steps
    decreases |steps|
  {
    if steps != [] {
      UptoWhole(steps[1..], if steps[0].Yield? then n - 1 else n);
      assert steps == [steps[0]] + steps[1..];
    }
  }

  /** A consumer that stops at the `n`-th row stops the program right after
      the step that yielded it, whatever follows. */
  lemma {:induction false} UptoStopsAtYield(done: seq<Step>, rest: seq<Step>, n: nat)
    requires done != [] && done[|done| - 1].Yield? && YieldCount(done) == n
    ensures Upto(done + rest, n) == done
    decreases |done|
  {
    var steps := done + rest;
    assert steps[0] == done[0] && steps[1..] == done[1..] + rest;
    var m := if done[0].Yield? then n - 1 else n;
    if |done| == 1 {
      assert done[1..] == [];
      assert Upto(steps, n) == [steps[0]] + Upto(steps[1..], m);
    } else {
      UptoStopsAtYield(done[1..], rest, m);
      assert done == [done[0]] + done[1..];
    }
  }

  /** The same stop, after a part `a` that yields nothing. */
  lemma UptoStopsInside(a: seq<Step>, b: seq<Step>, rest: seq<Step>, n: nat)
    requires b != [] && b[|b| - 1].Yield?
    requires YieldCount(a) == 0 && YieldCount(b) == n
    ensures Upto(a + (b + rest), n) == a + b
  {
    YieldCountAppend(a, b);
    assert a + (b + rest) == (a + b) + rest;
    assert (a + b)[|a + b| - 1] == b[|b| - 1];
    UptoStopsAtYield(a + b, rest, n);
  }

  /** Whatever the program, the consumer receives its first `n` rows, or all
      of them when it asks for more. */
  lemma {:induction false} YieldsUpto(steps: seq<Step>, n: nat)
    ensures Yields(Upto(steps, n)) == if n <= |Yields(steps)| then Yields(steps)[..n] else Yields(steps)
    decreases |steps|
  {
    if n != 0 && steps != [] {
      var m := if steps[0].Yield? then n - 1 else n;
      YieldsUpto(steps[1..], m);
      assert steps == [steps[0]] + steps[1..];
      YieldsAppend([steps[0]], steps[1..]);
      YieldsAppend([steps[0]], Upto(steps[1..], m));
    }
  }

  /** A lazy consumer receives exactly the rows it wants of those the
      program would hand out: all of them, or the first `n`. */
  lemma ObserveDelivers(program: seq<Step>, demand: Demand)
    ensures Yields(Observe(program, demand)) == Wanted(Yields(program), demand)
  {
    if demand.Take? {
      YieldsUpto(program, demand.n);
    }
  }

  // ---------------------------------------------------------------------
  // Facts about sequences, stated once for any element type

  lemma Snoc2<T>(p: seq<T>, x: T, y: T)
    ensures p + [x] + [y] == p + [x, y]
  {
  }

  lemma Snoc3<T>(p: seq<T>, x: T, y: T, z: T)
    ensures p + [x] + [y] + [z] == p + [x, y, z]
  {
  }

  lemma Regroup<T>(p: seq<T>, a: seq<T>, m: seq<T>)
    ensures p + a + m == p + (a + m)
  {
  }

  /** A sequence is its prefix followed by the rest. */
  lemma SplitAtPrefix<T>(x: seq<T>, y: seq<T>)
    requires x <= y
    ensures y == x + y[|x|..]
  {
  }

  /** A prefix of a prefix is the prefix of that length. */
  lemma PrefixOfPrefix<T>(x: seq<T>, y: seq<T>, z: seq<T>)
    requires x <= y && y <= z
    ensures |x| <= |z| && x == z[..|x|]
  {
  }

  lemma EndsWith<T>(a: seq<T>, e: seq<T>)
    requires |e| >= 2
    ensures |a + e| >= 2 && (a + e)[|a + e| - 2..] == e[|e| - 2..]
  {
    assert (a + e)[|a + e| - 2..] == e[|e| - 2..];
  }

  // ---------------------------------------------------------------------
  // The MySQL side

  /** Everything a generator run does, seen from outside: the calls it makes
      on one MySQL connection and its dictionary cursor, and the rows and the
      exception it hands its consumer. */
  class Session {
    const table: seq<User>   // user_data, in the order the server returns it
    const reachable: bool    // whether seed.connect_to_prodev() connects
    var log: seq<Step>
    var result: seq<User>    // the result set of the cursor's last query
    var pos: nat             // the position of the next row fetchone() returns

    constructor (table: seq<User>, reachable: bool)
      ensures this.table == table && this.reachable == reachable
      ensures log == [] && result == [] && pos == 0
    {
      this.table := table;
      this.reachable := reachable;
      log, result, pos := [], [], 0;
    }

    method Connect() returns (connected: bool)
      modifies this
      ensures connected == reachable && log == old(log) + [Do(Call.Connect)]
      ensures result == old(result) && pos == old(pos)
    {
      log := log + [Do(Call.Connect)];
      connected := reachable;
    }

    method OpenCursor()
      modifies this
      ensures log == old(log) + [Do(Call.OpenCursor)] && result == old(result) && pos == old(pos)
    {
      log := log + [Do(Call.OpenCursor)];
    }

    /** Executes the COUNT(*) query and reads `total` from its one row. */
    method Count() returns (total: nat)
      modifies this
      ensures total == |table| && log == old(log) + [Do(CountUsers), Do(Call.FetchOne)]
      ensures result == old(result) && pos == old(pos)
    {
      log := log + [Do(CountUsers), Do(Call.FetchOne)];
      total := |table|;
    }

    method Execute(q: Query)
      modifies this
      ensures log == old(log) + [Do(Call.Execute(q))] && result == Answer(table, q) && pos == 0
    {
      log := log + [Do(Call.Execute(q))];
      result, pos := Answer(table, q), 0;
    }

    /** The next row of the result set, or None after the last. */
    method FetchOne() returns (row: Option<User>)
      modifies this
      ensures log == old(log) + [Do(Call.FetchOne)] && result == old(result)
      ensures old(pos) < |result| ==> row == Some(result[old(pos)]) && pos == old(pos) + 1
      ensures old(pos) >= |result| ==> row == None && pos == old(pos)
    {
      log := log + [Do(Call.FetchOne)];
      if pos < |result| {
        row := Some(result[pos]);
        pos := pos + 1;
      } else {
        row := None;
      }
    }

    /** The rows of the result set not fetched yet. */
    method FetchAll() returns (rows: seq<User>)
      modifies this
      ensures log == old(log) + [Do(Call.FetchAll)] && result == old(result)
      ensures rows == if old(pos) < |result| then result[old(pos)..] else []
      ensures pos == if old(pos) < |result| then |result| else old(pos)
    {
      log := log + [Do(Call.FetchAll)];
      if pos < |result| {
        rows := result[pos..];
        pos := |result|;
      } else {
        rows := [];
      }
    }

    method CloseCursor()
      modifies this
      ensures log == old(log) + [Do(Call.CloseCursor)] && result == old(result) && pos == old(pos)
    {
      log := log + [Do(Call.CloseCursor)];
    }

    method CloseConnection()
      modifies this
      ensures log == old(log) + [Do(Call.CloseConnection)] && result == old(result) && pos == old(pos)
    {
      log := log + [Do(Call.CloseConnection)];
    }

    /** `yield user`: the consumer receives the row. */
    method Yield(user: User)
      modifies this
      ensures log == old(log) + [Step.Yield(user)] && result == old(result) && pos == old(pos)
    {
      log := log + [Step.Yield(user)];
    }

    /** An exception leaves the generator through the consumer's `next()`. */
    method Raise(e: Exc)
      modifies this
      ensures log == old(log) + [Step.Raise(e)] && result == old(result) && pos == old(pos)
    {
      log := log + [Step.Raise(e)];
    }
  }
}
