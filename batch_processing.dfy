/** `stream_users_in_batches(batch_size)`: count the rows of `user_data`,
    then for each offset of `range(0, total, batch_size)` fetch one page of
    at most `batch_size` rows and yield its rows one by one; then close the
    cursor and the connection. `batch_processing()` consumes it with a batch
    size of 100 and prints the users older than 25. */
module BatchStream {
  import opened Outcomes
  import opened Errors
  import opened Generators
  import opened PyRange

  // ---------------------------------------------------------------------
  // One page

  /** `for user in batch: yield user`. */
  function YieldEach(rows: seq<User>): seq<Step>
  {
    if rows == [] then [] else YieldEach(rows[..|rows| - 1]) + [Yield(rows[|rows| - 1])]
  }

  lemma {:induction false} YieldEachYields(rows: seq<User>)
    ensures |YieldEach(rows)| == |rows|
    ensures Yields(YieldEach(rows)) == rows && YieldCount(YieldEach(rows)) == |rows|
    decreases |rows|
  {
    if rows != [] {
      var init, last := rows[..|rows| - 1], rows[|rows| - 1];
      YieldEachYields(init);
      YieldsAppend(YieldEach(init), [Yield(last)]);
      YieldCountAppend(YieldEach(init), [Yield(last)]);
      assert [Yield(last)][1..] == [];
      assert init + [last] == rows;
    }
  }

  /** The loop does nothing but yield. */
  lemma {:induction false} YieldEachOnlyYields(rows: seq<User>)
    ensures forall x :: x in YieldEach(rows) ==> x.Yield?
    decreases |rows|
  {
    if rows != [] {
      YieldEachOnlyYields(rows[..|rows| - 1]);
    }
  }

  lemma YieldEachSnoc(rows: seq<User>, row: User)
    ensures YieldEach(rows + [row]) == YieldEach(rows) + [Yield(row)]
  {
    assert (rows + [row])[..|rows|] == rows;
  }

  lemma YieldEachEndsWithYield(rows: seq<User>)
    requires rows != []
    ensures YieldEach(rows) != [] && YieldEach(rows)[|YieldEach(rows)| - 1].Yield?
  {
  }

  /** Yielding the first rows of a batch runs a prefix of yielding all of it. */
  lemma {:induction false} YieldEachPrefix(part: seq<User>, rows: seq<User>)
    requires part <= rows
    ensures YieldEach(rows) == YieldEach(part) + YieldEach(rows[|part|..])
    decreases |rows|
  {
    if |part| < |rows| {
      var init := rows[..|rows| - 1];
      assert part <= init;
      YieldEachPrefix(part, init);
      assert init[|part|..] + [rows[|rows| - 1]] == rows[|part|..];
      YieldEachSnoc(init[|part|..], rows[|rows| - 1]);
    } else {
      assert part == rows && rows[|part|..] == [];
    }
  }

  /** One page: the LIMIT/OFFSET query, fetchall(), then a yield per row. */
  function Page(step: int, offset: int, rows: seq<User>): seq<Step>
  {
    [Do(Execute(SelectPage(step, offset))), Do(FetchAll)] + YieldEach(rows)
  }

  lemma PageYields(step: int, offset: int, rows: seq<User>)
    ensures Yields(Page(step, offset, rows)) == rows && YieldCount(Page(step, offset, rows)) == |rows|
  {
    var head: seq<Step> := [Do(Execute(SelectPage(step, offset))), Do(FetchAll)];
    YieldsNone(head);
    YieldEachYields(rows);
    YieldsAppend(head, YieldEach(rows));
    YieldCountAppend(head, YieldEach(rows));
  }

  // ---------------------------------------------------------------------
  // The pages

  /** The pages at `offsets`, each holding the rows its query returns. */
  function Pages(table: seq<User>, step: int, offsets: seq<int>): seq<Step>
  {
    if offsets == [] then []
    else
      var offset := offsets[|offsets| - 1];
      Pages(table, step, offsets[..|offsets| - 1]) + Page(step, offset, Slice(table, offset, step))
  }

  lemma PagesSnoc(table: seq<User>, step: int, offsets: seq<int>, k: nat)
    requires k < |offsets|
    ensures Pages(table, step, offsets[..k + 1]) ==
      Pages(table, step, offsets[..k]) + Page(step, offsets[k], Slice(table, offsets[k], step))
  {
    assert offsets[..k + 1][..k] == offsets[..k];
  }

  /** The first `k` pages run first. */
  lemma {:induction false} PagesPrefix(table: seq<User>, step: int, offsets: seq<int>, k: nat)
    requires k <= |offsets|
    ensures Pages(table, step, offsets[..k]) <= Pages(table, step, offsets)
    decreases |offsets|
  {
    if k < |offsets| {
      var init := offsets[..|offsets| - 1];
      assert offsets[..k] == init[..k];
      PagesPrefix(table, step, init, k);
    } else {
      assert offsets[..k] == offsets;
    }
  }

  /** A step of the paging loop: a page query, fetchall() or a yield. */
  predicate Fetching(x: Step)
  {
    x.Yield? || x == Do(FetchAll) || (x.Do? && x.call.Execute?)
  }

  lemma {:induction false} PagesFetchOnly(table: seq<User>, step: int, offsets: seq<int>)
    ensures forall x :: x in Pages(table, step, offsets) ==> Fetching(x)
    decreases |offsets|
  {
    if offsets != [] {
      var offset := offsets[|offsets| - 1];
      PagesFetchOnly(table, step, offsets[..|offsets| - 1]);
      YieldEachOnlyYields(Slice(table, offset, step));
    }
  }

  /** The queries executed in `steps`, in order. */
  function Executed(steps: seq<Step>): seq<Query>
  {
    if steps == [] then []
    else (if steps[0].Do? && steps[0].call.Execute? then [steps[0].call.q] else []) + Executed(steps[1..])
  }

  lemma {:induction false} ExecutedAppend(a: seq<Step>, b: seq<Step>)
    ensures Executed(a + b) == Executed(a) + Executed(b)
    decreases |a|
  {
    if a == [] {
      assert a + b == b;
    } else {
      assert (a + b)[1..] == a[1..] + b;
      ExecutedAppend(a[1..], b);
    }
  }

  lemma {:induction false} ExecutedNone(steps: seq<Step>)
    requires forall x :: x in steps ==> !(x.Do? && x.call.Execute?)
    ensures Executed(steps) == []
    decreases |steps|
  {
    if steps != [] {
      assert steps[0] in steps;
      assert forall x :: x in steps[1..] ==> x in steps;
      ExecutedNone(steps[1..]);
    }
  }

  /** The pages execute one query per offset, in order, each asking for
      `step` rows at its offset. */
  lemma {:induction false} PagesExecuted(table: seq<User>, step: int, offsets: seq<int>)
    ensures |Executed(Pages(table, step, offsets))| == |offsets|
    ensures forall i :: 0 <= i < |offsets| ==> Executed(Pages(table, step, offsets))[i] == SelectPage(step, offsets[i])
    decreases |offsets|
  {
    if offsets != [] {
      var init, offset := offsets[..|offsets| - 1], offsets[|offsets| - 1];
      var rows := Slice(table, offset, step);
      var head: seq<Step> := [Do(Execute(SelectPage(step, offset))), Do(FetchAll)];
      PagesExecuted(table, step, init);
      YieldEachOnlyYields(rows);
      ExecutedNone(YieldEach(rows));
      ExecutedAppend(head, YieldEach(rows));
      assert Executed(head) == [SelectPage(step, offset)];
      ExecutedAppend(Pages(table, step, init), Page(step, offset, rows));
    }
  }

  /** How many rows of a `total`-row table the first `k` pages of
      `range(0, total, step)` cover. */
  function Covered(total: nat, step: int, k: nat): (c: nat)
    requires step > 0 && k <= |Range(0, total, step)|
    ensures c <= total
  {
    RangeShape(0, total, step);
    var offsets := Range(0, total, step);
    if k < |offsets| then offsets[k] else total
  }

  /** The `k`-th page of `range(0, |table|, step)` continues the rows before
      it, up to where the next page starts or to the end of the table. */
  lemma PageCovers(table: seq<User>, step: int, k: nat)
    requires step > 0 && k < |Range(0, |table|, step)|
    ensures var offsets := Range(0, |table|, step);
      0 <= offsets[k] < |table| &&
      table[..offsets[k]] + Slice(table, offsets[k], step) == table[..Covered(|table|, step, k + 1)]
  {
    var offsets := Range(0, |table|, step);
    RangeShape(0, |table|, step);
    var offset := offsets[k];
    var next := Covered(|table|, step, k + 1);
    assert offset < next <= |table|;
    if k + 1 < |offsets| {
      assert next == offset + step;
    }
    assert Slice(table, offset, step) == table[offset..next];
  }

  /** The first `k` pages hand the consumer the rows they cover, in order. */
  lemma {:induction false} PagesYield(table: seq<User>, step: int, k: nat)
    requires step > 0 && k <= |Range(0, |table|, step)|
    ensures var offsets := Range(0, |table|, step);
      Yields(Pages(table, step, offsets[..k])) == table[..Covered(|table|, step, k)]
    decreases k
  {
    var offsets := Range(0, |table|, step);
    RangeShape(0, |table|, step);
    if k == 0 {
      assert offsets[..k] == [];
    } else {
      PagesYield(table, step, k - 1);
      PagesSnoc(table, step, offsets, k - 1);
      var offset := offsets[k - 1];
      var page := Slice(table, offset, step);
      PageYields(step, offset, page);
      YieldsAppend(Pages(table, step, offsets[..k - 1]), Page(step, offset, page));
      PageCovers(table, step, k - 1);
    }
  }

  // ---------------------------------------------------------------------
  // The generator

  const BatchStart: seq<Step> := [Do(Connect), Do(OpenCursor), Do(CountUsers), Do(FetchOne)]
  const BatchEnd: seq<Step> := [Do(CloseCursor), Do(CloseConnection)]

  lemma StartAndEndYieldNothing()
    ensures YieldCount(BatchStart) == 0 && Yields(BatchStart) == []
    ensures YieldCount(BatchEnd) == 0 && Yields(BatchEnd) == []
  {
    YieldsNone(BatchStart);
    YieldsNone(BatchEnd);
  }

  lemma StartAndEndQueryNothing()
    ensures Executed(BatchStart) == [] && Executed(BatchEnd) == []
  {
    ExecutedNone(BatchStart);
    ExecutedNone(BatchEnd);
  }

  /** The program of `stream_users_in_batches(step)`, as it runs when its
      consumer asks for every row. Without a connection it raises on its
      second line; with a zero step `range` raises once the rows are
      counted. */
  function BatchProgram(table: seq<User>, reachable: bool, step: int): seq<Step>
  {
    if !reachable then [Do(Connect), Raise(NoCursor)]
    else if step == 0 then BatchStart + [Raise(ZeroStep)]
    else BatchStart + (Pages(table, step, Range(0, |table|, step)) + BatchEnd)
  }

  /** The rows the program hands out: the table for a positive step, and
      none for a negative one, whose range from 0 up to the count is empty. */
  function Delivered(table: seq<User>, step: int): seq<User>
  {
    if step > 0 then table else []
  }

  /** The pages that run until the `n`-th row is yielded: the full pages
      before it, then the query and fetchall() of its page and the yields of
      that page's rows up to the `n`-th. */
  function PagesUntil(table: seq<User>, step: int, n: int): seq<Step>
    requires step > 0 && n > 0
  {
    var below := Range(0, n, step);
    var p := |below| - 1;
    Pages(table, step, below[..p]) + Page(step, below[p], Slice(table, below[p], n - below[p]))
  }

  /** What runs of `stream_users_in_batches(step)` when its consumer has
      `demand`: nothing when no row is asked for, the whole program when the
      program fails or has no more rows than asked for, and otherwise the
      pages up to the yield of the last row asked for. */
  function BatchRun(table: seq<User>, reachable: bool, step: int, demand: Demand): seq<Step>
  {
    if demand == Take(0) then []
    else if !reachable || demand.All? || demand.n > |Delivered(table, step)| then BatchProgram(table, reachable, step)
    else BatchStart + PagesUntil(table, step, demand.n)
  }

  /** For a positive step, the program hands the consumer every row of the
      table, in order, each once; otherwise no row. */
  lemma BatchProgramYieldsTable(table: seq<User>, reachable: bool, step: int)
    ensures Yields(BatchProgram(table, reachable, step)) == if reachable then Delivered(table, step) else []
    ensures YieldCount(BatchProgram(table, reachable, step)) == if reachable then |Delivered(table, step)| else 0
  {
    var program := BatchProgram(table, reachable, step);
    if !reachable {
      YieldsNone(program);
    } else if step == 0 {
      YieldsNone(program);
    } else {
      var offsets := Range(0, |table|, step);
      var pages := Pages(table, step, offsets);
      if step > 0 {
        PagesYield(table, step, |offsets|);
        assert offsets[..|offsets|] == offsets;
      } else {
        RangeBackwardsEmpty(0, |table|, step);
      }
      assert Yields(pages) == Delivered(table, step);
      StartAndEndYieldNothing();
      YieldsBetween(BatchStart, pages, BatchEnd);
      YieldCountIsLength(pages);
    }
  }

  /** Where the row `n` lies: its page is the last offset below `n`, which
      the offsets of the whole table share. */
  lemma PageOfRow(table: seq<User>, step: int, n: int) returns (p: nat)
    requires step > 0 && 0 < n <= |table|
    ensures var offsets, below := Range(0, |table|, step), Range(0, n, step);
      p == |below| - 1 && p < |offsets| && below[..p] == offsets[..p] && below[p] == offsets[p] &&
      0 <= offsets[p] < n <= offsets[p] + step
  {
    var offsets, below := Range(0, |table|, step), Range(0, n, step);
    RangeMonotone(0, n, |table|, step);
    RangeShape(0, n, step);
    p := |below| - 1;
    assert below[p] == offsets[p];
  }

  /** The rows of the page of row `n` up to it. */
  lemma PageUpTo(table: seq<User>, step: int, offset: int, n: int)
    requires step > 0 && 0 <= offset < n <= offset + step && n <= |table|
    ensures Slice(table, offset, n - offset) == table[offset..n]
    ensures Slice(table, offset, n - offset) <= Slice(table, offset, step)
  {
  }

  /** The pages until row `n` hand the consumer the first `n` rows. */
  lemma PagesUntilYields(table: seq<User>, step: int, n: int)
    requires step > 0 && 0 < n <= |table|
    ensures Yields(PagesUntil(table, step, n)) == table[..n]
    ensures YieldCount(PagesUntil(table, step, n)) == n
  {
    var offsets := Range(0, |table|, step);
    var p := PageOfRow(table, step, n);
    var offset := offsets[p];
    var part := Slice(table, offset, n - offset);
    var before := Pages(table, step, offsets[..p]);
    assert PagesUntil(table, step, n) == before + Page(step, offset, part);
    PageUpTo(table, step, offset, n);
    PagesYield(table, step, p);
    assert Covered(|table|, step, p) == offset;
    PageYields(step, offset, part);
    YieldsAppend(before, Page(step, offset, part));
    assert table[..offset] + table[offset..n] == table[..n];
    YieldCountIsLength(PagesUntil(table, step, n));
  }

  /** The pages until row `n` end with the yield of row `n`. */
  lemma PagesUntilEndsWithYield(table: seq<User>, step: int, n: int)
    requires step > 0 && 0 < n <= |table|
    ensures var run := PagesUntil(table, step, n); run != [] && run[|run| - 1].Yield?
  {
    var offsets := Range(0, |table|, step);
    var p := PageOfRow(table, step, n);
    var offset := offsets[p];
    var part := Slice(table, offset, n - offset);
    PageUpTo(table, step, offset, n);
    YieldEachEndsWithYield(part);
    var head: seq<Step> := [Do(Execute(SelectPage(step, offset))), Do(FetchAll)];
    var before := Pages(table, step, offsets[..p]);
    Regroup(before, head, YieldEach(part));
    assert PagesUntil(table, step, n) == before + head + YieldEach(part);
  }

  /** The pages until row `n` are where the whole run of pages starts. */
  lemma PagesUntilSplits(table: seq<User>, step: int, n: int) returns (rest: seq<Step>)
    requires step > 0 && 0 < n <= |table|
    ensures Pages(table, step, Range(0, |table|, step)) == PagesUntil(table, step, n) + rest
  {
    var offsets := Range(0, |table|, step);
    var p := PageOfRow(table, step, n);
    var offset := offsets[p];
    var part, full := Slice(table, offset, n - offset), Slice(table, offset, step);
    var head: seq<Step> := [Do(Execute(SelectPage(step, offset))), Do(FetchAll)];
    var before := Pages(table, step, offsets[..p]);
    PageUpTo(table, step, offset, n);
    YieldEachPrefix(part, full);
    var more := YieldEach(full[|part|..]);
    Regroup(head, YieldEach(part), more);
    assert Page(step, offset, full) == Page(step, offset, part) + more;
    PagesPrefix(table, step, offsets, p + 1);
    SplitAtPrefix(Pages(table, step, offsets[..p + 1]), Pages(table, step, offsets));
    var tail := Pages(table, step, offsets)[|Pages(table, step, offsets[..p + 1])|..];
    PagesSnoc(table, step, offsets, p);
    Regroup(before, Page(step, offset, part), more);
    rest := more + tail;
    Regroup(before + Page(step, offset, part), more, tail);
  }

  /** The cases of `BatchRun` are exactly what a lazy consumer observes of
      the program. */
  lemma BatchRunIsObserved(table: seq<User>, reachable: bool, step: int, demand: Demand)
    ensures Observe(BatchProgram(table, reachable, step), demand) == BatchRun(table, reachable, step, demand)
  {
    var program := BatchProgram(table, reachable, step);
    if demand == Take(0) || demand.All? {
    } else if !reachable || demand.n > |Delivered(table, step)| {
      BatchProgramYieldsTable(table, reachable, step);
      UptoWhole(program, demand.n);
    } else {
      var n := demand.n;
      var until := PagesUntil(table, step, n);
      var rest := PagesUntilSplits(table, step, n);
      PagesUntilYields(table, step, n);
      PagesUntilEndsWithYield(table, step, n);
      StartAndEndYieldNothing();
      Regroup(until, rest, BatchEnd);
      UptoStopsInside(BatchStart, until, rest + BatchEnd, n);
    }
  }

  /** The consumer receives the table's rows in order, all of them or the
      first `n` it asked for; none for a step that is not positive and none
      without a connection. */
  lemma BatchDelivers(table: seq<User>, reachable: bool, step: int, demand: Demand)
    ensures Yields(BatchRun(table, reachable, step, demand)) ==
      if reachable then Wanted(Delivered(table, step), demand) else []
  {
    BatchRunIsObserved(table, reachable, step, demand);
    BatchProgramYieldsTable(table, reachable, step);
    ObserveDelivers(BatchProgram(table, reachable, step), demand);
  }

  /** The queries of the program are those of its pages. */
  lemma BatchExecuted(table: seq<User>, step: int)
    requires step != 0
    ensures Executed(BatchProgram(table, true, step)) == Executed(Pages(table, step, Range(0, |table|, step)))
  {
    var pages := Pages(table, step, Range(0, |table|, step));
    StartAndEndQueryNothing();
    ExecutedAppend(pages, BatchEnd);
    ExecutedAppend(BatchStart, pages + BatchEnd);
  }

  /** For a positive step the page queries ask for `step` rows at offsets
      `0, step, 2 * step, ...` below the count, and there are
      `ceil(|table| / step)` of them. */
  lemma BatchPageQueries(table: seq<User>, step: int)
    requires step > 0
    ensures var queries := Executed(BatchProgram(table, true, step));
      |queries| == (|table| + step - 1) / step &&
      forall i :: 0 <= i < |queries| ==> queries[i] == SelectPage(step, i * step) && i * step < |table|
  {
    var offsets := Range(0, |table|, step);
    var queries := Executed(BatchProgram(table, true, step));
    BatchExecuted(table, step);
    PagesExecuted(table, step, offsets);
    RangeLength(|table|, step);
    forall i | 0 <= i < |queries|
      ensures queries[i] == SelectPage(step, i * step) && i * step < |table|
    {
      assert queries[i] == SelectPage(step, offsets[i]);
      RangeAt(0, |table|, step, i);
    }
  }

  /** The cursor and then the connection are closed, each once and as the
      last two steps, exactly when the consumer asks for more rows than the program hands
      out; a consumer that stops earlier leaves both open. */
  lemma BatchClosesOnlyWhenExhausted(table: seq<User>, step: int, demand: Demand)
    requires step != 0
    ensures var run := BatchRun(table, true, step, demand);
      var exhausted := demand.All? || demand.n > |Delivered(table, step)|;
      (exhausted ==> |run| >= 2 && run[|run| - 2..] == [Do(CloseCursor), Do(CloseConnection)] &&
                     Do(CloseCursor) !in run[..|run| - 2] && Do(CloseConnection) !in run[..|run| - 2]) &&
      (!exhausted ==> Do(CloseCursor) !in run && Do(CloseConnection) !in run)
  {
    if demand.All? || demand.n > |Delivered(table, step)| {
      var pages := Pages(table, step, Range(0, |table|, step));
      Regroup(BatchStart, pages, BatchEnd);
      EndsWith(BatchStart + pages, BatchEnd);
      PagesFetchOnly(table, step, Range(0, |table|, step));
      var run := BatchRun(table, true, step, demand);
      assert run[..|run| - 2] == BatchStart + pages;
    } else if demand.n > 0 {
      PagesUntilFetchOnly(table, step, demand.n);
    }
  }

  lemma PagesUntilFetchOnly(table: seq<User>, step: int, n: int)
    requires step > 0 && n > 0
    ensures forall x :: x in PagesUntil(table, step, n) ==> Fetching(x)
  {
    var below := Range(0, n, step);
    var p := |below| - 1;
    var part := Slice(table, below[p], n - below[p]);
    PagesFetchOnly(table, step, below[..p]);
    YieldEachOnlyYields(part);
  }

  /** A step that is not positive sends no page query and yields nothing: a
      zero step makes `range` raise ValueError right after the count, and a
      negative one runs no page and closes the cursor and the connection. */
  lemma BatchNonPositiveStep(table: seq<User>, step: int, demand: Demand)
    requires step <= 0
    ensures var run := BatchRun(table, true, step, demand);
      Executed(run) == [] && Yields(run) == [] &&
      (demand != Take(0) && step == 0 ==> run != [] && run[|run| - 1] == Raise(ZeroStep)) &&
      (demand != Take(0) && step < 0 ==> |run| >= 2 && run[|run| - 2..] == [Do(CloseCursor), Do(CloseConnection)])
  {
    var run := BatchRun(table, true, step, demand);
    if demand != Take(0) {
      if step == 0 {
        assert run == BatchStart + [Raise(ZeroStep)];
      } else {
        RangeBackwardsEmpty(0, |table|, step);
        assert run == BatchStart + BatchEnd;
      }
      YieldsNone(run);
      ExecutedNone(run);
    }
  }

  // ---------------------------------------------------------------------
  // Running it

  /** The demand left once `have` rows have been received. */
  function Remaining(demand: Demand, have: nat): Demand
  {
    match demand
    case All => All
    case Take(n) => Take(if have < n then n - have else 0)
  }

  /** `for user in stream_users_in_batches(batchSize)` under `demand`: the
      rows the consumer receives, the exception that escapes `next()`, and
      everything the generator does meanwhile. */
  method StreamUsersInBatches(s: Session, batchSize: int, demand: Demand) returns (rows: seq<User>, error: Option<Exc>)
    modifies s
    ensures s.log == old(s.log) + BatchRun(s.table, s.reachable, batchSize, demand)
    ensures rows == if s.reachable then Wanted(Delivered(s.table, batchSize), demand) else []
    ensures error == if demand == Take(0) then None
      else if !s.reachable then Some(NoCursor)
      else if batchSize == 0 then Some(ZeroStep)
      else None
  {
    if demand == Take(0) {
      // the generator object is created but its body never starts
      return [], None;
    }
    var connected := s.Connect();
    if !connected {
      s.Raise(NoCursor);
      Snoc2(old(s.log), Do(Connect), Step.Raise(NoCursor));
      return [], Some(NoCursor);
    }
    s.OpenCursor();
    var total := s.Count();
    assert s.log == old(s.log) + BatchStart;
    if batchSize == 0 {
      s.Raise(ZeroStep);
      return [], Some(ZeroStep);
    }
    var offsets := Range(0, total, batchSize);
    var start := s.log;
    error := None;
    if batchSize < 0 {
      RangeBackwardsEmpty(0, total, batchSize);
      rows := [];
    } else {
      var exhausted;
      rows, exhausted := FetchPages(s, batchSize, total, demand);
      if !exhausted {
        Regroup(old(s.log), BatchStart, PagesUntil(s.table, batchSize, demand.n));
        return;
      }
    }
    assert s.log == start + Pages(s.table, batchSize, offsets);
    s.CloseCursor();
    s.CloseConnection();
    Snoc2(start + Pages(s.table, batchSize, offsets), Do(CloseCursor), Do(CloseConnection));
    Regroup(start, Pages(s.table, batchSize, offsets), BatchEnd);
    Regroup(old(s.log), BatchStart, Pages(s.table, batchSize, offsets) + BatchEnd);
  }

  /** The `for offset in range(0, total_rows, batch_size)` loop: one page
      query and fetchall() per offset, then the page's rows one by one,
      until the offsets run out (`exhausted`) or the consumer, having
      received the rows it asked for, stops calling `next()`. */
  method FetchPages(s: Session, step: int, total: int, demand: Demand) returns (rows: seq<User>, exhausted: bool)
    requires step > 0 && total == |s.table| && demand != Take(0)
    modifies s
    ensures exhausted <==> demand.All? || demand.n > |s.table|
    ensures rows == Wanted(s.table, demand)
    ensures exhausted ==> s.log == old(s.log) + Pages(s.table, step, Range(0, total, step))
    ensures !exhausted ==> s.log == old(s.log) + PagesUntil(s.table, step, demand.n)
  {
    var offsets := Range(0, total, step);
    rows := [];
    var k := 0;
    while k < |offsets|
      invariant k <= |offsets|
      invariant rows == s.table[..Covered(total, step, k)]
      invariant s.log == old(s.log) + Pages(s.table, step, offsets[..k])
      invariant demand.Take? ==> |rows| < demand.n
    {
      var offset := offsets[k];
      PageCovers(s.table, step, k);
      assert |rows| == offset;
      var given := RunPage(s, step, offset, Remaining(demand, |rows|));
      Regroup(old(s.log), Pages(s.table, step, offsets[..k]), Page(step, offset, given));
      if demand.Take? && |rows| + |given| == demand.n {
        PageStops(s.table, step, k, offset, demand, given);
        return rows + given, false;
      }
      PageContinues(s.table, step, k, offset, demand, given);
      rows := rows + given;
      k := k + 1;
    }
    assert offsets[..k] == offsets;
    return rows, true;
  }

  /** One iteration of the offset loop: the page query, fetchall(), then
      the page's rows for a consumer that wants `demand` more. */
  method RunPage(s: Session, step: int, offset: int, demand: Demand) returns (given: seq<User>)
    requires demand != Take(0)
    modifies s
    ensures given == Wanted(Slice(s.table, offset, step), demand)
    ensures s.log == old(s.log) + Page(step, offset, given)
  {
    s.Execute(SelectPage(step, offset));
    var batch := s.FetchAll();
    var head: seq<Step> := [Do(Execute(SelectPage(step, offset))), Do(FetchAll)];
    Snoc2(old(s.log), head[0], head[1]);
    given := YieldBatch(s, batch, demand);
    Regroup(old(s.log), head, YieldEach(given));
  }

  /** A consumer still wanting rows after the whole `k`-th page has received
      the rows the first `k + 1` pages cover, and the generator has run
      those pages. */
  lemma PageContinues(table: seq<User>, step: int, k: nat, offset: nat, demand: Demand, given: seq<User>)
    requires step > 0 && k < |Range(0, |table|, step)| && offset == Range(0, |table|, step)[k] < |table|
    requires demand.Take? ==> offset < demand.n
    requires given == Wanted(Slice(table, offset, step), Remaining(demand, offset))
    requires !(demand.Take? && offset + |given| == demand.n)
    ensures table[..offset] + given == table[..Covered(|table|, step, k + 1)]
    ensures Pages(table, step, Range(0, |table|, step)[..k + 1]) ==
      Pages(table, step, Range(0, |table|, step)[..k]) + Page(step, offset, given)
    ensures demand.Take? ==> Covered(|table|, step, k + 1) < demand.n
  {
    var batch := Slice(table, offset, step);
    assert given == batch;
    PageCovers(table, step, k);
    PagesSnoc(table, step, Range(0, |table|, step), k);
  }

  /** A consumer that stops at row `n`, inside the page at `offset`, has
      received the first `n` rows. */
  lemma StopsInPage(table: seq<User>, step: int, offset: int, n: int, given: seq<User>)
    requires step > 0 && 0 <= offset < |table| && offset < n
    requires given == Wanted(Slice(table, offset, step), Take(n - offset)) && offset + |given| == n
    ensures n <= |table| && n <= offset + step
    ensures table[..offset] + given == table[..n]
    ensures given == Slice(table, offset, n - offset)
  {
    var batch := Slice(table, offset, step);
    assert |batch| <= step && batch <= table[offset..];
    PrefixOfPrefix(given, batch, table[offset..]);
    assert table[..offset] + table[offset..][..n - offset] == table[..n];
  }

  /** The generator, stopped at row `n` inside the `k`-th page, has run the
      pages until row `n`. */
  lemma StopsInPageRuns(table: seq<User>, step: int, k: nat, n: int, given: seq<User>)
    requires step > 0 && k < |Range(0, |table|, step)| && 0 < n
    requires Range(0, |table|, step)[k] < n <= Range(0, |table|, step)[k] + step
    requires given == Slice(table, Range(0, |table|, step)[k], n - Range(0, |table|, step)[k])
    ensures PagesUntil(table, step, n) ==
      Pages(table, step, Range(0, |table|, step)[..k]) + Page(step, Range(0, |table|, step)[k], given)
  {
    RangeBelow(0, |table|, step, k, n);
    assert Range(0, n, step)[..k] == Range(0, |table|, step)[..k];
  }

  /** Both of the above, for the `k`-th page of the offset loop. */
  lemma PageStops(table: seq<User>, step: int, k: nat, offset: nat, demand: Demand, given: seq<User>)
    requires step > 0 && k < |Range(0, |table|, step)| && offset == Range(0, |table|, step)[k] < |table|
    requires demand.Take? && offset < demand.n
    requires given == Wanted(Slice(table, offset, step), Remaining(demand, offset))
    requires offset + |given| == demand.n
    ensures demand.n <= |table| && table[..offset] + given == Wanted(table, demand)
    ensures PagesUntil(table, step, demand.n) == Pages(table, step, Range(0, |table|, step)[..k]) + Page(step, offset, given)
  {
    var n := demand.n;
    assert Remaining(demand, offset) == Take(n - offset);
    StopsInPage(table, step, offset, n, given);
    assert Wanted(table, demand) == table[..n];
    StopsInPageRuns(table, step, k, n, given);
  }

  /** `for user in batch: yield user`, for a consumer that wants `demand`
      more rows. */
  method YieldBatch(s: Session, batch: seq<User>, demand: Demand) returns (given: seq<User>)
    requires demand != Take(0)
    modifies s
    ensures given == Wanted(batch, demand)
    ensures s.log == old(s.log) + YieldEach(given)
    ensures s.result == old(s.result) && s.pos == old(s.pos)
  {
    given := [];
    var i := 0;
    while i < |batch|
      invariant i <= |batch| && given == batch[..i]
      invariant s.log == old(s.log) + YieldEach(given)
      invariant demand.Take? ==> i < demand.n
      invariant s.result == old(s.result) && s.pos == old(s.pos)
    {
      s.Yield(batch[i]);
      YieldEachSnoc(given, batch[i]);
      assert batch[..i + 1] == given + [batch[i]];
      given := given + [batch[i]];
      i := i + 1;
      if demand.Take? && i == demand.n {
        return;
      }
    }
    assert batch[..i] == batch;
  }

  // ---------------------------------------------------------------------
  // batch_processing()

  /** The users older than 25, in the order given. */
  function OlderThan25(users: seq<User>): (older: seq<User>)
    ensures |older| <= |users|
  {
    if users == [] then []
    else
      var init, last := users[..|users| - 1], users[|users| - 1];
      assert users == init + [last];
      OlderThan25(init) + (if last.age > 25 then [last] else [])
  }

  /** Exactly the users older than 25 are kept. */
  lemma {:induction false} OlderThan25Members(users: seq<User>, u: User)
    ensures u in OlderThan25(users) <==> u in users && u.age > 25
    decreases |users|
  {
    if users != [] {
      var init, last := users[..|users| - 1], users[|users| - 1];
      assert users == init + [last];
      OlderThan25Members(init, u);
    }
  }

  /** Filtering keeps the stream's order: it distributes over concatenation. */
  lemma {:induction false} OlderThan25Append(a: seq<User>, b: seq<User>)
    ensures OlderThan25(a + b) == OlderThan25(a) + OlderThan25(b)
    decreases |b|
  {
    if b == [] {
      assert a + b == a;
    } else {
      var init, last := b[..|b| - 1], b[|b| - 1];
      var ab := a + b;
      OlderThan25Append(a, init);
      assert ab[..|ab| - 1] == a + init && ab[|ab| - 1] == last;
      var keep := if last.age > 25 then [last] else [];
      assert OlderThan25(ab) == OlderThan25(a + init) + keep;
      assert OlderThan25(b) == OlderThan25(init) + keep;
    }
  }

  /** `batch_processing()`: stream with a batch size of 100 to the end and
      print each user older than 25. Returns the users printed and the
      exception that escapes. */
  method BatchProcessing(s: Session) returns (printed: seq<User>, raised: Option<Exc>)
    modifies s
    ensures s.log == old(s.log) + BatchRun(s.table, s.reachable, 100, All)
    ensures printed == if s.reachable then OlderThan25(s.table) else []
    ensures raised == if s.reachable then None else Some(NoCursor)
  {
    var users;
    users, raised := StreamUsersInBatches(s, 100, All);
    printed := [];
    var i := 0;
    while i < |users|
      invariant i <= |users| && printed == OlderThan25(users[..i])
    {
      assert users[..i + 1][..i] == users[..i];
      if users[i].age > 25 {
        printed := printed + [users[i]];
      }
      i := i + 1;
    }
    assert users[..i] == users;
  }
}
