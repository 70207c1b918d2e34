# Database-access wrappers and row streamers of alx-backend-python

This project models, in Dafny, how the repository's database helpers behave
and proves properties about them. The helpers are:

- the function decorators `with_db_connection`, `transactional`,
  `retry_on_failure` and `cache_query`, and the decorated functions
  `update_user_email`, `fetch_users_with_retry` and `fetch_users_with_cache`
  (python-decorators-0x01);
- the generators `stream_users` and `stream_users_in_batches`, and
  `batch_processing`, which consumes the second one (python-generators-0x00);
- the context-manager classes `DatabaseConnection` and `ExecuteQuery`
  (python-context-async-perations-0x02).

Python exceptions become values. `Outcome<T>` is `Ok(value)` or `Raised(exc)`,
and `raise e` passes on the same `Exc`. The database is abstract. Whatever it
answers is a parameter of the call that receives it: a refused connection, a
failed commit or statement, the rows of a query, and how each call of the
decorated function ends. Every call the code makes on the database is recorded
in order in an event log. The properties are stated over that log: which calls
happen, how often, in what order, and which result or exception reaches the
caller.

Modules:

- `Outcomes` (outcomes.dfy) and `Errors` (errors.dfy): the result type and the
  exceptions Python itself raises in this code.
- `Driver` (driver.dfy): the sqlite3 side used by the decorators and context
  managers. The class `Driver` holds the event log, a handle counter and the
  set of open connections. It also defines Python values, their truthiness and
  hashability, and call arguments.
- `ConnectionScope`, `Transactions`, `Retry`, `QueryCaching`
  (with_db_connection.dfy, transactional.dfy, retry_on_failure.dfy,
  cache_query.dfy): one module per decorator file. Each wrapper is a method that
  takes the driver and appends to its log. `query_cache` is a class with a `map` field that the cache
  wrapper updates in place.
- `ContextManagers` (context_managers.dfy): the two classes, whose `conn` and
  `cursor` fields are set by `Enter` and used by `Exit`.
- `Generators` (generators.dfy): the MySQL side of the generators.
  - The class `Session` holds the table, the cursor's result set and read
    position, and a log of steps. A step is a call, a yielded row or a raised
    exception.
  - A generator is described by its *program*: the steps it would take for a
    consumer that asks for every row.
  - A consumer that stops after `n` rows runs only the prefix up to the
    `n`-th yield (`Observe`).
- `UserStream`, `PyRange`, `BatchStream` (stream_users.dfy, py_range.dfy,
  batch_processing.dfy): the two generators and Python's `range`. Each
  generator has:
  - a closed form of what runs for each consumer demand, proved equal to what
    a lazy consumer observes of its program;
  - a method with the generator's loops, proved against that closed form.

## Model

| member | source | states |
|---|---|---|
| Driver.Args.WithConn | python-decorators-0x01/1-with_db_connection.py:10 | the connection becomes the first positional argument; the caller's positional arguments follow unchanged and the keyword arguments are passed through as they are |
| ConnectionScope.WithDbConnection | python-decorators-0x01/1-with_db_connection.py:7-13 | if connect raises, that exception propagates and nothing is called or closed; otherwise the log is: open `users.db`, one call with the connection first, close that connection. The call's return value or exception is passed on unchanged, and no connection is left open |
| ConnectionScope.ScopedOpensAndClosesOnce | python-decorators-0x01/1-with_db_connection.py:8-13 | the open is the first event and the close of the same connection is the last; each happens exactly once, whatever the wrapped call did in between |
| ConnectionScope.ScopedCallClosesOnce | python-decorators-0x01/1-with_db_connection.py:7-14 | one decorated call opens one connection, closes it once, and never commits or rolls back |
| Transactions.TransactionOutcome | python-decorators-0x01/2-transactional.py:23-29 | the result is returned exactly when both the function and the commit succeed; the function's exception is re-raised unchanged; a failed commit re-raises the commit's exception |
| Transactions.TransactionEventsSpec | python-decorators-0x01/2-transactional.py:21-29 | the cursor is made first; the function runs exactly once, right after it, with the given connection first; commit is attempted once exactly when the function returned, right after the call, and on success the events are exactly cursor, call, commit; rollback happens once exactly when the call ends in an exception that `except Exception` catches, and then as the last event (a KeyboardInterrupt or SystemExit passes with no rollback); the wrapper neither opens nor closes a connection |
| Transactions.Transactional | python-decorators-0x01/2-transactional.py:21-29 | the wrapper's result is `TransactionOutcome` and its log is `TransactionEvents` (a cursor, the call, then commit, rollback, or commit followed by rollback; the rollback only for an exception `except Exception` catches) |
| Transactions.UpdateUserEmail | python-decorators-0x01/2-transactional.py:32-34 | with `with_db_connection` outermost, the log is: open, the transaction's events, close; a refused connect propagates and nothing runs |
| Transactions.FailedUpdateRollsBackAndCloses | python-decorators-0x01/2-transactional.py:9-15 | an update that raises an `Exception` `e` is rolled back once and never committed, then its connection is closed once, as the last event; `e` itself reaches the caller |
| Transactions.InterruptedUpdateOnlyCloses | python-decorators-0x01/2-transactional.py:23-29 | an update interrupted by an exception `except Exception` lets through is neither committed nor rolled back; the connection is still closed once, right after the call, and the exception reaches the caller |
| Retry.AttemptsMade | python-decorators-0x01/3-retry_on_failure.py:22-29 | with `retries <= 0` the function is never called; otherwise it is called between 1 and `retries` times; every call but the last raised an exception `except Exception` catches, and the last returned or raised one it does not catch, unless it was call number `retries` |
| Retry.SucceedsAt | python-decorators-0x01/3-retry_on_failure.py:22-24 | if attempts 0..k-1 raise caught exceptions and attempt k < retries returns, exactly k+1 calls are made and attempt k's result is returned |
| Retry.UncaughtEscapesAt | python-decorators-0x01/3-retry_on_failure.py:22-25 | an attempt that raises an exception `except Exception` does not catch (KeyboardInterrupt, SystemExit) ends the loop at once: no further attempt, no sleep, and that exception escapes |
| Retry.AllFail | python-decorators-0x01/3-retry_on_failure.py:25-29 | if every attempt raises, all but the last with caught exceptions, exactly `retries` calls are made and the last attempt's exception is re-raised |
| Retry.FailedAttemptsShape | python-decorators-0x01/3-retry_on_failure.py:24-27 | `k` failed, non-final attempts give `2k` events alternating call and sleep(delay), with k of each |
| Retry.RetryEventsShape | python-decorators-0x01/3-retry_on_failure.py:26-27 | calls and sleeps alternate, starting and ending with a call, so a sleep happens only between two attempts |
| Retry.RetryEventsCounts | python-decorators-0x01/3-retry_on_failure.py:22-29 | `n` calls, always with the same arguments; `n - 1` sleeps, always for `delay`; nothing else |
| Retry.RetryOnFailure | python-decorators-0x01/3-retry_on_failure.py:17-30 | the loop returns or raises `RetryOutcome` (None when the body never runs) and logs `RetryEvents` for `AttemptsMade` calls, so it stops at a returned attempt or an uncaught exception; defaults are retries 3 and delay 1; it opens no connection |
| Retry.FetchUsersWithRetry | python-decorators-0x01/3-retry_on_failure.py:33-39 | one connection is opened before the first attempt, shared by all three possible attempts, and closed after the last; a refused connect propagates and nothing runs |
| Retry.RetryUnderOneConnection | python-decorators-0x01/3-retry_on_failure.py:5-15 | whatever the attempts do, the composed call opens and closes its one connection exactly once and calls the function 1 to 3 times, always with that connection first |
| QueryCaching.KeyIgnoresOtherArguments | python-decorators-0x01/4-cache_query.py:26 | the key depends only on the `query` keyword argument (None when it is absent); positional arguments and other keywords do not affect it |
| QueryCaching.QueryCache.constructor | python-decorators-0x01/4-cache_query.py:6 | the cache starts empty |
| QueryCaching.CacheQuery | python-decorators-0x01/4-cache_query.py:25-34 | an unhashable key raises TypeError and changes nothing. On a hit the stored value is returned and the function is not called. On a miss the function is called once and its result is returned and stored under the key; a miss that raises leaves the cache unchanged. Existing entries are never overwritten or removed, and only the missed key is added |
| QueryCaching.FetchUsersWithCache | python-decorators-0x01/4-cache_query.py:38-43 | with `with_db_connection` outermost, a connection is opened and closed around the lookup on a hit as well as on a miss; the cache outcomes are those of `CacheQuery` |
| QueryCaching.FetchTwice | python-decorators-0x01/4-cache_query.py:45-49 | the script's two calls with the same query text, both connecting: the function runs in the first call only; if the first call raises, the exception ends the script and no second connection or call happens; otherwise the second call is a hit, opens and closes its own connection and returns the same value |
| ContextManagers.DatabaseConnection.constructor | python-context-async-perations-0x02/0-databaseconnection.py:4-6 | `db_name` is stored as given and `conn` is None |
| ContextManagers.DatabaseConnection.Enter | python-context-async-perations-0x02/0-databaseconnection.py:8-10 | opens a connection to `db_name`, stores it in `conn` and returns that same connection; a refused connect propagates and leaves `conn` as it was |
| ContextManagers.DatabaseConnection.Exit | python-context-async-perations-0x02/0-databaseconnection.py:12-14 | closes `conn` exactly once if it is set and does nothing otherwise; returns None, a false value, so the body's exception is not suppressed; `conn` keeps referring to the closed connection |
| ContextManagers.WithDatabaseConnection | python-context-async-perations-0x02/0-databaseconnection.py:17-24 | a `with` block: open, then close on exit, and the body's outcome (value or exception) is the statement's; a refused connect skips the body and `__exit__` |
| ContextManagers.ExecuteQuery.constructor | python-context-async-perations-0x02/1-execute.py:4-9 | a false `params` (None, empty tuple or list, 0, "", False) becomes `()`; `db_path` defaults to `:memory:`; `conn` and `cursor` are None |
| ContextManagers.ExecuteQuery.Enter | python-context-async-perations-0x02/1-execute.py:11-15 | in order: open `db_path`, one cursor, one execute of `query` with `params`, fetchall; returns the list of rows. A failing execute raises with both fields set and the connection still open |
| ContextManagers.ExecuteQuery.Exit | python-context-async-perations-0x02/1-execute.py:17-21 | closes the cursor before the connection, each only if set; returns None, so the body's exception propagates |
| ContextManagers.WithExecuteQuery | python-context-async-perations-0x02/1-execute.py:38-39 | the body receives the fetched row list, not the manager object; on success the log ends with closing the cursor and then the connection, and no connection stays open |
| Generators.Slice | python-generators-0x00/1-batch_processing.py:12 | LIMIT/OFFSET: at most `limit` rows, the consecutive rows starting at `offset`, cut off at the end of the table |
| Generators.Session.Count | python-generators-0x00/1-batch_processing.py:8-9 | the COUNT(*) query and its one fetchone() give the number of rows of the table |
| Generators.Session.FetchOne | python-generators-0x00/0-stream_users.py:8 | the next row of the result set and one step forward, or None, with no move, after the last row |
| Generators.Session.FetchAll | python-generators-0x00/1-batch_processing.py:13 | the rows of the result set not fetched yet |
| UserStream.FetchLoopYields | python-generators-0x00/0-stream_users.py:7-11 | the fetch loop hands the consumer exactly the fetched rows, in order, each once |
| UserStream.FetchLoopShape | python-generators-0x00/0-stream_users.py:7-11 | each row is fetched by its own fetchone() and yielded right after it |
| UserStream.StreamUsersRunIsObserved | python-generators-0x00/0-stream_users.py:3-13 | the closed form of the run is exactly what a consumer with each demand observes of the generator |
| UserStream.StreamUsersDelivers | python-generators-0x00/0-stream_users.py:7-11 | the consumer receives the table's rows in order: all of them, or the first `n` it asked for; None is never yielded |
| UserStream.StreamUsersClosesOnlyWhenExhausted | python-generators-0x00/0-stream_users.py:12-13 | the cursor and then the connection are closed, each once and as the last two steps with no close before them, exactly when the consumer reads past the last row; a consumer that stops earlier leaves both open |
| UserStream.StreamUsers | python-generators-0x00/0-stream_users.py:3-13 | connect, cursor, one query, the fetch loop, then the two closes; the rows received and the whole log match the closed form; a failed connect raises on the cursor call |
| UserStream.FetchUntilNone | python-generators-0x00/0-stream_users.py:7-11 | the `while True` loop stops at the first None (then `exhausted`) or when the consumer has its rows; it yields exactly the rows it asked for |
| PyRange.RangeShape | python-generators-0x00/1-batch_processing.py:11 | `range(start, stop, step)` with a positive step is empty exactly when `start >= stop`; otherwise it starts at `start`, climbs by `step`, stays below `stop` and leaves no element out |
| PyRange.RangeAt | python-generators-0x00/1-batch_processing.py:11 | element `k` is `start + k * step` and lies below `stop` |
| PyRange.RangeLength | python-generators-0x00/1-batch_processing.py:11 | `range(0, total, step)` has `ceil(total / step)` elements |
| PyRange.RangeBackwardsEmpty | python-generators-0x00/1-batch_processing.py:11 | a negative step from 0 up to a count gives no offsets |
| BatchStream.YieldEachYields | python-generators-0x00/1-batch_processing.py:14-15 | the inner loop yields each row of the batch once, in order |
| BatchStream.PageYields | python-generators-0x00/1-batch_processing.py:12-15 | one page yields exactly the rows it fetched |
| BatchStream.PagesExecuted | python-generators-0x00/1-batch_processing.py:11-13 | one page query per offset, in order, each asking for `batch_size` rows at its offset |
| BatchStream.PagesYield | python-generators-0x00/1-batch_processing.py:11-15 | the first `k` pages yield the table's first rows, up to where page `k` begins |
| BatchStream.BatchProgramYieldsTable | python-generators-0x00/1-batch_processing.py:3-18 | for a positive batch size the generator yields the whole table, in order, each row once; otherwise it yields nothing |
| BatchStream.BatchRunIsObserved | python-generators-0x00/1-batch_processing.py:3-18 | the closed form of the run is exactly what a consumer with each demand observes of the generator |
| Generators.ObserveDelivers | python-generators-0x00/1-batch_processing.py:24 | a consumer that stops after `n` rows receives exactly the first `n` rows the generator would hand out, or all of them when there are fewer |
| BatchStream.BatchDelivers | python-generators-0x00/1-batch_processing.py:11-15 | the consumer receives the table's rows in page order and then row order: all of them or the first `n` asked for |
| BatchStream.BatchExecuted | python-generators-0x00/1-batch_processing.py:8-13 | the generator executes no row query other than its page queries, in page order |
| BatchStream.BatchPageQueries | python-generators-0x00/1-batch_processing.py:11-13 | for batch size `b > 0` there are `ceil(total / b)` page queries; query `i` asks for `b` rows at offset `i * b`, which is below the counted total |
| BatchStream.BatchClosesOnlyWhenExhausted | python-generators-0x00/1-batch_processing.py:11-18 | the cursor and then the connection are closed, each once and as the last two steps with no close before them, exactly when the consumer reads past the last row; an early stop leaves both open |
| BatchStream.BatchNonPositiveStep | python-generators-0x00/1-batch_processing.py:11 | a batch size of 0 raises ValueError from `range` before any page query; a negative one sends no page query, yields nothing and closes both |
| BatchStream.StreamUsersInBatches | python-generators-0x00/1-batch_processing.py:3-18 | the whole log of the generator under a demand is the closed form; the rows received are the table's rows wanted by the demand; the exception that escapes is none, AttributeError when the connection fails, or ValueError for batch size 0 |
| BatchStream.FetchPages | python-generators-0x00/1-batch_processing.py:11-15 | the offset loop yields exactly the rows wanted, and logs either every page (then `exhausted`) or the pages up to the last wanted row |
| BatchStream.RunPage | python-generators-0x00/1-batch_processing.py:12-15 | one offset iteration: the page query, fetchall(), then a yield per row until the consumer has its rows |
| BatchStream.YieldBatch | python-generators-0x00/1-batch_processing.py:14-15 | yields the rows of the batch the consumer still wants, in order |
| BatchStream.OlderThan25 | python-generators-0x00/1-batch_processing.py:25-26 | the filter keeps no more users than it is given |
| BatchStream.OlderThan25Members | python-generators-0x00/1-batch_processing.py:25-26 | a user is kept exactly when it is in the stream and its age is above 25 |
| BatchStream.OlderThan25Append | python-generators-0x00/1-batch_processing.py:24-26 | the filter keeps stream order: filtering a concatenation concatenates the filtered parts |
| BatchStream.BatchProcessing | python-generators-0x00/1-batch_processing.py:21-26 | streams with batch size 100 to the end and prints exactly the users older than 25, in stream order; without a connection it prints none and the AttributeError escapes |

## Left out

- Row order. The queries of `stream_users_in_batches` use LIMIT/OFFSET without ORDER BY. The model assumes the server returns `user_data` in one fixed order, the same for every query.
- SQL meaning and driver behaviour. Statements are opaque strings. Rows, refused connections and failed statements or commits are parameters. Connection and cursor objects are handles.
- Rollback, close, cursor creation and fetchall are assumed never to raise.
- Errors.Caught: an exception is recognised as escaping `except Exception` by its class name, among the built-in classes that derive from BaseException alone; a user-defined class deriving directly from BaseException is treated as an `Exception`.
- QueryCaching.FetchTwice: both of the script's connects are assumed to succeed; a refused connection, which `FetchUsersWithCache` covers, is not passed through it.
- QueryCaching.CacheQuery: on a miss the cache stores the very list object it returns, and a hit returns that same object, so a caller that changes the rows in place changes the cached entry. Values are immutable in the model: its "never overwritten" and `FetchTwice`'s "returns the same value" hold of the dictionary binding only, and that aliasing is not modelled.
- A MySQL query in the generators is assumed never to fail. A failed connection is modelled: `seed.connect_to_prodev()` then returns None, and the next line raises AttributeError.
- Dictionary rows. `cursor(dictionary=True)` rows are typed as `User` records. `user['age']` cannot fail, and `age` is an integer, as the DECIMAL column of the seed schema holds no fractional digits.
- `batch_size` of a type other than `int`.
- `time.sleep` timing. A sleep is an event with its argument. `delay` is an integer: a float delay such as 0.5, which Python accepts, is not modelled, and neither is a negative `delay`, which raises in Python.
- Dictionary-key equality of `query_cache`. Keys are compared as model values, so Python's equal keys of different types (`1 == True`) are distinct here. Only `list` values count as unhashable.
- Truthiness of `self.conn` and `self.cursor`. The objects are always true, so the model tests whether the field is set.
- `print` output. This covers "Processing users in batches...", the cache messages and the printed users; `BatchProcessing` returns the printed users as a sequence. How prints interleave with the streaming is not modelled.
- The bodies of the decorated functions and the `with` blocks. Each is an outcome parameter, or a function of the fetched rows.
- The module-level script calls at the bottom of each file, except three, which are modelled with their bodies kept abstract: the two `fetch_users_with_cache` calls (`QueryCaching.FetchTwice`, where both connects are assumed to succeed), the `with DatabaseConnection(...)` block (`ContextManagers.WithDatabaseConnection`) and the `with ExecuteQuery(...)` block (`ContextManagers.WithExecuteQuery`).
- python-decorators-0x01/0-log_queries.py, python-generators-0x00/seed.py, python-generators-0x00/4-stream_ages.py, python-context-async-perations-0x02/3-concurrent.py, the Django messaging app and the unit tests are not part of this model. They are I/O plumbing, floating point, concurrency and framework configuration.
- Events inside the bodies of `with` blocks and decorated functions are not logged. In particular the cursor that `update_user_email` makes to run its UPDATE, and the UPDATE itself, are not logged; the cursor that `transactional` makes, which is never used, is logged.
