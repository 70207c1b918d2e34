/** The `retry_on_failure(retries, delay)` decorator and
    `fetch_users_with_retry`, which is decorated with `with_db_connection`
    outside `retry_on_failure(retries=3, delay=1)`. The decorated function is
    a script: its attempt number `i` (from 0) ends as `attempts(i)`. */
module Retry {
  import opened Outcomes
  import opened Errors
  import opened Driver
  import opened ConnectionScope

  /** The decorator's default arguments. */
  const DefaultRetries: int := 3
  const DefaultDelay: int := 1

  /** Whether an attempt that ended as `o` ends the loop before its last
      round: it returned, or it raised an exception that `except Exception`
      lets through. */
  predicate EndsLoop(o: Outcome<Value>)
  {
    o.Ok? || !Caught(o.error)
  }

  /** How many times the loop calls the function, counting from attempt `i`:
      it stops after the first attempt that returns or raises an exception
      it does not catch, or after attempt `retries - 1`, whichever comes
      first. */
  function AttemptsFrom(retries: int, attempts: nat -> Outcome<Value>, i: nat): (n: nat)
    requires i < retries
    ensures i < n <= retries
    ensures n == retries || EndsLoop(attempts(n - 1))
    ensures forall j :: i <= j < n - 1 ==> attempts(j).Raised? && Caught(attempts(j).error)
    decreases retries - i
  {
    if EndsLoop(attempts(i)) || i + 1 == retries then i + 1
    else AttemptsFrom(retries, attempts, i + 1)
  }

  /** How many times the retry wrapper calls the function: none when
      `retries <= 0`; otherwise between 1 and `retries`, every call but the
      last having raised an exception the loop catches, and the last having
      returned or raised one it does not catch unless it was call number
      `retries`. */
  function AttemptsMade(retries: int, attempts: nat -> Outcome<Value>): (n: nat)
    ensures retries <= 0 ==> n == 0
    ensures retries > 0 ==> 1 <= n <= retries && (n == retries || EndsLoop(attempts(n - 1)))
    ensures forall j :: 0 <= j < n - 1 ==> attempts(j).Raised? && Caught(attempts(j).error)
  {
    if retries <= 0 then 0 else AttemptsFrom(retries, attempts, 0)
  }

  /** What the retry wrapper returns or raises: `None` when the loop body
      never runs, and otherwise how its last attempt ended. */
  function RetryOutcome(retries: int, attempts: nat -> Outcome<Value>): Outcome<Value>
  {
    if retries <= 0 then Ok(Null) else attempts(AttemptsMade(retries, attempts) - 1)
  }

  /** If attempts 0 .. k-1 raise exceptions the loop catches and attempt
      k < retries returns, the wrapper makes exactly k + 1 calls and returns
      attempt k's result. */
  lemma SucceedsAt(retries: int, attempts: nat -> Outcome<Value>, k: nat)
    requires k < retries && attempts(k).Ok?
    requires forall j :: 0 <= j < k ==> attempts(j).Raised? && Caught(attempts(j).error)
    ensures AttemptsMade(retries, attempts) == k + 1
    ensures RetryOutcome(retries, attempts) == attempts(k)
  {
  }

  /** An exception that `except Exception` does not catch (KeyboardInterrupt,
      SystemExit, ...) escapes from the attempt that raised it: no further
      attempt and no sleep follow it. */
  lemma UncaughtEscapesAt(retries: int, attempts: nat -> Outcome<Value>, k: nat)
    requires k < retries && attempts(k).Raised? && !Caught(attempts(k).error)
    requires forall j :: 0 <= j < k ==> attempts(j).Raised? && Caught(attempts(j).error)
    ensures AttemptsMade(retries, attempts) == k + 1
    ensures RetryOutcome(retries, attempts) == Raised(attempts(k).error)
  {
  }

  /** If every attempt raises, the ones before the last with exceptions the
      loop catches, the wrapper makes exactly `retries` calls and raises the
      exception of the last one. */
  lemma AllFail(retries: int, attempts: nat -> Outcome<Value>)
    requires retries > 0 && attempts(retries - 1).Raised?
    requires forall j :: 0 <= j < retries - 1 ==> attempts(j).Raised? && Caught(attempts(j).error)
    ensures AttemptsMade(retries, attempts) == retries
    ensures RetryOutcome(retries, attempts) == Raised(attempts(retries - 1).error)
  {
  }

  /** `k` attempts that raised, each followed by a sleep of `delay`. */
  function FailedAttempts(args: Args, delay: int, k: nat): seq<Event>
  {
    if k == 0 then [] else FailedAttempts(args, delay, k - 1) + [Call(args), Sleep(delay)]
  }

  /** The events of a retry wrapper that calls the function `n` times. */
  function RetryEvents(args: Args, delay: int, n: nat): seq<Event>
  {
    if n == 0 then [] else FailedAttempts(args, delay, n - 1) + [Call(args)]
  }

  lemma {:induction false} FailedAttemptsShape(args: Args, delay: int, k: nat)
    ensures var t := FailedAttempts(args, delay, k);
      |t| == 2 * k &&
      (forall i :: 0 <= i < |t| ==> t[i] == if i % 2 == 0 then Call(args) else Sleep(delay)) &&
      Occurrences(t, Call(args)) == k && Occurrences(t, Sleep(delay)) == k
  {
    FailedAttemptsAlternate(args, delay, k);
    FailedAttemptsCounts(args, delay, k);
  }

  lemma {:induction false} FailedAttemptsAlternate(args: Args, delay: int, k: nat)
    ensures var t := FailedAttempts(args, delay, k);
      |t| == 2 * k &&
      forall i :: 0 <= i < |t| ==> t[i] == if i % 2 == 0 then Call(args) else Sleep(delay)
  {
    if k > 0 {
      var prev := FailedAttempts(args, delay, k - 1);
      var t := FailedAttempts(args, delay, k);
      FailedAttemptsAlternate(args, delay, k - 1);
      assert t == prev + [Call(args), Sleep(delay)];
      forall i | 0 <= i < |t|
        ensures t[i] == if i % 2 == 0 then Call(args) else Sleep(delay)
      {
        if i < |prev| {
          assert t[i] == prev[i];
        } else if i == |prev| {
          assert i % 2 == 0;
        } else {
          assert i == |prev| + 1 && i % 2 == 1;
        }
      }
    }
  }

  lemma {:induction false} FailedAttemptsCounts(args: Args, delay: int, k: nat)
    ensures var t := FailedAttempts(args, delay, k);
      Occurrences(t, Call(args)) == k && Occurrences(t, Sleep(delay)) == k
  {
    if k > 0 {
      var prev := FailedAttempts(args, delay, k - 1);
      FailedAttemptsCounts(args, delay, k - 1);
      OccurrencesAppend(prev, [Call(args), Sleep(delay)], Call(args));
      OccurrencesAppend(prev, [Call(args), Sleep(delay)], Sleep(delay));
      OccurrencesAppend([Call(args)], [Sleep(delay)], Call(args));
      OccurrencesAppend([Call(args)], [Sleep(delay)], Sleep(delay));
      assert [Call(args), Sleep(delay)] == [Call(args)] + [Sleep(delay)];
    }
  }

  /** Calls and sleeps alternate, starting and ending with a call, so the
      wrapper sleeps only between two calls. */
  lemma RetryEventsShape(args: Args, delay: int, n: nat)
    requires n > 0
    ensures var t := RetryEvents(args, delay, n);
      |t| == 2 * n - 1 &&
      forall i :: 0 <= i < |t| ==> t[i] == if i % 2 == 0 then Call(args) else Sleep(delay)
  {
    FailedAttemptsShape(args, delay, n - 1);
  }

  /** The function is called `n` times, always with the same arguments, and
      the wrapper sleeps `n - 1` times, always for `delay`; nothing else
      happens. */
  lemma RetryEventsCounts(args: Args, delay: int, n: nat)
    ensures var t := RetryEvents(args, delay, n);
      Occurrences(t, Call(args)) == n &&
      Occurrences(t, Sleep(delay)) == (if n == 0 then 0 else n - 1) &&
      (forall e :: e in t ==> e == Call(args) || e == Sleep(delay))
  {
    if n > 0 {
      var prev := FailedAttempts(args, delay, n - 1);
      FailedAttemptsShape(args, delay, n - 1);
      OccurrencesAppend(prev, [Call(args)], Call(args));
      OccurrencesAppend(prev, [Call(args)], Sleep(delay));
      RetryEventsShape(args, delay, n);
    }
  }

  /** `wrapper(*args, **kwargs)` of `retry_on_failure(retries, delay)`. */
  method RetryOnFailure(d: Driver, args: Args, attempts: nat -> Outcome<Value>,
                        retries: int := DefaultRetries, delay: int := DefaultDelay)
    returns (r: Outcome<Value>)
    modifies d
    ensures d.issued == old(d.issued) && d.live == old(d.live)
    ensures r == RetryOutcome(retries, attempts)
    ensures d.log == old(d.log) + RetryEvents(args, delay, AttemptsMade(retries, attempts))
  {
    var attempt := 0;
    while attempt < retries
      invariant retries > 0 ==> attempt < retries
      invariant retries <= 0 ==> attempt == 0
      invariant forall j :: 0 <= j < attempt ==> attempts(j).Raised? && Caught(attempts(j).error)
      invariant d.log == old(d.log) + FailedAttempts(args, delay, attempt)
      invariant d.issued == old(d.issued) && d.live == old(d.live)
    {
      var o := d.Invoke(args, attempts(attempt));
      if o.Ok? {
        SucceedsAt(retries, attempts, attempt);
        return o;
      }
      if !Caught(o.error) {
        // not an Exception: the `except` clause does not apply
        UncaughtEscapesAt(retries, attempts, attempt);
        return o;
      }
      if attempt < retries - 1 {
        d.Sleep(delay);
      } else {
        AllFail(retries, attempts);
        return o;
      }
      attempt := attempt + 1;
    }
    r := Ok(Null);
  }

  /** `fetch_users_with_retry()`: one connection, opened before the first
      attempt, shared by all attempts and closed after the last. */
  method FetchUsersWithRetry(d: Driver, args: Args, refusal: Option<Exc>,
                             attempts: nat -> Outcome<Value>) returns (r: Outcome<Value>)
    requires d.Valid()
    modifies d
    ensures d.Valid() && d.live == old(d.live)
    ensures d.issued == old(d.issued) + if refusal.None? then 1 else 0
    ensures refusal.Some? ==> r == Raised(refusal.value) && d.log == old(d.log)
    ensures refusal.None? ==>
      r == RetryOutcome(3, attempts) &&
      d.log == old(d.log) + Scoped(old(d.issued),
                                   RetryEvents(args.WithConn(old(d.issued)), 1, AttemptsMade(3, attempts)))
  {
    var c := d.Connect(UsersDb, refusal);
    if c.Raised? {
      return Raised(c.error);
    }
    var conn := c.value;
    r := RetryOnFailure(d, args.WithConn(conn), attempts, retries := 3, delay := 1);
    d.Close(conn);
  }

  /** Whatever the attempts do, a `fetch_users_with_retry` call opens and
      closes its one connection exactly once, and calls the function at most
      three times, always with that connection first. */
  lemma RetryUnderOneConnection(h: Handle, args: Args, attempts: nat -> Outcome<Value>)
    ensures var n := AttemptsMade(3, attempts);
      var t := Scoped(h, RetryEvents(args.WithConn(h), 1, n));
      1 <= n <= 3 &&
      Occurrences(t, Open(UsersDb, h)) == 1 && Occurrences(t, Close(h)) == 1 &&
      Occurrences(t, Call(args.WithConn(h))) == n
  {
    var n := AttemptsMade(3, attempts);
    var inner := RetryEvents(args.WithConn(h), 1, n);
    RetryEventsCounts(args.WithConn(h), 1, n);
    ScopedOpensAndClosesOnce(h, inner);
    OccurrencesAppend([Open(UsersDb, h)] + inner, [Close(h)], Call(args.WithConn(h)));
    OccurrencesAppend([Open(UsersDb, h)], inner, Call(args.WithConn(h)));
  }
}
