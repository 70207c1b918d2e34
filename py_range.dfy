/** Python's `range(start, stop, step)`, which `stream_users_in_batches`
    walks to produce its page offsets. */
module PyRange {

  /** The elements of `range(start, stop, step)` for a step other than zero
      (a zero step raises ValueError before anything is produced). */
  function Range(start: int, stop: int, step: int): seq<int>
    requires step != 0
    decreases if step > 0 then stop - start else start - stop
  {
    if (step > 0 && start < stop) || (step < 0 && start > stop) then [start] + Range(start + step, stop, step)
    else []
  }

  /** With a positive step the range is empty exactly when `start >= stop`;
      otherwise it starts at `start`, climbs by `step`, stays below `stop`,
      and its last element is within one step of `stop`: nothing is left out. */
  lemma {:induction false} RangeShape(start: int, stop: int, step: int)
    requires step > 0
    ensures var r := Range(start, stop, step);
      (|r| == 0 <==> start >= stop) &&
      (|r| > 0 ==> r[0] == start && stop <= r[|r| - 1] + step) &&
      (forall k :: 0 <= k < |r| ==> start <= r[k] < stop) &&
      (forall k :: 0 < k < |r| ==> r[k] == r[k - 1] + step)
    decreases stop - start
  {
    if start < stop {
      var r, r' := Range(start, stop, step), Range(start + step, stop, step);
      RangeShape(start + step, stop, step);
      assert r == [start] + r';
      forall k | 0 < k < |r|
        ensures r[k] == r[k - 1] + step
      {
        assert r[k] == r'[k - 1];
        if k > 1 {
          assert r[k - 1] == r'[k - 2];
        }
      }
    }
  }

  /** A negative step never climbs from `start` up to `stop`. */
  lemma RangeBackwardsEmpty(start: int, stop: int, step: int)
    requires step < 0 && start <= stop
    ensures Range(start, stop, step) == []
  {
  }

  /** A lower `stop` cuts the range short and changes nothing else. */
  lemma {:induction false} RangeMonotone(start: int, stop: int, stop': int, step: int)
    requires step > 0 && stop <= stop'
    ensures Range(start, stop, step) <= Range(start, stop', step)
    decreases stop - start
  {
    if start < stop {
      RangeMonotone(start + step, stop, stop', step);
    }
  }

  /** The elements below `n`, when `n` lies in the step after element `k`,
      are the first `k + 1`. */
  lemma {:induction false} RangeBelow(start: int, stop: int, step: int, k: nat, n: int)
    requires step > 0 && k < |Range(start, stop, step)|
    requires Range(start, stop, step)[k] < n <= Range(start, stop, step)[k] + step
    ensures Range(start, n, step) == Range(start, stop, step)[..k + 1]
    decreases k
  {
    var r := Range(start, stop, step);
    RangeShape(start, stop, step);
    var r' := Range(start + step, stop, step);
    assert r == [start] + r';
    if k == 0 {
      assert Range(start + step, n, step) == [];
    } else {
      assert r'[k - 1] == r[k];
      RangeBelow(start + step, stop, step, k - 1, n);
      assert r[..k + 1] == [start] + r'[..k];
    }
  }

  /** The offsets are exactly `start, start + step, start + 2 * step, ...`. */
  lemma {:induction false} RangeAt(start: int, stop: int, step: int, k: nat)
    requires step > 0 && k < |Range(start, stop, step)|
    ensures Range(start, stop, step)[k] == start + k * step < stop
    decreases k
  {
    RangeShape(start, stop, step);
    if k > 0 {
      RangeAt(start, stop, step, k - 1);
      MulSucc(k, step);
    }
  }

  /** `range(0, total, step)` has `ceil(total / step)` elements. */
  lemma RangeLength(total: nat, step: int)
    requires step > 0
    ensures |Range(0, total, step)| == (total + step - 1) / step
  {
    var r := Range(0, total, step);
    RangeShape(0, total, step);
    if |r| == 0 {
      DivUnique(total + step - 1, step, 0);
    } else {
      var last := |r| - 1;
      RangeAt(0, total, step, last);
      MulSucc(|r|, step);
      DivUnique(total + step - 1, step, |r|);
    }
  }

  lemma MulSucc(k: int, step: int)
    ensures (k - 1) * step + step == k * step
  {
  }

  lemma MulMonotone(a: int, b: int, c: int)
    requires a <= b && c > 0
    ensures a * c <= b * c
  {
    assert b * c - a * c == (b - a) * c;
  }

  /** Integer division has one answer. */
  lemma DivUnique(x: int, step: int, q: int)
    requires step > 0 && q * step <= x < q * step + step
    ensures x / step == q
  {
    var d, m := x / step, x % step;
    assert x == d * step + m && 0 <= m < step;
    MulSucc(q + 1, step);
    MulSucc(d + 1, step);
    if d < q {
      MulMonotone(d + 1, q, step);
    } else if d > q {
      MulMonotone(q + 1, d, step);
    }
  }
}
