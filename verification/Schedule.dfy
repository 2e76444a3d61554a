/** The cron look-back search of internal/schedule/schedule.go.

    Instants are integers (nanoseconds); the zero instant `ZERO_TIME` is the
    "no trigger" value the search returns, as Go's zero `time.Time` is. A
    schedule is known through `next` alone, the least trigger strictly after an
    instant, and `trig` is the set of triggers it enumerates. */
module Schedule {
  import opened Base

  const ZERO_TIME: int := 0
  const CRON_LOOK_BACK: int := 5 * 365 * 24 * 3600 * SECOND

  /** `next` enumerates the triggers `trig`: it yields the least one after its argument. */
  ghost predicate Enumerates(next: int -> int, trig: int -> bool) {
    forall t :: t < next(t) && trig(next(t)) && forall u :: t < u < next(t) ==> !trig(u)
  }

  /** Difference of two instants as a Go Duration: saturated at the 64-bit maximum.
      Only ever applied with `end` no earlier than `start`. */
  function Sub(end: int, start: int): int {
    if end - start > MAX_INT64 then MAX_INT64 else end - start
  }

  function Middle(start: int, end: int): (m: int)
    requires start <= end
    ensures start <= m <= end
  {
    start + Sub(end, start) / 2
  }

  /** binarySearchPreviousTrigger */
  function SearchPrevious(next: int -> int, start: int, end: int, upper: int): int
    requires forall t :: t < next(t)
    decreases end - start
  {
    if end < start then ZERO_TIME else
    var middle := Middle(start, end);
    var middleTrigger := next(middle);
    if middleTrigger >= upper then
      SearchPrevious(next, start, middle - 1, upper)
    else
      var closer := SearchPrevious(next, middleTrigger, end, upper);
      if closer != ZERO_TIME then closer else middleTrigger
  }

  /** GetPrevAndNextTriggers */
  function PrevAndNext(next: int -> int, now: int): (int, int)
    requires forall t :: t < next(t)
  {
    var upper := next(now);
    (SearchPrevious(next, now - CRON_LOOK_BACK, upper - 1, upper), upper)
  }

  /** `p` is the greatest trigger after `after` and before `upper`. */
  ghost predicate Greatest(trig: int -> bool, after: int, upper: int, p: int) {
    after < p < upper && trig(p) && forall u :: p < u < upper ==> !trig(u)
  }

  ghost predicate NoTrigger(trig: int -> bool, after: int, upper: int) {
    forall u :: after < u < upper ==> !trig(u)
  }

  /** `r` is the greatest trigger after `after` and before `upper`, or the zero instant when
      there is none. */
  ghost predicate Exact(trig: int -> bool, after: int, upper: int, r: int) {
    Greatest(trig, after, upper, r) || (NoTrigger(trig, after, upper) && r == ZERO_TIME)
  }

  /** The search over [start, end], when no trigger lies strictly between end + 1 and
      `upper`, answers exactly, unless the trigger to be found is the zero instant. */
  lemma {:induction false} SearchIsExact(next: int -> int, trig: int -> bool, start: int, end: int, upper: int)
    requires Enumerates(next, trig)
    requires end < upper && NoTrigger(trig, end + 1, upper)
    requires !Greatest(trig, start, upper, ZERO_TIME)
    ensures Exact(trig, start, upper, SearchPrevious(next, start, end, upper))
    decreases end - start
  {
    if start <= end {
      var middle := Middle(start, end);
      var hit := next(middle);
      assert trig(hit) && forall u :: middle < u < hit ==> !trig(u);
      if hit >= upper {
        SearchIsExact(next, trig, start, middle - 1, upper);
      } else {
        SearchIsExact(next, trig, hit, end, upper);
      }
    }
  }

  /** The previous trigger is the greatest one at or before `now` and after `now` minus the
      look-back, or the zero instant when there is none; the next trigger is the least one
      after `now`. */
  lemma PrevAndNextAreExact(next: int -> int, trig: int -> bool, now: int)
    requires Enumerates(next, trig)
    requires !Greatest(trig, now - CRON_LOOK_BACK, now + 1, ZERO_TIME)
    ensures var (prev, upper) := PrevAndNext(next, now);
            && now < upper && trig(upper) && NoTrigger(trig, now, upper)
            && Exact(trig, now - CRON_LOOK_BACK, now + 1, prev)
  {
    var upper := next(now);
    assert trig(upper) && forall u :: now < u < upper ==> !trig(u);
    SearchIsExact(next, trig, now - CRON_LOOK_BACK, upper - 1, upper);
  }

  /** Once the look-back window lies after the zero instant the answer is never ambiguous:
      it is zero exactly when the window holds no trigger. */
  lemma PrevIsZeroExactlyWhenNone(next: int -> int, trig: int -> bool, now: int)
    requires Enumerates(next, trig)
    requires now - CRON_LOOK_BACK >= ZERO_TIME
    ensures var prev := PrevAndNext(next, now).0;
            && (prev == ZERO_TIME <==> NoTrigger(trig, now - CRON_LOOK_BACK, now + 1))
            && (prev != ZERO_TIME <==> Greatest(trig, now - CRON_LOOK_BACK, now + 1, prev))
  {
    PrevAndNextAreExact(next, trig, now);
  }

  /** What the search answers is the zero instant or a trigger after the start of the interval. */
  lemma {:induction false} SearchIsSound(next: int -> int, trig: int -> bool, start: int, end: int, upper: int)
    requires Enumerates(next, trig)
    ensures var r := SearchPrevious(next, start, end, upper); r == ZERO_TIME || (trig(r) && start < r < upper)
    decreases end - start
  {
    if start <= end {
      var middle := Middle(start, end);
      if next(middle) >= upper {
        SearchIsSound(next, trig, start, middle - 1, upper);
      } else {
        SearchIsSound(next, trig, next(middle), end, upper);
      }
    }
  }

  /** The first midpoint before the zero instant, when an interval that starts before it is halved
      to the left. It depends on the interval alone. */
  function HalvingPoint(start: int, end: int): (m: int)
    requires start < ZERO_TIME && start <= end
    ensures start <= m < ZERO_TIME
    decreases end - start
  {
    var middle := Middle(start, end);
    if middle < ZERO_TIME then middle else HalvingPoint(start, middle - 1)
  }

  /** When the zero instant is the trigger to be found, the search answers it if and only if no
      trigger lies between that midpoint and it; otherwise the answer is an older trigger. */
  lemma {:induction false} ZeroInstantFoundExactly(next: int -> int, trig: int -> bool, start: int, end: int, upper: int)
    requires Enumerates(next, trig) && start <= end
    requires Greatest(trig, start, upper, ZERO_TIME)
    ensures SearchPrevious(next, start, end, upper) == ZERO_TIME <==> NoTrigger(trig, HalvingPoint(start, end), ZERO_TIME)
    decreases end - start
  {
    var middle := Middle(start, end);
    var hit := next(middle);
    assert trig(hit) && forall u :: middle < u < hit ==> !trig(u);
    if hit >= upper {
      ZeroInstantFoundExactly(next, trig, start, middle - 1, upper);
    } else {
      SearchIsSound(next, trig, hit, end, upper);
    }
  }

  lemma NothingBeforeNext(next: int -> int, trig: int -> bool, now: int, after: int, p: int)
    requires Enumerates(next, trig) && Greatest(trig, after, now + 1, p)
    ensures p <= now < next(now) && Greatest(trig, after, next(now), p)
  {
  }

  /** So it is for the previous trigger, found in [start, upper - 1]. */
  lemma ZeroInstantIsPrevExactly(next: int -> int, trig: int -> bool, now: int, start: int, upper: int)
    requires Enumerates(next, trig) && start == now - CRON_LOOK_BACK && upper == next(now)
    requires Greatest(trig, start, now + 1, ZERO_TIME)
    ensures start < ZERO_TIME < upper
    ensures PrevAndNext(next, now).0 == ZERO_TIME <==> NoTrigger(trig, HalvingPoint(start, upper - 1), ZERO_TIME)
  {
    NothingBeforeNext(next, trig, now, start, ZERO_TIME);
    ZeroInstantFoundExactly(next, trig, start, upper - 1, upper);
  }

  /** Every whole second from the zero instant on, and one four seconds before it. */
  function LateNext(t: int): int {
    if t < -4 * SECOND then -4 * SECOND else if t < 0 then 0 else (t / SECOND + 1) * SECOND
  }

  predicate LateTrigger(t: int) {
    t == -4 * SECOND || (t >= 0 && t % SECOND == 0)
  }

  lemma LateNextEnumerates()
    ensures Enumerates(LateNext, LateTrigger)
  {
  }

  /** The hypothesis on the zero instant is needed: at the zero instant itself, the greatest
      trigger of the last five years is now, and the search answers the one four seconds ago. */
  lemma ZeroInstantTriggerIsMissed()
    ensures Enumerates(LateNext, LateTrigger)
    ensures Greatest(LateTrigger, -CRON_LOOK_BACK, 1, ZERO_TIME)
    ensures PrevAndNext(LateNext, 0).0 == -4 * SECOND
  {
    LateNextEnumerates();
    var upper := SECOND;
    assert LateNext(0) == upper;
    assert SearchPrevious(LateNext, 0, upper - 1, upper) == ZERO_TIME by {
      SearchIsExact(LateNext, LateTrigger, 0, upper - 1, upper);
    }
    assert SearchPrevious(LateNext, -4 * SECOND, upper - 1, upper) == ZERO_TIME by {
      assert LateNext(Middle(-4 * SECOND, upper - 1)) == 0;
    }
    assert LateNext(Middle(-CRON_LOOK_BACK, upper - 1)) == -4 * SECOND;
  }

  // ---------- Cost ----------

  /** Number of calls of `next` the search makes. */
  function SearchCalls(next: int -> int, start: int, end: int, upper: int): nat
    requires forall t :: t < next(t)
    decreases end - start
  {
    if end < start then 0 else
    var middle := Middle(start, end);
    if next(middle) >= upper then
      1 + SearchCalls(next, start, middle - 1, upper)
    else
      1 + SearchCalls(next, next(middle), end, upper)
  }

  /** Length of the binary numeral of n: the integer logarithm of n, plus one. */
  function BitLength(n: nat): nat {
    if n == 0 then 0 else 1 + BitLength(n / 2)
  }

  function Pow2(k: nat): nat {
    if k == 0 then 1 else 2 * Pow2(k - 1)
  }

  lemma {:induction false} BitLengthIsLog(n: nat, k: nat)
    ensures BitLength(n) <= k <==> n < Pow2(k)
  {
    if n > 0 && k > 0 {
      BitLengthIsLog(n / 2, k - 1);
    }
    if k == 0 && n > 0 {
      assert BitLength(n) >= 1;
    }
    Pow2Positive(k);
  }

  lemma {:induction false} Pow2Positive(k: nat)
    ensures Pow2(k) >= 1
  {
    if k > 0 { Pow2Positive(k - 1); }
  }

  lemma {:induction false} BitLengthMonotone(m: nat, n: nat)
    requires m <= n
    ensures BitLength(m) <= BitLength(n)
  {
    if m > 0 { BitLengthMonotone(m / 2, n / 2); }
  }

  lemma {:induction false} HalfCostsOneLess(m: nat, n: nat)
    requires 2 * m <= n && n > 0
    ensures 1 + BitLength(m) <= BitLength(n)
  {
    BitLengthMonotone(m, n / 2);
  }

  /** An interval of n instants costs at most floor(log2 n) + 1 calls, because either
      branch leaves at most half of it. */
  lemma {:induction false} SearchIsLogarithmic(next: int -> int, start: int, end: int, upper: int)
    requires forall t :: t < next(t)
    requires start - 1 <= end <= start + MAX_INT64
    ensures SearchCalls(next, start, end, upper) <= BitLength(end - start + 1)
    decreases end - start
  {
    if start <= end {
      var n, middle := end - start + 1, Middle(start, end);
      var hit := next(middle);
      if hit >= upper {
        SearchIsLogarithmic(next, start, middle - 1, upper);
        HalfCostsOneLess(middle - start, n);
      } else if hit <= end + 1 {
        SearchIsLogarithmic(next, hit, end, upper);
        HalfCostsOneLess(end - hit + 1, n);
      } else {
        HalfCostsOneLess(0, n);
      }
    }
  }

  /** Any span a Duration can hold is searched with at most 64 calls, and with at most 63
      when it is not the very largest one. */
  lemma {:induction false} DurationSpanCalls(next: int -> int, start: int, end: int, upper: int)
    requires forall t :: t < next(t)
    requires start - 1 <= end <= start + MAX_INT64
    ensures SearchCalls(next, start, end, upper) <= 64
    ensures end - start < MAX_INT64 ==> SearchCalls(next, start, end, upper) <= 63
  {
    SearchIsLogarithmic(next, start, end, upper);
    PowersOf63And64();
    BitLengthIsLog(end - start + 1, 64);
    BitLengthIsLog(end - start + 1, 63);
  }

  lemma PowersOf63And64()
    ensures Pow2(63) == MAX_INT64 + 1 && Pow2(64) == 2 * (MAX_INT64 + 1)
  {
    assert Pow2(8) == 0x100;
    assert Pow2(16) == 0x1_0000 by { assert Pow2(12) == 0x1000; }
    assert Pow2(24) == 0x100_0000 by { assert Pow2(20) == 0x10_0000; }
    assert Pow2(32) == 0x1_0000_0000 by { assert Pow2(28) == 0x1000_0000; }
    assert Pow2(40) == 0x100_0000_0000 by { assert Pow2(36) == 0x10_0000_0000; }
    assert Pow2(48) == 0x1_0000_0000_0000 by { assert Pow2(44) == 0x1000_0000_0000; }
    assert Pow2(56) == 0x100_0000_0000_0000 by { assert Pow2(52) == 0x10_0000_0000_0000; }
    assert Pow2(60) == 0x1000_0000_0000_0000;
  }

  /** The bound is attained: a schedule that triggers at every instant costs exactly
      floor(log2 n) + 1 calls on an interval of n instants that ends just before `upper`. */
  lemma {:induction false} EveryInstantIsWorst(start: int, end: int)
    requires start - 1 <= end <= start + MAX_INT64
    ensures SearchCalls(t => t + 1, start, end, end + 1) == BitLength(end - start + 1)
    decreases end - start
  {
    if start <= end {
      var middle := Middle(start, end);
      if middle < end {
        EveryInstantIsWorst(middle + 1, end);
        assert end - (middle + 1) + 1 == (end - start + 1) / 2;
      } else {
        assert start == end;
      }
    }
  }

  /** So 64, not 63, is the least bound for the largest span. */
  lemma LargestSpanCosts64(start: int)
    ensures SearchCalls(t => t + 1, start, start + MAX_INT64, start + MAX_INT64 + 1) == 64
  {
    EveryInstantIsWorst(start, start + MAX_INT64);
    PowersOf63And64();
    BitLengthIsLog(MAX_INT64 + 1, 63);
    BitLengthIsLog(MAX_INT64 + 1, 64);
  }
}
