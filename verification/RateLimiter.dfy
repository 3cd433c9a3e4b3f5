/**
 The limiter in front of the GeoIP service: one slot for every 60 / requests_per_minute seconds.

 Times are reals. A slot is the moment on the limiter's own schedule at which a caller may go on; the
 lock makes the calls of `acquire` happen one after another, with any clock readings at all.
 */
module RateLimiter {
  import opened Options

  function AtLeastOne(rpm: real): (r: real)
    ensures r >= 1.0 && r >= rpm
  {
    if rpm > 1.0 then rpm else 1.0
  }

  /** `self.interval`: a rate below one request a minute counts as one. */
  function Interval(rpm: real): (r: real)
    ensures 0.0 < r <= 60.0
  {
    IntervalBounds(AtLeastOne(rpm));
    60.0 / AtLeastOne(rpm)
  }

  /** Sixty seconds shared among the requests of a minute. */
  lemma IntervalIs(rpm: real)
    ensures rpm >= 1.0 ==> Interval(rpm) * rpm == 60.0
    ensures rpm <= 1.0 ==> Interval(rpm) == 60.0
  {
    IntervalBounds(AtLeastOne(rpm));
  }

  lemma IntervalBounds(rate: real)
    requires rate >= 1.0
    ensures 0.0 < 60.0 / rate <= 60.0 && (60.0 / rate) * rate == 60.0
  {
    var interval := 60.0 / rate;
    assert interval * rate == 60.0;
  }

  /** The slots given to callers that come at these moments. */
  function Slots(arrivals: seq<real>, interval: real): (r: seq<real>)
    ensures |r| == |arrivals|
  {
    if arrivals == [] then []
    else
      var before, now := Slots(arrivals[..|arrivals| - 1], interval), arrivals[|arrivals| - 1];
      before + [if before == [] || before[|before| - 1] + interval <= now then now else before[|before| - 1] + interval]
  }

  class RateLimiter {
    const interval: real
    var nextAt: Option<real>
    ghost var arrivals: seq<real>

    /** The next slot is due one interval after the last. */
    ghost predicate Valid()
      reads this
    {
      && interval > 0.0
      && if arrivals == [] then nextAt.None?
         else nextAt == Some(Slots(arrivals, interval)[|arrivals| - 1] + interval)
    }

    constructor (requestsPerMinute: real)
      ensures Valid() && arrivals == [] && interval == Interval(requestsPerMinute)
    {
      interval := Interval(requestsPerMinute);
      nextAt := None;
      arrivals := [];
    }

    /** `acquire`, called when the clock reads clock: the caller sleeps for waited seconds and has its slot. */
    method Acquire(clock: real) returns (slot: real, waited: real)
      requires Valid()
      modifies this
      ensures Valid() && arrivals == old(arrivals) + [clock]
      ensures Slots(arrivals, interval) == Slots(old(arrivals), interval) + [slot]
      ensures slot == clock + waited && waited >= 0.0
    {
      arrivals := arrivals + [clock];
      assert arrivals[..|arrivals| - 1] == old(arrivals);
      var now := clock;
      if nextAt.None? {
        nextAt := Some(now);
      }
      var wait := nextAt.value - now;
      waited := 0.0;
      if wait > 0.0 {
        waited := wait;
        now := nextAt.value;
      }
      nextAt := Some(now + interval);
      slot := now;
    }
  }

  // ---- what callers can rely on ----

  lemma {:induction false} SlotsPrefix(arrivals: seq<real>, interval: real, n: nat)
    requires n <= |arrivals|
    ensures Slots(arrivals[..n], interval) == Slots(arrivals, interval)[..n]
  {
    if n < |arrivals| {
      SlotsPrefix(arrivals[..|arrivals| - 1], interval, n);
      assert arrivals[..|arrivals| - 1][..n] == arrivals[..n];
    } else {
      assert arrivals[..n] == arrivals;
    }
  }

  /** One slot follows from the last and the arrival. */
  lemma NextSlot(arrivals: seq<real>, interval: real, i: nat)
    requires i < |arrivals|
    ensures var slots := Slots(arrivals, interval);
            slots[i] == if i == 0 || slots[i - 1] + interval <= arrivals[i] then arrivals[i]
                        else slots[i - 1] + interval
  {
    SlotsPrefix(arrivals, interval, i + 1);
    SlotsPrefix(arrivals, interval, i);
    assert arrivals[..i + 1][..i] == arrivals[..i];
  }

  /** Whenever the callers come, any two slots are as many intervals apart as lie between them. */
  lemma {:induction false} SlotsAreSpaced(arrivals: seq<real>, interval: real, i: nat, j: nat)
    requires i <= j < |arrivals|
    ensures Slots(arrivals, interval)[j] - Slots(arrivals, interval)[i] >= (j - i) as real * interval
    decreases j
  {
    if i < j {
      SlotsAreSpaced(arrivals, interval, i, j - 1);
      NextSlot(arrivals, interval, j);
      assert (j - i) as real * interval == (j - 1 - i) as real * interval + interval;
    }
  }

  /** A way to serve the same callers, in their order and not before they come, that keeps the spacing. */
  ghost predicate Serves(schedule: seq<real>, arrivals: seq<real>, interval: real) {
    && |schedule| == |arrivals|
    && (forall i :: 0 <= i < |schedule| ==> schedule[i] >= arrivals[i])
    && (forall i :: 0 < i < |schedule| ==> schedule[i] >= schedule[i - 1] + interval)
  }

  /** Nobody waits longer than the spacing asks for: of all such schedules the limiter's is the earliest throughout. */
  lemma {:induction false} SlotsAreEarliest(arrivals: seq<real>, interval: real, schedule: seq<real>, i: nat)
    requires Serves(schedule, arrivals, interval) && i < |arrivals|
    ensures Slots(arrivals, interval)[i] <= schedule[i]
  {
    NextSlot(arrivals, interval, i);
    if i > 0 {
      SlotsAreEarliest(arrivals, interval, schedule, i - 1);
    }
  }

  lemma SlotsServe(arrivals: seq<real>, interval: real)
    ensures Serves(Slots(arrivals, interval), arrivals, interval)
  {
    forall i | 0 <= i < |arrivals|
      ensures Slots(arrivals, interval)[i] >= arrivals[i]
      ensures i > 0 ==> Slots(arrivals, interval)[i] >= Slots(arrivals, interval)[i - 1] + interval
    {
      NextSlot(arrivals, interval, i);
    }
  }

  // ---- the cap per minute ----

  function Ceil(x: real): int {
    -((-x).Floor)
  }

  /** The slots that lie in the minute from start, the end not included. */
  function InMinute(slots: seq<real>, start: real): set<nat> {
    set i | 0 <= i < |slots| && start <= slots[i] < start + 60.0
  }

  /** No minute, wherever it starts, holds more slots than the rate, rounded up. */
  lemma MinuteIsCapped(arrivals: seq<real>, rpm: real, start: real)
    ensures |InMinute(Slots(arrivals, Interval(rpm)), start)| <= Ceil(AtLeastOne(rpm))
  {
    var hits := InMinute(Slots(arrivals, Interval(rpm)), start);
    if hits != {} {
      var first := Least(hits);
      forall i | i in hits
        ensures first <= i < first + Ceil(AtLeastOne(rpm))
      {
        SlotsOfOneMinute(arrivals, rpm, start, first, i);
      }
      RangeSize(hits, first, Ceil(AtLeastOne(rpm)));
    }
  }

  lemma SlotsOfOneMinute(arrivals: seq<real>, rpm: real, start: real, i: nat, j: nat)
    requires i in InMinute(Slots(arrivals, Interval(rpm)), start)
             && j in InMinute(Slots(arrivals, Interval(rpm)), start)
    requires i <= j
    ensures j - i < Ceil(AtLeastOne(rpm))
  {
    SlotsAreSpaced(arrivals, Interval(rpm), i, j);
    IntervalBounds(AtLeastOne(rpm));
    FewIntervals(j - i, AtLeastOne(rpm), Interval(rpm), (j - i) as real * Interval(rpm));
  }

  /** Exactly as many intervals as lie below the rate fit into less than a minute. */
  lemma FewIntervals(k: nat, rate: real, interval: real, span: real)
    requires interval > 0.0 && interval * rate == 60.0 && span == k as real * interval
    ensures span < 60.0 <==> k < Ceil(rate)
  {
    CeilIsAbove(k, rate);
    var x := k as real;
    assert x * interval - rate * interval == (x - rate) * interval;
    assert rate * interval == interval * rate;
    if x >= rate {
      assert (x - rate) * interval >= 0.0;
    } else {
      assert (x - rate) * interval < 0.0;
    }
  }

  lemma CeilIsAbove(k: nat, rate: real)
    ensures k as real < rate <==> k < Ceil(rate)
  {
  }

  /** The cap is reached: callers that all come at once fill the minute. */
  lemma BusyMinuteIsFull(arrivals: seq<real>, rpm: real, start: real)
    requires AllAt(arrivals, start)
    requires |arrivals| >= Ceil(AtLeastOne(rpm))
    ensures |InMinute(Slots(arrivals, Interval(rpm)), start)| == Ceil(AtLeastOne(rpm))
  {
    MinuteIsCapped(arrivals, rpm, start);
    var hits := InMinute(Slots(arrivals, Interval(rpm)), start);
    forall i | 0 <= i < Ceil(AtLeastOne(rpm))
      ensures i in hits
    {
      BusySlotIsInMinute(arrivals, rpm, start, i);
    }
    RangeFits(hits, Ceil(AtLeastOne(rpm)));
  }

  ghost predicate AllAt(arrivals: seq<real>, start: real) {
    forall i :: 0 <= i < |arrivals| ==> arrivals[i] == start
  }

  lemma BusySlotIsInMinute(arrivals: seq<real>, rpm: real, start: real, i: nat)
    requires AllAt(arrivals, start) && i < |arrivals| && i < Ceil(AtLeastOne(rpm))
    ensures i in InMinute(Slots(arrivals, Interval(rpm)), start)
  {
    var span := i as real * Interval(rpm);
    BusySlot(arrivals, Interval(rpm), start, i);
    SpanIsShort(rpm, i);
    SlotInMinute(Slots(arrivals, Interval(rpm)), start, i, span);
  }

  lemma SpanIsShort(rpm: real, i: nat)
    requires i < Ceil(AtLeastOne(rpm))
    ensures 0.0 <= i as real * Interval(rpm) < 60.0
  {
    IntervalBounds(AtLeastOne(rpm));
    FewIntervals(i, AtLeastOne(rpm), Interval(rpm), i as real * Interval(rpm));
  }

  lemma SlotInMinute(slots: seq<real>, start: real, i: nat, span: real)
    requires i < |slots| && slots[i] == start + span && 0.0 <= span < 60.0
    ensures i in InMinute(slots, start)
  {
  }

  lemma {:induction false} BusySlot(arrivals: seq<real>, interval: real, start: real, i: nat)
    requires interval > 0.0 && i < |arrivals| && AllAt(arrivals, start)
    ensures Slots(arrivals, interval)[i] == start + i as real * interval
  {
    NextSlot(arrivals, interval, i);
    if i > 0 {
      BusySlot(arrivals, interval, start, i - 1);
      assert i as real * interval == (i - 1) as real * interval + interval;
      assert (i - 1) as real * interval >= 0.0;
    }
  }

  lemma {:induction false} Least(s: set<nat>) returns (m: nat)
    requires s != {}
    ensures m in s && forall i :: i in s ==> m <= i
  {
    m :| m in s;
    if s != {m} {
      var other := m;
      assert s - {other} != {};
      var rest := Least(s - {other});
      m := if rest < other then rest else other;
      assert forall i :: i in s ==> i == other || i in s - {other};
    }
  }

  lemma {:induction false} RangeFits(s: set<nat>, size: nat)
    requires forall i :: 0 <= i < size ==> i in s
    ensures |s| >= size
  {
    if size > 0 {
      RangeFits(s - {size - 1}, size - 1);
    }
  }

  lemma {:induction false} RangeSize(s: set<nat>, lo: nat, size: nat)
    requires forall i :: i in s ==> lo <= i < lo + size
    ensures |s| <= size
  {
    if size == 0 {
      assert s == {};
    } else {
      RangeSize(s - {lo + size - 1}, lo, size - 1);
    }
  }
}
