/** The internal millisecond clock (src/olsr_clock.c), fed with wall-clock readings that may jump either way. Values are
    those before the 32-bit counter wraps. */
module Clock {

  const MAX_STEP: nat := 61_000

  // A wall-clock reading.
  datatype Time = Time(sec: int, usec: int)

  predicate TimeOk(t: Time) { 0 <= t.usec < 1_000_000 }

  // Division by 1000 that rounds towards zero
  function Trunc(x: int): int { if x >= 0 then x / 1000 else -(-x / 1000) }

  // Milliseconds between two readings, seconds and microseconds apart
  function Millis(first: Time, t: Time): int
  {
    (t.sec - first.sec) * 1000 + Trunc(t.usec - first.usec)
  }

  predicate Before(t: Time, u: Time) { t.sec < u.sec || (t.sec == u.sec && t.usec < u.usec) }

  // Rounding towards zero does not let the difference run backwards, nor ahead by more than a millisecond a second.
  lemma MillisMonotone(first: Time, t: Time, u: Time)
    requires TimeOk(first) && TimeOk(t) && TimeOk(u) && !Before(u, t)
    ensures Millis(first, t) <= Millis(first, u) <= Millis(first, t) + (u.sec - t.sec + 1) * 1000
  {
  }

  // The reading that lies ms milliseconds before t.
  function Back(t: Time, ms: nat): Time
  {
    var sec, usec := t.sec - ms / 1000, t.usec - ms % 1000 * 1000;
    if usec < 0 then Time(sec - 1, usec + 1_000_000) else Time(sec, usec)
  }

  lemma BackIs(t: Time, ms: nat)
    requires TimeOk(t)
    ensures TimeOk(Back(t, ms)) && Millis(Back(t, ms), t) == ms
  {
  }

  // A reading in microseconds.
  function Micros(t: Time): int { 1_000_000 * t.sec + t.usec }

  // The division rounds towards zero.
  lemma TruncIs(x: int)
    ensures x >= 0 ==> 0 <= x - 1000 * Trunc(x) < 1000
    ensures x <= 0 ==> -1000 < x - 1000 * Trunc(x) <= 0
  {
  }

  // The difference is that of the readings, to less than a millisecond.
  lemma MillisNear(first: Time, t: Time)
    ensures -1000 < 1000 * Millis(first, t) - (Micros(t) - Micros(first)) < 1000
  {
  }

  // The second reading is before the first, or more than sixty in seconds after it.
  predicate Leaps(t: Time, u: Time) { Micros(u) < Micros(t) || u.sec > t.sec + 60 }

  // What the clock shows from one reading to another without a leap: the time between them, to less than two
  // milliseconds.
  ghost predicate Measures(t: Time, u: Time, before: int, after: int)
  {
    -2000 < 1000 * (after - before) - (Micros(u) - Micros(t)) < 2000
  }

  // One step of the clock: never backwards, never more than 61 seconds ahead, and one millisecond if the reading
  // leaps.
  ghost predicate TickAt(readings: seq<Time>, trace: seq<nat>, i: int)
    requires 0 <= i < |readings| && i + 1 < |trace|
  {
    trace[i] <= trace[i + 1] <= trace[i] + MAX_STEP
      && (i > 0 && Leaps(readings[i - 1], readings[i]) ==> trace[i + 1] == trace[i] + 1)
  }

  // Each reading against the time the clock counts from then; that time stays unless the reading leaps.
  ghost predicate SinceAt(readings: seq<Time>, trace: seq<nat>, since: seq<Time>, i: int)
    requires 0 <= i < |readings| && i + 1 < |trace| && i < |since|
  {
    trace[i + 1] == Millis(since[i], readings[i])
      && (i > 0 && !Leaps(readings[i - 1], readings[i]) ==> since[i] == since[i - 1])
  }

  ghost predicate Ticking(readings: seq<Time>, trace: seq<nat>, since: seq<Time>, n: nat)
  {
    && n == |since| <= |readings| && |trace| == n + 1
    && (forall j {:trigger TickAt(readings, trace, j)} :: 0 <= j < n ==> TickAt(readings, trace, j))
    && (forall j {:trigger SinceAt(readings, trace, since, j)} :: 0 <= j < n ==> SinceAt(readings, trace, since, j))
  }

  lemma {:induction false} Ticks(readings: seq<Time>, trace: seq<nat>, since: seq<Time>, i: nat, now: nat, first: Time)
    requires Ticking(readings, trace, since, i) && i < |readings| && trace[i] <= now <= trace[i] + MAX_STEP
    requires i > 0 && Leaps(readings[i - 1], readings[i]) ==> now == trace[i] + 1
    requires now == Millis(first, readings[i])
    requires i > 0 && !Leaps(readings[i - 1], readings[i]) ==> first == since[i - 1]
    ensures Ticking(readings, trace + [now], since + [first], i + 1)
  {
    forall j | 0 <= j <= i
      ensures TickAt(readings, trace + [now], j) && SinceAt(readings, trace + [now], since + [first], j)
    {
      assert j < i ==> TickAt(readings, trace, j) && SinceAt(readings, trace, since, j);
    }
  }

  // No reading after the i-th up to the j-th leaps.
  ghost predicate Calm(readings: seq<Time>, i: nat, j: nat)
  {
    forall k {:trigger readings[k]} :: i < k <= j && k < |readings| ==> !Leaps(readings[k - 1], readings[k])
  }

  // However long it goes without a leap, the clock does not drift.
  lemma {:induction false} NoDrift(readings: seq<Time>, trace: seq<nat>, since: seq<Time>, i: nat, j: nat)
    requires Ticking(readings, trace, since, |readings|) && i <= j < |readings| && Calm(readings, i, j)
    ensures since[i] == since[j] && Measures(readings[i], readings[j], trace[i + 1], trace[j + 1])
  {
    assert SinceAt(readings, trace, since, i) && SinceAt(readings, trace, since, j);
    if i < j {
      assert !Leaps(readings[j - 1], readings[j]);
      NoDrift(readings, trace, since, i, j - 1);
    }
    MillisNear(since[i], readings[i]);
    MillisNear(since[i], readings[j]);
  }

  class InternalClock {
    var now: nat
    var first: Time
    var last: Time

    ghost predicate Valid()
      reads this
    {
      TimeOk(first) && TimeOk(last) && now == Millis(first, last)
    }

    constructor (tv: Time)
      requires TimeOk(tv)
      ensures Valid() && now == 0 && last == tv
    {
      first, last, now := tv, tv, 0;
    }

    // olsr_clock_update
    method Update(tv: Time)
      requires Valid() && TimeOk(tv)
      modifies this
      ensures Valid() && last == tv
      ensures Leaps(old(last), tv) ==> now == old(now) + 1
      ensures !Leaps(old(last), tv) ==>
        old(now) <= now <= old(now) + MAX_STEP && first == old(first) && Measures(old(last), tv, old(now), now)
    {
      MillisMonotone(first, last, last);
      MillisNear(first, last);
      MillisNear(first, tv);
      if tv.sec < last.sec || (tv.sec == last.sec && tv.usec < last.usec) || tv.sec - last.sec > 60 {
        var t := Millis(first, last);
        t := t + 1;
        BackIs(tv, t);
        first := Time(tv.sec - t / 1000, tv.usec - t % 1000 * 1000);
        if first.usec < 0 {
          first := Time(first.sec - 1, first.usec + 1_000_000);
        }
        last := tv;
        now := t;
      } else {
        MillisMonotone(first, last, tv);
      }
      last := tv;
      now := Millis(first, tv);
    }

    // Whatever the readings, the clock never runs backwards and never leaps by more than 61 seconds, and as long as
    // they do not leap it shows the time between them.
    method Run(readings: seq<Time>) returns (trace: seq<nat>)
      requires Valid() && forall t :: t in readings ==> TimeOk(t)
      modifies this
      ensures Valid() && |trace| == |readings| + 1 && trace[0] == old(now)
      ensures forall i {:trigger TickAt(readings, trace, i)} :: 0 <= i < |readings| ==> TickAt(readings, trace, i)
      ensures forall i, j {:trigger Calm(readings, i, j)} :: 0 <= i <= j < |readings| && Calm(readings, i, j) ==>
        Measures(readings[i], readings[j], trace[i + 1], trace[j + 1])
    {
      trace := [now];
      ghost var since: seq<Time> := [];
      for i := 0 to |readings|
        invariant Valid() && |trace| == i + 1 && trace[0] == old(now) && trace[i] == now
          && (i > 0 ==> last == readings[i - 1])
        invariant Ticking(readings, trace, since, i) && (i > 0 ==> first == since[i - 1])
      {
        Update(readings[i]);
        Ticks(readings, trace, since, i, now, first);
        trace, since := trace + [now], since + [first];
      }
      forall i: nat, j: nat | i <= j < |readings| && Calm(readings, i, j)
        ensures Measures(readings[i], readings[j], trace[i + 1], trace[j + 1])
      {
        NoDrift(readings, trace, since, i, j);
      }
    }
  }
}
