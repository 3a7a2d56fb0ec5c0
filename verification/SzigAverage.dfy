/**
 The average aggregator of SZIG (lib/szig.cc): a queue of the recent increments of
 a source counter, their running sum, and the published rate.
 */
module SzigAverage {
  // ---------------------------------------------------------------- times

  datatype Time = Time(sec: int, usec: int)

  predicate IsTime(t: Time) { 0 <= t.usec < 1000000 }

  function Micros(t: Time): int { t.sec * 1000000 + t.usec }

  /** g_time_val_add with a negative number of microseconds. */
  function Earlier(t: Time, us: nat): Time {
    var usec := t.usec - us % 1000000;
    if usec < 0 then Time(t.sec - us / 1000000 - 1, usec + 1000000) else Time(t.sec - us / 1000000, usec)
  }

  /** z_szig_agr_average_is_older. */
  predicate IsOlder(check: Time, end: Time, interval: nat) {
    var start := Earlier(end, interval * 1000000);
    if check.sec < start.sec then true
    else if check.sec > start.sec then false
    else check.usec < start.usec
  }

  predicate Older(check: Time, end: Time, interval: nat) { Micros(check) < Micros(end) - interval * 1000000 }

  /** Comparing the pairs is comparing microseconds. */
  lemma IsOlderExact(check: Time, end: Time, interval: nat)
    requires IsTime(check) && IsTime(end)
    ensures IsOlder(check, end, interval) <==> Older(check, end, interval)
  {
  }

  // ---------------------------------------------------------------- the history of a counter

  datatype Tick = Tick(time: Time, value: int)

  datatype Sample = Sample(value: int, time: Time)

  /** Times never go back from tick m on. */
  predicate OrderedFrom(hist: seq<Tick>, m: nat)
    decreases |hist| - m
  {
    m < |hist| ==>
      && IsTime(hist[m].time)
      && (m + 1 < |hist| ==> Micros(hist[m].time) <= Micros(hist[m + 1].time))
      && OrderedFrom(hist, m + 1)
  }

  predicate Ordered(hist: seq<Tick>) { OrderedFrom(hist, 0) }

  lemma {:induction false} OrderedTail(hist: seq<Tick>, m: nat)
    requires Ordered(hist) && m <= |hist|
    ensures OrderedFrom(hist, m)
  {
    if m > 0 {
      OrderedTail(hist, m - 1);
    }
  }

  /** The counter after the first m ticks; it starts from 0. */
  function Level(hist: seq<Tick>, m: nat): int
    requires m <= |hist|
  {
    if m == 0 then 0 else hist[m - 1].value
  }

  /** How many ticks lie before the window that ends at a time. */
  function Expired(hist: seq<Tick>, end: Time, interval: nat): (m: nat)
    ensures m <= |hist|
    ensures forall i :: 0 <= i < m ==> Older(hist[i].time, end, interval)
    ensures m < |hist| ==> !Older(hist[m].time, end, interval)
  {
    if hist == [] || !Older(hist[0].time, end, interval) then 0 else 1 + Expired(hist[1..], end, interval)
  }

  /** What tick m adds to the queue. */
  function Own(hist: seq<Tick>, m: nat): seq<Sample>
    requires m < |hist|
  {
    Added(hist[m].value - Level(hist, m), hist[m].time)
  }

  function Added(diff: int, time: Time): seq<Sample> { if diff != 0 then [Sample(diff, time)] else [] }

  /** The increments of the ticks from m on. */
  function Samples(hist: seq<Tick>, m: nat): seq<Sample>
    requires m <= |hist|
    decreases |hist| - m
  {
    if m == |hist| then [] else Own(hist, m) + Samples(hist, m + 1)
  }

  /** How many ticks have left the window that ends at the last one. */
  function Gone(hist: seq<Tick>, interval: nat): (m: nat)
    ensures m <= |hist|
  {
    if hist == [] then 0 else Expired(hist, hist[|hist| - 1].time, interval)
  }

  function Window(hist: seq<Tick>, interval: nat): seq<Sample> { Samples(hist, Gone(hist, interval)) }

  function Total(q: seq<Sample>): int { if q == [] then 0 else q[0].value + Total(q[1..]) }

  function PopOld(q: seq<Sample>, end: Time, interval: nat): seq<Sample> {
    if q != [] && Older(q[0].time, end, interval) then PopOld(q[1..], end, interval) else q
  }

  lemma {:induction false} TotalSnoc(q: seq<Sample>, s: Sample)
    ensures Total(q + [s]) == Total(q) + s.value
  {
    if q == [] {
      assert [] + [s] == [s];
    } else {
      TotalSnoc(q[1..], s);
      assert (q + [s])[1..] == q[1..] + [s];
    }
  }

  lemma {:induction false} TotalSamples(hist: seq<Tick>, m: nat)
    requires m <= |hist|
    ensures Total(Samples(hist, m)) == Level(hist, |hist|) - Level(hist, m)
    decreases |hist| - m
  {
    if m < |hist| {
      TotalSamples(hist, m + 1);
      var diff, rest := hist[m].value - Level(hist, m), Samples(hist, m + 1);
      assert Samples(hist, m) == Added(diff, hist[m].time) + rest;
      TotalAdded(diff, hist[m].time, rest);
    }
  }

  lemma TotalAdded(diff: int, time: Time, q: seq<Sample>)
    ensures Total(Added(diff, time) + q) == diff + Total(q)
  {
    if diff != 0 {
      assert (Added(diff, time) + q)[1..] == q;
    } else {
      assert Added(diff, time) + q == q;
    }
  }

  lemma {:induction false} SamplesSnoc(hist: seq<Tick>, t: Tick, m: nat)
    requires m <= |hist|
    ensures Samples(hist + [t], m) == Samples(hist, m) + Own(hist + [t], |hist|)
    decreases |hist| - m
  {
    var longer := hist + [t];
    if m == |hist| {
      assert Samples(longer, m + 1) == [];
    } else {
      SamplesSnoc(hist, t, m + 1);
      assert Own(longer, m) == Own(hist, m);
    }
  }

  lemma SamplesStep(hist: seq<Tick>, m: nat)
    requires m < |hist|
    ensures Samples(hist, m) == Own(hist, m) + Samples(hist, m + 1)
    ensures Own(hist, m) == [] ==> Samples(hist, m) == Samples(hist, m + 1)
    ensures Own(hist, m) != [] ==>
              Samples(hist, m) != [] && Samples(hist, m)[0].time == hist[m].time && Samples(hist, m)[1..] == Samples(hist, m + 1)
  {
  }

  predicate Timed(q: seq<Sample>) { q != [] ==> IsTime(q[0].time) && Timed(q[1..]) }

  /** A queue in time order, none of it before a point. */
  predicate InOrder(q: seq<Sample>, from: int) {
    q != [] ==> IsTime(q[0].time) && Micros(q[0].time) >= from && InOrder(q[1..], Micros(q[0].time))
  }

  lemma {:induction false} SamplesInOrder(hist: seq<Tick>, m: nat, from: int)
    requires m <= |hist| && OrderedFrom(hist, m) && (m < |hist| ==> from <= Micros(hist[m].time))
    ensures InOrder(Samples(hist, m), from)
    decreases |hist| - m
  {
    if m < |hist| {
      SamplesStep(hist, m);
      SamplesInOrder(hist, m + 1, if Own(hist, m) == [] then from else Micros(hist[m].time));
    }
  }

  /** Popping old entries off the front drops exactly the expired ticks. */
  lemma {:induction false} PopSamples(hist: seq<Tick>, m: nat, end: Time, interval: nat)
    requires OrderedFrom(hist, m) && m <= Expired(hist, end, interval)
    ensures PopOld(Samples(hist, m), end, interval) == Samples(hist, Expired(hist, end, interval))
    decreases |hist| - m
  {
    if m < Expired(hist, end, interval) {
      PopSamples(hist, m + 1, end, interval);
      SamplesStep(hist, m);
    } else if m < |hist| {
      SamplesInOrder(hist, m, Micros(hist[m].time));
    }
  }

  lemma ExpiredGrows(hist: seq<Tick>, t: Tick, interval: nat)
    requires hist != [] && Micros(hist[|hist| - 1].time) <= Micros(t.time)
    ensures Expired(hist, hist[|hist| - 1].time, interval) <= Expired(hist, t.time, interval)
  {
  }

  lemma ExpiredSnoc(hist: seq<Tick>, t: Tick, interval: nat)
    ensures Expired(hist + [t], t.time, interval) == Expired(hist, t.time, interval)
  {
    var longer, e := hist + [t], Expired(hist, t.time, interval);
    assert forall i :: 0 <= i < |hist| ==> longer[i] == hist[i];
    assert longer[|hist|] == t;
  }

  /** C division. */
  function Quotient(a: int, b: nat): int
    requires b > 0
  {
    if a >= 0 then a / b else -((-a) / b)
  }

  /** It rounds towards zero: what is left over is smaller than the divisor and has the sign of the dividend. */
  lemma QuotientExact(a: int, b: nat)
    requires b > 0
    ensures var left := a - Quotient(a, b) * b; if a >= 0 then 0 <= left < b else 0 <= -left < b
  {
    var k := if a >= 0 then a / b else (-a) / b;
    assert (-k) * b == -(k * b);
  }

  // ---------------------------------------------------------------- imperative form

  /** Node names the interval can be parsed from: they end in 1, or in 5 after another character. */
  predicate EndsIn(name: string, tail: string) { |tail| <= |name| && name[|name| - |tail|..] == tail }

  /** The minutes that the node is named after. */
  function Minutes(name: string): nat { if EndsIn(name, "15") then 15 else if EndsIn(name, "5") then 5 else 1 }

  predicate Parses(name: string) {
    name != "" && (name[|name| - 1] == '1' || (name[|name| - 1] == '5' && |name| > 1))
  }

  class Aggregator {
    const interval: nat
    var lastValue: int
    var sum: int
    var values: seq<Sample>
    var published: int
    /** The ticks handled so far, and how many of them have been popped off. */
    ghost var hist: seq<Tick>
    ghost var gone: nat

    ghost predicate Valid()
      reads this
    {
      && interval > 0 && gone <= |hist| && AllTimed(hist)
      && lastValue == Level(hist, |hist|)
      && values == Samples(hist, gone)
      && sum == Total(values)
      && (Ordered(hist) ==> values == Window(hist, interval))
    }

    constructor (name: string)
      requires Parses(name)
      ensures Valid() && hist == [] && published == 0
      ensures interval == 60 * Minutes(name)
    {
      var n := |name|;
      assert name[n - 1..] == [name[n - 1]] && (n > 1 ==> name[n - 2..] == [name[n - 2], name[n - 1]]);
      if name[|name| - 1] == '1' {
        interval := 60;
      } else if name[|name| - 2] == '1' {
        interval := 900;
      } else {
        interval := 300;
      }
      lastValue, sum, values, published, hist, gone := 0, 0, [], 0, [], 0;
    }

    /** The loop that expires the head of the queue. */
    method Expire(now: Time)
      requires IsTime(now) && sum == Total(values) && Timed(values)
      modifies this`sum, this`values
      ensures values == PopOld(old(values), now, interval) && sum == Total(values)
    {
      while values != [] && IsOlder(values[0].time, now, interval)
        invariant PopOld(values, now, interval) == PopOld(old(values), now, interval) && sum == Total(values)
        invariant Timed(values)
        decreases |values|
      {
        IsOlderExact(values[0].time, now, interval);
        sum := sum - values[0].value;
        values := values[1..];
      }
      if values != [] {
        IsOlderExact(values[0].time, now, interval);
      }
      if values == [] {
        sum := 0;
      }
    }

    /**
     z_szig_agr_average_rate: a tick, with the counter's value if the source node was found.  The sum is
     the growth of the counter since the last tick popped off.  As long as the clock has not gone back,
     that is the last tick that has left the window, and the queue holds only times inside the window,
     in order.
     */
    method OnTick(now: Time, resolved: bool, current: int)
      requires Valid() && IsTime(now)
      modifies this
      ensures Valid()
      ensures !resolved ==> unchanged(this)
      ensures resolved ==>
                && hist == old(hist) + [Tick(now, current)] && old(gone) <= gone
                && values == PopOld(old(values), now, interval) + Added(current - old(lastValue), now)
                && sum == current - Level(hist, gone)
                && published == Quotient(sum, interval)
      ensures resolved && Ordered(hist) ==>
                && sum == current - Level(hist, Expired(hist, now, interval))
                && InOrder(values, Micros(now) - interval * 1000000)
    {
      if !resolved {
        return;
      }
      var diff := current - lastValue;
      AnyTick(hist, Tick(now, current), gone, interval);
      if Ordered(hist + [Tick(now, current)]) {
        AfterTick(hist, Tick(now, current), interval);
      }
      lastValue := current;
      Expire(now);
      Push(diff, now);
      gone := PopTo(hist, gone, now, interval);
      hist := hist + [Tick(now, current)];
      published := Quotient(sum, interval);
    }

    /** Increments of 0 are not tracked. */
    method Push(diff: int, now: Time)
      requires sum == Total(values)
      modifies this`sum, this`values
      ensures values == old(values) + Added(diff, now) && sum == Total(values)
    {
      if diff != 0 {
        TotalSnoc(values, Sample(diff, now));
        values := values + [Sample(diff, now)];
        sum := sum + diff;
      }
    }
  }

  lemma OwnLast(hist: seq<Tick>, t: Tick)
    ensures Own(hist + [t], |hist|) == Added(t.value - Level(hist, |hist|), t.time)
  {
    assert Level(hist + [t], |hist|) == Level(hist, |hist|);
  }

  predicate AllTimed(hist: seq<Tick>) { forall i :: 0 <= i < |hist| ==> IsTime(hist[i].time) }

  lemma {:induction false} QueueTimes(hist: seq<Tick>, m: nat)
    requires AllTimed(hist) && m <= |hist|
    ensures Timed(Samples(hist, m))
    decreases |hist| - m
  {
    if m < |hist| {
      SamplesStep(hist, m);
      QueueTimes(hist, m + 1);
    }
  }

  /** Where popping old entries stops, on any history. */
  function PopTo(hist: seq<Tick>, m: nat, end: Time, interval: nat): (k: nat)
    requires m <= |hist|
    ensures m <= k <= |hist|
    decreases |hist| - m
  {
    if m < |hist| && (Own(hist, m) == [] || Older(hist[m].time, end, interval)) then PopTo(hist, m + 1, end, interval) else m
  }

  lemma {:induction false} PopIsPopTo(hist: seq<Tick>, m: nat, end: Time, interval: nat)
    requires m <= |hist|
    ensures PopOld(Samples(hist, m), end, interval) == Samples(hist, PopTo(hist, m, end, interval))
    decreases |hist| - m
  {
    if m < |hist| {
      SamplesStep(hist, m);
      if Own(hist, m) == [] || Older(hist[m].time, end, interval) {
        PopIsPopTo(hist, m + 1, end, interval);
      }
    }
  }

  lemma QueueAfter(hist: seq<Tick>, t: Tick, gone: nat, interval: nat)
    requires Ordered(hist) && gone <= Expired(hist, t.time, interval)
    ensures PopOld(Samples(hist, gone), t.time, interval) + Added(t.value - Level(hist, |hist|), t.time) ==
            Samples(hist + [t], Expired(hist + [t], t.time, interval))
  {
    OrderedTail(hist, gone);
    PopSamples(hist, gone, t.time, interval);
    SamplesSnoc(hist, t, Expired(hist, t.time, interval));
    OwnLast(hist, t);
    ExpiredSnoc(hist, t, interval);
  }

  lemma WindowOf(hist: seq<Tick>, interval: nat)
    requires hist != [] && Ordered(hist)
    ensures var now := hist[|hist| - 1].time;
            && InOrder(Window(hist, interval), Micros(now) - interval * 1000000)
            && Total(Window(hist, interval)) == Level(hist, |hist|) - Level(hist, Expired(hist, now, interval))
  {
    var now := hist[|hist| - 1].time;
    var m := Expired(hist, now, interval);
    OrderedTail(hist, m);
    SamplesInOrder(hist, m, Micros(now) - interval * 1000000);
    TotalSamples(hist, m);
  }

  lemma {:induction false} OrderedInit(hist: seq<Tick>, t: Tick, m: nat)
    requires m <= |hist| && OrderedFrom(hist + [t], m)
    ensures OrderedFrom(hist, m) && (m < |hist| ==> Micros(hist[|hist| - 1].time) <= Micros(t.time))
    decreases |hist| - m
  {
    var longer := hist + [t];
    if m < |hist| {
      OrderedInit(hist, t, m + 1);
      assert longer[m] == hist[m] && (m + 1 < |hist| ==> longer[m + 1] == hist[m + 1]) && longer[|hist|] == t;
    }
  }

  /** The queue after a tick that does not go back is exactly the window, and adds up to its growth. */
  lemma AfterTick(hist: seq<Tick>, t: Tick, interval: nat)
    requires Ordered(hist + [t])
    ensures Ordered(hist)
    ensures PopOld(Window(hist, interval), t.time, interval) + Added(t.value - Level(hist, |hist|), t.time) == Window(hist + [t], interval)
    ensures InOrder(Window(hist + [t], interval), Micros(t.time) - interval * 1000000)
    ensures Total(Window(hist + [t], interval)) == t.value - Level(hist + [t], Expired(hist + [t], t.time, interval))
  {
    OrderedInit(hist, t, 0);
    if hist != [] {
      ExpiredGrows(hist, t, interval);
    }
    QueueAfter(hist, t, Gone(hist, interval), interval);
    WindowOf(hist + [t], interval);
  }

  /** The queue after any tick is that of the ticks not popped off, and adds up to their growth. */
  lemma AnyTick(hist: seq<Tick>, t: Tick, gone: nat, interval: nat)
    requires gone <= |hist| && AllTimed(hist) && IsTime(t.time)
    ensures Timed(Samples(hist, gone)) && AllTimed(hist + [t]) && Level(hist + [t], |hist + [t]|) == t.value
    ensures var k := PopTo(hist, gone, t.time, interval);
            && PopOld(Samples(hist, gone), t.time, interval) + Added(t.value - Level(hist, |hist|), t.time) == Samples(hist + [t], k)
            && Total(Samples(hist + [t], k)) == t.value - Level(hist + [t], k)
  {
    var k := PopTo(hist, gone, t.time, interval);
    QueueTimes(hist, gone);
    PopIsPopTo(hist, gone, t.time, interval);
    SamplesSnoc(hist, t, k);
    OwnLast(hist, t);
    TotalSamples(hist + [t], k);
  }
}
