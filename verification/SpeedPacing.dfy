/** The paced sender: at no send, whatever the clock shows, has it transmitted
    faster than configured, and on a clock read every nanosecond it sends as
    often as its interval allows. */
module SpeedPacing {
  const U32: nat := 0x1_0000_0000
  const BILLION: nat := 1_000_000_000

  /** Packets per second, in 32-bit arithmetic. */
  function Pps(speed: nat, size: nat): nat
    requires size > 0
  {
    speed * 1024 % U32 * 1024 % U32 / 8 / size
  }

  /** send_time, in nanoseconds. */
  function SendTime(speed: nat, size: nat): nat
    requires size > 0 && Pps(speed, size) > 0
  {
    BILLION / Pps(speed, size)
  }

  /** One turn of the loop: the clock reading, whether a transmission would
      succeed, and whether a stop is due after it. */
  datatype Tick = Tick(now: nat, ok: bool, stop: bool)

  predicate ClockFits(now: nat) { now + 1_000_000_000 < 0x1_0000_0000_0000_0000 }

  predicate ClocksFit(ticks: seq<Tick>) {
    forall k :: 0 <= k < |ticks| ==> ClockFits(ticks[k].now)
  }

  /** The turns that transmit, when the last transmission was at prev. */
  function Sends(prev: nat, interval: nat, ticks: seq<Tick>): seq<Tick>
    decreases |ticks|
  {
    if ticks == [] then []
    else if prev + interval >= ticks[0].now then Sends(prev, interval, ticks[1..])
    else [ticks[0]] + if ticks[0].stop then [] else Sends(ticks[0].now, interval, ticks[1..])
  }

  function Successes(log: seq<Tick>): nat {
    if log == [] then 0 else Successes(log[..|log| - 1]) + if log[|log| - 1].ok then 1 else 0
  }

  /** The transmissions that succeeded. */
  function Succeeded(log: seq<Tick>): set<nat> {
    set k: nat | k < |log| && log[k].ok
  }

  lemma {:induction false} SuccessesCount(log: seq<Tick>)
    ensures Successes(log) == |Succeeded(log)|
  {
    if log != [] {
      var init, last := log[..|log| - 1], |log| - 1;
      SuccessesCount(init);
      assert Succeeded(log) == Succeeded(init) + if log[last].ok then {last} else {};
    }
  }

  /** Every transmission is a turn of the loop, and a stop ends it with the next one. */
  lemma {:induction false} SendsAreTurns(prev: nat, interval: nat, ticks: seq<Tick>, k: nat)
    requires k < |Sends(prev, interval, ticks)|
    ensures Sends(prev, interval, ticks)[k] in ticks
    ensures k < |Sends(prev, interval, ticks)| - 1 ==> !Sends(prev, interval, ticks)[k].stop
    decreases |ticks|
  {
    if prev + interval >= ticks[0].now {
      SendsAreTurns(prev, interval, ticks[1..], k);
    } else if k > 0 {
      SendsAreTurns(ticks[0].now, interval, ticks[1..], k - 1);
    }
  }

  lemma SuccessesAtMost(log: seq<Tick>)
    ensures Successes(log) <= |log|
  {}

  lemma {:induction false} SendsSpaced(prev: nat, interval: nat, ticks: seq<Tick>, k: nat)
    requires k < |Sends(prev, interval, ticks)|
    ensures Sends(prev, interval, ticks)[k].now >= prev + (k + 1) * (interval + 1)
    decreases |ticks|
  {
    if prev + interval >= ticks[0].now {
      SendsSpaced(prev, interval, ticks[1..], k);
    } else if k > 0 {
      SendsSpaced(ticks[0].now, interval, ticks[1..], k - 1);
      assert (k + 1) * (interval + 1) == k * (interval + 1) + (interval + 1);
    }
  }

  lemma FloorBelow(a: nat, b: nat)
    requires b > 0
    ensures a / b * b <= a < (a / b + 1) * b
  {}

  lemma MulMonotone(a: nat, b: nat, c: nat)
    requires a <= b
    ensures a * c <= b * c
  {}

  /** n packets in n gaps, when a gap holds at least 1/pps of a second. */
  lemma GapRate(pps: nat, gap: nat, size: nat, perSecond: nat, n: nat, elapsed: nat)
    requires BILLION <= gap * pps && pps * size <= perSecond && n * gap <= elapsed
    ensures n * size * BILLION <= elapsed * perSecond
  {
    MulMonotone(BILLION, gap * pps, n * size);
    assert BILLION * (n * size) == n * size * BILLION;
    Regroup(gap, pps, n, size);
    MulMonotone(pps * size, perSecond, n * gap);
    MulMonotone(n * gap, elapsed, perSecond);
    assert perSecond * (n * gap) == n * gap * perSecond;
  }

  lemma Regroup(a: nat, b: nat, c: nat, d: nat)
    ensures a * b * (c * d) == b * d * (c * a)
  {
    assert a * b * (c * d) == a * (b * (c * d));
    assert b * (c * d) == b * d * c;
    assert a * (b * d * c) == b * d * (c * a);
  }

  lemma Eightfold(x: nat, y: nat, speed: nat, elapsed: nat)
    requires x <= elapsed * (speed * 131072) && y == 8 * x
    ensures y <= speed * 0x10_0000 * elapsed
  {
    assert speed * 0x10_0000 == 8 * (speed * 131072);
    assert 8 * (speed * 131072) * elapsed == 8 * (elapsed * (speed * 131072));
  }

  lemma NoWrapBelow(speed: nat, size: nat)
    requires speed < 4096 && size > 0
    ensures Pps(speed, size) == speed * 131072 / size
  {
    SpeedWraps(speed);
  }

  /** Through both floor divisions: n packets in n intervals stay below the rate. */
  lemma RateArithmetic(speed: nat, size: nat, n: nat, elapsed: nat)
    requires speed < 100 && size > 0 && Pps(speed, size) > 0
    requires elapsed >= n * (SendTime(speed, size) + 1)
    ensures n * size * 8 * BILLION <= speed * 0x10_0000 * elapsed
  {
    var pps, gap := Pps(speed, size), SendTime(speed, size) + 1;
    NoWrapBelow(speed, size);
    FloorBelow(speed * 131072, size);
    FloorBelow(BILLION, pps);
    GapRate(pps, gap, size, speed * 131072, n, elapsed);
    assert n * size * 8 * BILLION == 8 * (n * size * BILLION);
    Eightfold(n * size * BILLION, n * size * 8 * BILLION, speed, elapsed);
  }

  /** At every transmission, with any clock readings and any failures before:
      bits handed over, per second since the start, are at most the configured
      number of binary megabits. */
  lemma NeverTooFast(speed: nat, size: nat, start: nat, ticks: seq<Tick>, k: nat)
    requires speed < 100 && size > 0 && Pps(speed, size) > 0
    requires k < |Sends(start, SendTime(speed, size), ticks)|
    ensures var log := Sends(start, SendTime(speed, size), ticks);
            Successes(log[..k + 1]) * size * 8 * BILLION <= speed * 0x10_0000 * (log[k].now - start)
  {
    var log := Sends(start, SendTime(speed, size), ticks);
    var n := Successes(log[..k + 1]);
    SuccessesAtMost(log[..k + 1]);
    SendsSpaced(start, SendTime(speed, size), ticks, k);
    MulMonotone(n, k + 1, SendTime(speed, size) + 1);
    RateArithmetic(speed, size, n, log[k].now - start);
  }

  /** Readings at most g apart from prev on, and no stop. */
  predicate Gaps(prev: nat, ticks: seq<Tick>, g: nat) {
    && (ticks != [] ==> ticks[0].now <= prev + g)
    && (forall k :: 0 < k < |ticks| ==> ticks[k].now <= ticks[k - 1].now + g)
    && (forall k :: 0 <= k < |ticks| ==> !ticks[k].stop)
  }

  /** n gaps. */
  function Times(n: nat, gap: nat): nat {
    if n == 0 then 0 else gap + Times(n - 1, gap)
  }

  lemma {:induction false} TimesIs(n: nat, gap: nat)
    ensures Times(n, gap) == n * gap
  {
    if n > 0 {
      TimesIs(n - 1, gap);
      assert n * gap == (n - 1) * gap + gap;
    }
  }

  /** `last` is the last transmission, `prev` the last reading. */
  lemma {:induction false} GapSends(last: nat, prev: nat, interval: nat, ticks: seq<Tick>, g: nat, k: nat)
    requires Gaps(prev, ticks, g) && prev <= last + interval && 0 < g
    requires ticks != [] && ticks[|ticks| - 1].now >= last + Times(k + 1, interval + g)
    ensures k < |Sends(last, interval, ticks)|
    ensures Sends(last, interval, ticks)[k].now <= last + Times(k + 1, interval + g)
    decreases |ticks|
  {
    var now, rest := ticks[0].now, ticks[1..];
    assert Gaps(now, rest, g);
    if last + interval >= now {
      GapSends(last, now, interval, rest, g, k);
    } else if k > 0 {
      GapSends(now, now, interval, rest, g, k - 1);
    }
  }

  /** Partner of NeverTooFast: on a clock read at least every g nanoseconds, once
      k + 1 gaps of send_time + g have passed packet k has left, and not before
      k + 1 gaps of send_time + 1. */
  lemma NeverTooSlow(start: nat, interval: nat, ticks: seq<Tick>, g: nat, k: nat)
    requires Gaps(start, ticks, g) && g > 0
    requires ticks != [] && ticks[|ticks| - 1].now >= start + (k + 1) * (interval + g)
    ensures k < |Sends(start, interval, ticks)|
    ensures start + (k + 1) * (interval + 1) <= Sends(start, interval, ticks)[k].now
         <= start + (k + 1) * (interval + g)
  {
    TimesIs(k + 1, interval + g);
    GapSends(start, start, interval, ticks, g, k);
    SendsSpaced(start, interval, ticks, k);
  }

  /** A second at the configured speed holds this many whole packets. */
  lemma PpsMeans(speed: nat, size: nat)
    requires speed < 4096 && size > 0
    ensures Pps(speed, size) * size <= speed * 131072 < (Pps(speed, size) + 1) * size
  {
    NoWrapBelow(speed, size);
    FloorBelow(speed * 131072, size);
  }

  /** The interval is the largest whole number of nanoseconds that fits that many
      times into a second. */
  lemma IntervalIsLargest(speed: nat, size: nat, t: nat)
    requires size > 0 && Pps(speed, size) > 0
    ensures t <= SendTime(speed, size) <==> t * Pps(speed, size) <= BILLION
  {
    var pps := Pps(speed, size);
    FloorBelow(BILLION, pps);
    if t <= SendTime(speed, size) {
      MulMonotone(t, SendTime(speed, size), pps);
    } else {
      MulMonotone(SendTime(speed, size) + 1, t, pps);
    }
  }

  lemma MulStrict(a: nat, b: nat, c: nat)
    requires c > 0
    ensures a > b ==> a * c > b * c
  {
    if a > b {
      MulMonotone(b + 1, a, c);
      assert (b + 1) * c == b * c + c;
    }
  }

  /** n gaps of an interval plus g take no longer than their share of a second. */
  lemma ShareOfSecond(n: nat, interval: nat, g: nat, pps: nat, elapsed: nat)
    requires pps > 0 && interval * pps <= BILLION && elapsed * pps >= n * (BILLION + pps * g)
    ensures n * (interval + g) <= elapsed && n * (interval + g) * pps <= n * (BILLION + pps * g)
  {
    var gap := interval + g;
    assert gap * pps == interval * pps + pps * g;
    MulMonotone(gap * pps, BILLION + pps * g, n);
    assert n * gap * pps == gap * pps * n;
    MulStrict(n * gap, elapsed, pps);
  }

  lemma InTime(start: nat, now: nat, due: nat, pps: nat, share: nat)
    requires start <= now <= start + due && due * pps <= share
    ensures (now - start) * pps <= share
  {
    MulMonotone(now - start, due, pps);
  }

  lemma NotBefore(prev: nat, interval: nat, ticks: seq<Tick>, k: nat)
    requires k < |Sends(prev, interval, ticks)|
    ensures Sends(prev, interval, ticks)[k].now >= prev
  {
    SendsSpaced(prev, interval, ticks, k);
  }

  /** Packet k leaves within `due`, which takes its share of a second. */
  lemma SentInTime(start: nat, interval: nat, ticks: seq<Tick>, g: nat, k: nat, due: nat, pps: nat, share: nat)
    requires Gaps(start, ticks, g) && g > 0 && due == Times(k + 1, interval + g) && due * pps <= share
    requires ticks != [] && ticks[|ticks| - 1].now >= start + due
    ensures var log := Sends(start, interval, ticks);
      k < |log| && log[k].now >= start && (log[k].now - start) * pps <= share
  {
    GapSends(start, start, interval, ticks, g, k);
    NotBefore(start, interval, ticks, k);
    InTime(start, Sends(start, interval, ticks)[k].now, due, pps, share);
  }

  /** For any interval that fits pps times into a second. */
  lemma RateFrom(start: nat, interval: nat, pps: nat, ticks: seq<Tick>, g: nat, k: nat)
    requires pps > 0 && interval * pps <= BILLION && Gaps(start, ticks, g) && g > 0
    requires ticks != [] && ticks[|ticks| - 1].now >= start
    requires (ticks[|ticks| - 1].now - start) * pps >= (k + 1) * (BILLION + pps * g)
    ensures var log := Sends(start, interval, ticks);
      k < |log| && log[k].now >= start && (log[k].now - start) * pps <= (k + 1) * (BILLION + pps * g)
  {
    ShareOfSecond(k + 1, interval, g, pps, ticks[|ticks| - 1].now - start);
    TimesIs(k + 1, interval + g);
    SentInTime(start, interval, ticks, g, k, Times(k + 1, interval + g), pps, (k + 1) * (BILLION + pps * g));
  }

  /** As a rate: on a clock read at least every g nanoseconds packet k has left as
      soon as the time elapsed holds k + 1 packets of the configured rate, each
      with up to g nanoseconds of delay. */
  lemma RateReached(speed: nat, size: nat, start: nat, ticks: seq<Tick>, g: nat, k: nat)
    requires size > 0 && Pps(speed, size) > 0 && Gaps(start, ticks, g) && g > 0
    requires ticks != [] && ticks[|ticks| - 1].now >= start
    requires (ticks[|ticks| - 1].now - start) * Pps(speed, size) >= (k + 1) * (BILLION + Pps(speed, size) * g)
    ensures var log, pps := Sends(start, SendTime(speed, size), ticks), Pps(speed, size);
      k < |log| && log[k].now >= start && (log[k].now - start) * pps <= (k + 1) * (BILLION + pps * g)
  {
    var interval := SendTime(speed, size);
    IntervalIsLargest(speed, size, interval);
    RateFrom(start, interval, Pps(speed, size), ticks, g, k);
  }

  /** The interval's arithmetic divides by zero. */
  predicate DividesByZero(speed: nat, size: nat) {
    size == 0 || Pps(speed, size) == 0
  }

  lemma SpeedWraps(speed: nat)
    ensures speed * 1024 % U32 * 1024 % U32 / 8 == speed % 4096 * 131072
  {
    var q, r := speed / 4096, speed % 4096;
    Wrap32(q, r * 1024 * 1024);
    Product(speed, 1024);
    assert speed * 1024 * 1024 == 0x1_0000_0000 * q + r * 1024 * 1024;
  }

  lemma Wrap32(q: nat, r: nat)
    requires r < 0x1_0000_0000
    ensures (0x1_0000_0000 * q + r) % 0x1_0000_0000 == r
  {}

  /** Reducing a factor first does not change the product modulo 2^32. */
  lemma Product(a: nat, b: nat)
    ensures a * b % 0x1_0000_0000 * b % 0x1_0000_0000 == a * b * b % 0x1_0000_0000
  {
    var x := a * b;
    var q, r := x / 0x1_0000_0000, x % 0x1_0000_0000;
    assert x * b == 0x1_0000_0000 * (q * b) + r * b;
    SameResidue(r * b, q * b);
  }

  lemma SameResidue(x: nat, k: nat)
    ensures (0x1_0000_0000 * k + x) % 0x1_0000_0000 == x % 0x1_0000_0000
  {
    var q, r := x / 0x1_0000_0000, x % 0x1_0000_0000;
    Wrap32(k + q, r);
    assert 0x1_0000_0000 * k + x == 0x1_0000_0000 * (k + q) + r;
  }

  /** The interval's arithmetic divides by zero exactly when a second at the
      configured speed modulo 4096 holds less than one packet, or the packet is
      empty: 32 bits hold the speed in bits only up to 4095 megabits. */
  lemma NoIntervalExactly(speed: nat, size: nat)
    ensures DividesByZero(speed, size) <==> size == 0 || speed % 4096 * 131072 < size
  {
    SpeedWraps(speed);
    if size > 0 { DivZero(speed % 4096 * 131072, size); }
  }

  /** So a speed that is a multiple of 4096 has no interval for any packet. */
  lemma WholeMultiplesHaveNone(speed: nat, size: nat)
    requires speed % 4096 == 0
    ensures DividesByZero(speed, size)
  {
    NoIntervalExactly(speed, size);
  }

  lemma DivZero(a: nat, b: nat)
    requires b > 0
    ensures a / b == 0 <==> a < b
  {}

  /** Addition of unsigned longs. */
  function Add64(a: nat, b: nat): nat { (a + b) % 0x1_0000_0000_0000_0000 }

  lemma NoWrap(interval: nat, now: nat)
    requires interval <= BILLION && ClockFits(now)
    ensures Add64(interval, now) == now + interval
  {}

  lemma OneTurn(log: seq<Tick>, prev: nat, interval: nat, ticks: seq<Tick>)
    requires ticks != []
    ensures prev + interval >= ticks[0].now ==>
              log + Sends(prev, interval, ticks) == log + Sends(prev, interval, ticks[1..])
    ensures prev + interval < ticks[0].now ==>
              log + Sends(prev, interval, ticks) ==
              (log + [ticks[0]]) + if ticks[0].stop then [] else Sends(ticks[0].now, interval, ticks[1..])
  {}

  lemma OneMore(log: seq<Tick>, tick: Tick)
    ensures Successes(log + [tick]) == Successes(log) + if tick.ok then 1 else 0
  {
    assert (log + [tick])[..|log|] == log;
  }

  /** Lines 445-472, over any prefix of the loop's turns. */
  method PacedLoop(speed: nat, size: nat, start: nat, ticks: seq<Tick>)
    returns (log: seq<Tick>, sendCount: nat)
    requires speed < 100 && size > 0 && Pps(speed, size) > 0
    requires ClockFits(start) && ClocksFit(ticks)
    ensures log == Sends(start, SendTime(speed, size), ticks)
    ensures sendCount == |Succeeded(log)|
    ensures forall k :: 0 <= k < |log| ==> log[k] in ticks && (k < |log| - 1 ==> !log[k].stop)
  {
    var sendTime := BILLION / (speed * 1024 % U32 * 1024 % U32 / 8 / size);
    IntervalFits(speed, size);
    NoWrap(sendTime, start);
    var speedTime := Add64(sendTime, start);
    log, sendCount := [], 0;
    var i := 0;
    ghost var prev: nat := start;
    ghost var all := Sends(start, sendTime, ticks);
    while i < |ticks|
      invariant 0 <= i <= |ticks|
      invariant speedTime == prev + sendTime
      invariant all == log + Sends(prev, sendTime, ticks[i..])
      invariant sendCount == Successes(log)
    {
      var tick := ticks[i];
      OneTurn(log, prev, sendTime, ticks[i..]);
      assert ticks[i..][1..] == ticks[i + 1..];
      i := i + 1;
      if speedTime >= tick.now { continue; }
      NoWrap(sendTime, tick.now);
      speedTime := Add64(sendTime, tick.now);
      if tick.ok {
        sendCount := sendCount + 1;
      }
      OneMore(log, tick);
      log := log + [tick];
      prev := tick.now;
      if tick.stop { break; }
    }
    SuccessesCount(log);
    forall k | 0 <= k < |log| ensures log[k] in ticks && (k < |log| - 1 ==> !log[k].stop) {
      SendsAreTurns(start, sendTime, ticks, k);
    }
  }

  lemma IntervalFits(speed: nat, size: nat)
    requires size > 0 && Pps(speed, size) > 0
    ensures SendTime(speed, size) <= BILLION
  {
    FloorBelow(BILLION, Pps(speed, size));
    MulMonotone(1, Pps(speed, size), SendTime(speed, size));
  }
}
