/** The arithmetic of the power-of-two-choices balancer: the decayed average over
    reals rounded down, the load of a connection, and the time constants in nanoseconds. */
module P2cArithmetic {

  const FORCE_PICK: int := 1_000_000_000
  const LOG_INTERVAL: int := 60_000_000_000
  const INIT_SUCCESS: nat := 1000
  const THROTTLE_SUCCESS: nat := INIT_SUCCESS / 2
  const PENALTY: int := 0x7fff_ffff
  const PICK_TIMES: nat := 3
  const INT64_LIMIT: int := 0x8000_0000_0000_0000

  /** The clock is a duration since a moment more than a year before the process
      started, held in 64 bits. */
  predicate ClockValue(t: int) {
    FORCE_PICK < t < INT64_LIMIT
  }

  predicate Weight(w: real) {
    0.0 <= w <= 1.0
  }

  /** The weight a completion uses: the exponential, except that a zero average is
      replaced outright. */
  function WeightFor(olag: nat, w: real): real {
    if olag == 0 then 0.0 else w
  }

  function Clamp(t: int): nat {
    if t < 0 then 0 else t
  }

  lemma Times(a: real, b: real)
    requires 0.0 <= a && 0.0 <= b
    ensures 0.0 <= a * b
  {
  }

  lemma Convex(x: real, y: real, w: real, lo: real, hi: real)
    requires Weight(w) && lo <= x <= hi && lo <= y <= hi
    ensures lo <= x * w + y * (1.0 - w) <= hi
  {
    Times(x - lo, w);
    Times(hi - x, w);
    Times(y - lo, 1.0 - w);
    Times(hi - y, 1.0 - w);
  }

  lemma FloorBetween(x: nat, y: nat, w: real, lo: nat, hi: nat)
    requires Weight(w) && lo <= x <= hi && lo <= y <= hi
    ensures lo <= (x as real * w + y as real * (1.0 - w)).Floor <= hi
  {
    Convex(x as real, y as real, w, lo as real, hi as real);
  }

  /** The decayed average, truncated to an integer. */
  function Blend(average: nat, sample: nat, w: real): nat
    requires Weight(w)
  {
    FloorBetween(average, sample, w, 0, average + sample);
    (average as real * w + sample as real * (1.0 - w)).Floor
  }

  /** An average never leaves the range of the value it replaces and the sample. */
  lemma {:induction false} BlendBetween(average: nat, sample: nat, w: real, lo: nat, hi: nat)
    requires Weight(w) && lo <= average <= hi && lo <= sample <= hi
    ensures lo <= Blend(average, sample, w) <= hi
  {
    FloorBetween(average, sample, w, lo, hi);
  }

  /** The counters of one connection. */
  datatype Conn = Conn(lag: nat, inflight: int, success: nat, requests: int, last: int, pick: int)

  const READY := Conn(0, 0, INIT_SUCCESS, 0, 0, 0)

  /** Which of two connections a pick takes: the lighter one, the first on a tie, unless the
      heavier one has waited longer than the force interval. */
  predicate TakesSecond(first: Conn, second: Conn, start: int) {
    var secondIsHeavy := LoadOf(first.lag, first.inflight) <= LoadOf(second.lag, second.inflight);
    var forced := start - (if secondIsHeavy then second.pick else first.pick) > FORCE_PICK;
    secondIsHeavy == forced
  }

  /** A connection after the completion of a request that began at start, nothing else
      happening meanwhile. */
  function Completed(conn: Conn, start: int, now: int, w: real, acceptable: bool): Conn
    requires Weight(w)
  {
    var weight := WeightFor(conn.lag, w);
    conn.(
      inflight := conn.inflight - 1,
      last := now,
      lag := Blend(conn.lag, Clamp(now - start), weight),
      success := Blend(conn.success, if acceptable then INIT_SUCCESS else 0, weight))
  }

  /** The first latency ever stored, and any latency stored over a zero, is kept as it is. */
  lemma {:induction false} FirstSampleKept(conn: Conn, start: int, now: int, w: real, acceptable: bool)
    requires Weight(w) && conn.lag == 0
    ensures Completed(conn, start, now, w, acceptable).lag == if now < start then 0 else now - start
    ensures Completed(conn, start, now, w, acceptable).success == if acceptable then 1000 else 0
  {
  }

  // ----- How the estimates decay

  function Distance(a: nat, b: nat): nat { if a < b then b - a else a - b }

  function Power(w: real, k: nat): real { if k == 0 then 1.0 else w * Power(w, k - 1) }

  lemma Grows(a: real, b: real, w: real)
    requires a <= b && 0.0 <= w
    ensures w * a <= w * b
  {
    Times(b - a, w);
  }

  /** The new value lies where the weight puts it between the old one and the sample, but for the
      rounding: never further than that from the sample plus one, nor from the old value. */
  predicate Weighs(old_: nat, new_: nat, sample: nat, w: real) {
    && Distance(new_, sample) as real <= w * Distance(sample, old_) as real + 1.0
    && Distance(new_, old_) as real <= (1.0 - w) * Distance(sample, old_) as real + 1.0
  }

  lemma BlendWeighs(average: nat, sample: nat, w: real)
    requires Weight(w)
    ensures Weighs(average, Blend(average, sample, w), sample, w)
  {
    var x, s := average as real, sample as real;
    var mean := x * w + s * (1.0 - w);
    assert mean == s + w * (x - s) == x + (1.0 - w) * (s - x);
    assert mean - 1.0 < mean.Floor as real <= mean;
    assert Distance(sample, average) as real == if x < s then s - x else x - s;
    Times(w, Distance(sample, average) as real);
    Times(1.0 - w, Distance(sample, average) as real);
    BlendBetween(average, sample, w, if average < sample then average else sample,
                 if average < sample then sample else average);
  }

  /** A completion over a latency estimate that is not zero moves both estimates by the caller's
      weight: the latency towards the time since the start, the success towards 1000 or 0. */
  lemma {:induction false} CompletionWeighs(conn: Conn, start: int, now: int, w: real, acceptable: bool)
    requires Weight(w) && conn.lag != 0
    ensures var after := Completed(conn, start, now, w, acceptable);
            && Weighs(conn.lag, after.lag, if now < start then 0 else now - start, w)
            && Weighs(conn.success, after.success, if acceptable then 1000 else 0, w)
            && after.inflight == conn.inflight - 1 && after.last == now
            && after.requests == conn.requests && after.pick == conn.pick
  {
    BlendWeighs(conn.lag, Clamp(now - start), w);
    BlendWeighs(conn.success, if acceptable then INIT_SUCCESS else 0, w);
  }

  lemma BlendWithZero(average: nat, w: real)
    requires 0.0 < w < 1.0 && average > 0
    ensures Blend(average, 0, w) < average
  {
    Shrinks(average as real, w);
    assert average as real * w + 0 as real * (1.0 - w) == average as real * w;
  }

  lemma BlendBelow(average: nat, sample: nat, w: real)
    requires 0.0 < w < 1.0 && average < sample
    ensures Blend(average, sample, w) < sample
  {
    var x, s := average as real, sample as real;
    Shrinks(s - x, w);
    assert x * w + s * (1.0 - w) == s - w * (s - x);
  }

  /** Truncation shows: every failure lowers the success estimate until it is 0, and no success
      brings an estimate below 1000 back to it. */
  lemma {:induction false} TruncationShows(conn: Conn, start: int, now: int, w: real)
    requires 0.0 < w < 1.0 && conn.lag != 0
    ensures conn.success > 0 ==> Completed(conn, start, now, w, false).success < conn.success
    ensures conn.success < 1000 ==> Completed(conn, start, now, w, true).success < 1000
  {
    if conn.success > 0 {
      BlendWithZero(conn.success, w);
    }
    if conn.success < 1000 {
      BlendBelow(conn.success, 1000, w);
    }
  }

  lemma Shrinks(x: real, w: real)
    requires 0.0 < x && 0.0 < w < 1.0
    ensures 0.0 < x * w < x && 0.0 < w * x < x
  {
  }

  /** One completion after another, each given by when its request began and ended. */
  function CompletedAll(conn: Conn, requests: seq<(int, int)>, w: real, acceptable: bool): Conn
    requires Weight(w)
  {
    if requests == [] then conn
    else
      var (start, now) := requests[|requests| - 1];
      Completed(CompletedAll(conn, requests[..|requests| - 1], w, acceptable), start, now, w, acceptable)
  }

  ghost predicate AllTake(requests: seq<(int, int)>, latency: nat) {
    forall i :: 0 <= i < |requests| ==>
      latency == (if requests[i].1 < requests[i].0 then 0 else requests[i].1 - requests[i].0)
  }

  /** The distance left of a first distance after k steps of weight w: its share by the k-th power
      of w, and what k roundings can add, which is below 1 / (1 - w). */
  predicate Decayed(first: nat, left: nat, w: real, k: nat) {
    (1.0 - w) * left as real <= (1.0 - w) * (Power(w, k) * first as real) + (1.0 - Power(w, k))
  }

  lemma WeightTimes(v: real, w: real)
    requires Weight(v) && Weight(w)
    ensures Weight(v * w)
  {
    Times(v, w);
    Times(1.0 - v, w);
    Remainder(v, w);
  }

  lemma Remainder(v: real, w: real)
    ensures (1.0 - v) * w == w - v * w
  {
  }

  lemma {:induction false} PowerIsWeight(w: real, k: nat)
    requires Weight(w)
    ensures Weight(Power(w, k))
  {
    if k > 0 {
      PowerIsWeight(w, k - 1);
      WeightTimes(w, Power(w, k - 1));
    } else {
      assert Power(w, k) == 1.0;
    }
  }

  lemma Regroup(a: real, b: real, c: real)
    ensures a * (b * c) == b * (a * c) == (a * b) * c
  {
    assert a * (b * c) == (a * b) * c == (b * a) * c == b * (a * c);
  }

  /** The same bound one step on, over any numbers. */
  lemma OneStepOn(p: real, w: real, q: real, d: real, left: real, next: real)
    requires 0.0 <= p && 0.0 <= w && p == 1.0 - w
    requires p * left <= p * (q * d) + (1.0 - q) && next <= w * left + 1.0
    ensures p * next <= p * ((w * q) * d) + (1.0 - w * q)
  {
    calc {
      p * next;
    <= { Grows(next, w * left + 1.0, p); }
      p * (w * left + 1.0);
    ==
      p * (w * left) + p;
    == { Regroup(p, w, left); }
      w * (p * left) + p;
    <= { Grows(p * left, p * (q * d) + (1.0 - q), w); }
      w * (p * (q * d) + (1.0 - q)) + p;
    ==
      w * (p * (q * d)) + (w - w * q) + p;
    == { Regroup(w, p, q * d); Regroup(w, q, d); }
      p * ((w * q) * d) + (1.0 - w * q);
    }
  }

  /** One more step. */
  lemma DecaysOnce(first: nat, left: nat, next: nat, w: real, k: nat)
    requires Weight(w) && Decayed(first, left, w, k) && next as real <= w * left as real + 1.0
    ensures Decayed(first, next, w, k + 1)
  {
    var q, more := Power(w, k), Power(w, k + 1);
    assert more == w * q;
    OneStepOn(1.0 - w, w, q, first as real, left as real, next as real);
  }

  /** A sample that is there at once. */
  lemma NothingLeft(first: nat, w: real, k: nat)
    requires Weight(w)
    ensures Decayed(first, 0, w, k)
  {
    PowerIsWeight(w, k);
    Times(Power(w, k), first as real);
    Times(1.0 - w, Power(w, k) * first as real);
  }

  /** One more completion, for one of the two estimates. */
  lemma OneMoreDecays(first: nat, before: nat, after: nat, sample: nat, w: real, k: nat)
    requires Weight(w) && Decayed(Distance(first, sample), Distance(before, sample), w, k)
    requires after == sample || Weighs(before, after, sample, w)
    ensures Decayed(Distance(first, sample), Distance(after, sample), w, k + 1)
  {
    if after == sample {
      NothingLeft(Distance(first, sample), w, k + 1);
    } else {
      assert Distance(sample, before) == Distance(before, sample);
      DecaysOnce(Distance(first, sample), Distance(before, sample), Distance(after, sample), w, k);
    }
  }

  /** After k completions of one latency, one outcome and one weight, what is left of either
      estimate's distance from its sample has decayed with the k-th power of the weight. */
  lemma {:induction false} EstimatesDecay(
      conn: Conn, requests: seq<(int, int)>, latency: nat, w: real, acceptable: bool)
    requires Weight(w) && AllTake(requests, latency)
    ensures var after := CompletedAll(conn, requests, w, acceptable);
            && Decayed(Distance(conn.lag, latency), Distance(after.lag, latency), w, |requests|)
            && Decayed(Distance(conn.success, if acceptable then 1000 else 0),
                       Distance(after.success, if acceptable then 1000 else 0), w, |requests|)
  {
    if requests == [] {
      assert Power(w, 0) == 1.0;
    } else {
      var k := |requests| - 1;
      EstimatesDecay(conn, requests[..k], latency, w, acceptable);
      var before := CompletedAll(conn, requests[..k], w, acceptable);
      var (start, now) := requests[k];
      if before.lag == 0 {
        FirstSampleKept(before, start, now, w, acceptable);
      } else {
        CompletionWeighs(before, start, now, w, acceptable);
      }
      var after := CompletedAll(conn, requests, w, acceptable);
      OneMoreDecays(conn.lag, before.lag, after.lag, latency, w, k);
      OneMoreDecays(conn.success, before.success, after.success, if acceptable then 1000 else 0, w, k);
    }
  }

  // ----- Loads

  /** The integer square root: the square root of a real, rounded down. */
  function ISqrt(n: nat): (r: nat)
    ensures r * r <= n < (r + 1) * (r + 1)
  {
    if n == 0 then 0
    else
      var r := ISqrt(n - 1);
      if (r + 1) * (r + 1) <= n then r + 1 else r
  }

  /** subConn.load, from the two values it reads. */
  function LoadOf(lag: nat, inflight: int): int {
    var load := ISqrt(lag + 1) * (inflight + 1);
    if load == 0 then PENALTY else load
  }

  /** In numbers: unless one of the two went unpicked for more than a second, the pick takes a
      connection whose load is the least, the first of two equal ones; and of two equal waits past
      it, the heavier. */
  lemma {:induction false} LighterUnlessOverdue(first: Conn, second: Conn, start: int)
    requires first.inflight >= 0 && second.inflight >= 0
    ensures var a, b := ISqrt(first.lag + 1) * (first.inflight + 1), ISqrt(second.lag + 1) * (second.inflight + 1);
            && (start - first.pick <= 1_000_000_000 && start - second.pick <= 1_000_000_000 ==>
                  (TakesSecond(first, second, start) <==> b < a))
            && (start - first.pick > 1_000_000_000 && start - second.pick > 1_000_000_000 ==>
                  (TakesSecond(first, second, start) <==> a <= b))
            && (start - first.pick > 1_000_000_000 >= start - second.pick ==> !TakesSecond(first, second, start))
            && (start - second.pick > 1_000_000_000 >= start - first.pick ==> TakesSecond(first, second, start))
  {
    LoadPositive(first.lag, first.inflight);
    LoadPositive(second.lag, second.inflight);
  }

  lemma LoadPositive(lag: nat, inflight: nat)
    ensures LoadOf(lag, inflight) == ISqrt(lag + 1) * (inflight + 1) >= 1
  {
    var r := ISqrt(lag + 1);
    assert r >= 1;
    Product(r, inflight + 1, r, inflight + 1);
  }

  /** With fewer than 2^31 requests outstanding the product is a positive 64-bit
      number, so the penalty branch is never taken. */
  lemma {:induction false} LoadFits(lag: nat, inflight: nat)
    requires lag < INT64_LIMIT && inflight <= 0x7fff_ffff
    ensures 1 <= ISqrt(lag + 1) * (inflight + 1) < INT64_LIMIT
    ensures LoadOf(lag, inflight) == ISqrt(lag + 1) * (inflight + 1)
  {
    var r := ISqrt(lag + 1);
    assert r >= 1;
    assert r < 3_037_000_500 by {
      if r >= 3_037_000_500 { Square(3_037_000_500, r); }
    }
    Product(r, inflight + 1, 3_037_000_500, 0x8000_0000);
  }

  lemma Square(a: nat, b: nat)
    requires a <= b
    ensures a * a <= b * b
  {
    assert a * a <= a * b <= b * b;
  }

  lemma Product(a: nat, b: nat, x: nat, y: nat)
    requires 1 <= a <= x && 1 <= b <= y
    ensures 1 <= a * b <= x * y
  {
    assert a * b <= x * b <= x * y;
    assert a * b >= a;
  }
}
