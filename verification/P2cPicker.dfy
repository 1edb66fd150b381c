/** The balancer's own operations, each run without interruption: choosing between two
    connections, picking, completing a request and flushing the statistics. */
module P2cPicker {
  import opened P2cArithmetic

  class SubConn {
    var lag: nat
    var inflight: int
    var success: nat
    var requests: int
    var last: int
    var pick: int

    function Value(): Conn
      reads this
    {
      Conn(lag, inflight, success, requests, last, pick)
    }

    constructor Ready()
      ensures Value() == READY
    {
      lag, inflight, success, requests, last, pick := 0, 0, INIT_SUCCESS, 0, 0, 0;
    }

    predicate Healthy()
      reads this
    {
      success > THROTTLE_SUCCESS
    }

    function Load(): int
      reads this
    {
      LoadOf(lag, inflight)
    }
  }

  /** Two draws, the second shifted past the first, name two different connections. */
  function Pair(draw: (nat, nat)): (nat, nat) {
    (draw.0, if draw.1 >= draw.0 then draw.1 + 1 else draw.1)
  }

  predicate IsDraw(draw: (nat, nat), n: nat) {
    draw.0 < n && draw.1 < n - 1
  }

  /** Every ordered pair of different connections comes from exactly one draw. */
  lemma {:induction false} PairsAreUniform(n: nat, a: nat, b: nat)
    requires n >= 2 && a < n && b < n
    ensures a != b <==> exists draw :: IsDraw(draw, n) && Pair(draw) == (a, b)
    ensures forall d, e :: IsDraw(d, n) && IsDraw(e, n) && Pair(d) == Pair(e) ==> d == e
  {
    if a != b {
      var draw := (a, if b > a then b - 1 else b);
      assert IsDraw(draw, n) && Pair(draw) == (a, b);
    }
  }

  /** The first number of a draw names a connection among all, the second one among the others. */
  lemma {:induction false} SecondAmongOthers<T>(s: seq<T>, draw: (nat, nat))
    requires IsDraw(draw, |s|)
    ensures var (a, b) := Pair(draw);
            a == draw.0 && b < |s| && b != a && (s[..a] + s[a + 1..])[draw.1] == s[b]
  {
  }

  ghost predicate BothAbove(successes: seq<nat>, draw: (nat, nat), bound: nat) {
    IsDraw(draw, |successes|) && successes[Pair(draw).0] > bound && successes[Pair(draw).1] > bound
  }

  /** In numbers: draw k names two connections whose success is above 500, or is the third, and no
      draw before it does. */
  ghost predicate FirstAboveHalf(successes: seq<nat>, draws: seq<(nat, nat)>, k: nat)
    requires k < |draws|
  {
    && k <= 2
    && (k < 2 ==> BothAbove(successes, draws[k], 500))
    && forall j :: 0 <= j < k ==> !BothAbove(successes, draws[j], 500)
  }

  class Picker {
    const conns: seq<SubConn>
    var stamp: int

    constructor (conns: seq<SubConn>)
      ensures this.conns == conns && stamp == 0
    {
      this.conns := conns;
      stamp := 0;
    }

    ghost predicate Distinct() {
      forall i, j :: 0 <= i < j < |conns| ==> conns[i] != conns[j]
    }

    ghost function Both(first: SubConn, second: SubConn?): set<SubConn> {
      if second == null then {first} else {first, second}
    }

    method Choose(first: SubConn, second: SubConn?, start: int) returns (chosen: SubConn)
      requires first != second
      modifies Both(first, second)`pick
      ensures chosen.pick == start
      ensures second == null ==> chosen == first
      ensures second != null ==>
                && chosen == (if TakesSecond(old(first.Value()), old(second.Value()), start) then second else first)
                && (first == chosen || first.pick == old(first.pick))
                && (second == chosen || second.pick == old(second.pick))
    {
      if second == null {
        first.pick := start;
        return first;
      }
      var c1, c2 := first, second;
      if c1.Load() > c2.Load() {
        c1, c2 := c2, c1;
      }
      var pick := c2.pick;
      if start - pick > FORCE_PICK {
        c2.pick := start;
        return c2;
      }
      c1.pick := start;
      return c1;
    }

    ghost predicate Drawn(draws: seq<(nat, nat)>) {
      forall k :: 0 <= k < |draws| ==> IsDraw(draws[k], |conns|)
    }

    predicate BothHealthy(draw: (nat, nat))
      requires IsDraw(draw, |conns|)
      reads set c | c in conns
    {
      conns[Pair(draw).0].Healthy() && conns[Pair(draw).1].Healthy()
    }

    ghost function Successes(): (s: seq<nat>)
      reads set c | c in conns
      ensures |s| == |conns|
    {
      seq(|conns|, i requires 0 <= i < |conns| reads set c | c in conns => conns[i].success)
    }

    lemma SettlesAboveHalf(draws: seq<(nat, nat)>, k: nat)
      requires |draws| == PICK_TIMES && Drawn(draws) && k < |draws| && Settles(draws, k)
      ensures FirstAboveHalf(Successes(), draws, k)
    {
      forall j | 0 <= j < |draws|
        ensures BothHealthy(draws[j]) <==> BothAbove(Successes(), draws[j], 500)
      {
      }
    }

    /** The draw a pick settles on: the first healthy pair, the last one when none is. */
    ghost predicate Settles(draws: seq<(nat, nat)>, k: nat)
      requires Drawn(draws) && k < |draws|
      reads set c | c in conns
    {
      (k == |draws| - 1 || BothHealthy(draws[k])) && forall j :: 0 <= j < k ==> !BothHealthy(draws[j])
    }

    /** What choosing between the pair of a draw comes to. */
    function ChosenOf(draw: (nat, nat), start: int): SubConn
      requires IsDraw(draw, |conns|)
      reads set c | c in conns
    {
      var (a, b) := Pair(draw);
      if TakesSecond(conns[a].Value(), conns[b].Value(), start) then conns[b] else conns[a]
    }

    /** Up to three draws, stopping at the first pair that is healthy. */
    method Sample(draws: seq<(nat, nat)>) returns (a: nat, b: nat)
      requires |conns| >= 2 && |draws| == PICK_TIMES
      requires Drawn(draws)
      ensures a < |conns| && b < |conns| && a != b
      ensures exists k :: 0 <= k < PICK_TIMES && (a, b) == Pair(draws[k]) && Settles(draws, k)
      ensures exists k :: 0 <= k < |draws| && (a, b) == Pair(draws[k]) && FirstAboveHalf(Successes(), draws, k)
    {
      var i := 0;
      a, b := 0, 1;
      while i < PICK_TIMES
        invariant i <= PICK_TIMES
        invariant i > 0 ==> (a, b) == Pair(draws[i - 1])
        invariant a < |conns| && b < |conns| && a != b
        invariant forall j :: 0 <= j < i ==>
                    !BothHealthy(draws[j])
      {
        a, b := Pair(draws[i]).0, Pair(draws[i]).1;
        if conns[a].Healthy() && conns[b].Healthy() {
          SettlesAboveHalf(draws, i);
          return;
        }
        i := i + 1;
      }
      SettlesAboveHalf(draws, PICK_TIMES - 1);
      assert (a, b) == Pair(draws[PICK_TIMES - 1]);
    }

    /** A pick among three or more. */
    method PickAmong(draws: seq<(nat, nat)>, start: int) returns (chosen: SubConn)
      requires Distinct() && |conns| > 2 && |draws| == PICK_TIMES && Drawn(draws)
      modifies (set c | c in conns)`pick
      ensures chosen in conns && chosen.pick == start
      ensures forall c :: c in conns && c != chosen ==> c.pick == old(c.pick)
      ensures exists k :: 0 <= k < PICK_TIMES && old(Settles(draws, k)) && chosen == old(ChosenOf(draws[k], start))
      ensures exists k :: 0 <= k < |draws| && old(FirstAboveHalf(Successes(), draws, k))
                && (chosen == conns[Pair(draws[k]).0] || chosen == conns[Pair(draws[k]).1])
    {
      var a, b := Sample(draws);
      ghost var k :| 0 <= k < PICK_TIMES && (a, b) == Pair(draws[k]) && Settles(draws, k);
      SettlesAboveHalf(draws, k);
      assert conns[a] in conns && conns[b] in conns;
      assert conns[a] != conns[b] by {
        assert a < b || b < a;
      }
      chosen := Choose(conns[a], conns[b], start);
      assert chosen == old(ChosenOf(draws[k], start)) && old(Settles(draws, k));
      assert old(FirstAboveHalf(Successes(), draws, k));
    }

    /** The connection a pick hands out, or null when there is none. */
    method Pick(draws: seq<(nat, nat)>, start: int) returns (chosen: SubConn?)
      requires Distinct()
      requires |conns| > 2 ==> |draws| == PICK_TIMES && Drawn(draws)
      modifies set c | c in conns
      ensures chosen == null <==> conns == []
      ensures chosen != null ==>
                && chosen in conns
                && chosen.Value() == old(chosen.Value()).(
                     pick := start,
                     inflight := old(chosen.inflight) + 1,
                     requests := old(chosen.requests) + 1)
      ensures forall c :: c in conns && c != chosen ==> unchanged(c)
      ensures |conns| == 2 ==>
                chosen == (if TakesSecond(old(conns[0].Value()), old(conns[1].Value()), start) then conns[1]
                           else conns[0])
      ensures |conns| > 2 ==>
                exists k :: 0 <= k < PICK_TIMES && old(Settles(draws, k)) && chosen == old(ChosenOf(draws[k], start))
      ensures |conns| > 2 ==>
                exists k :: 0 <= k < |draws| && old(FirstAboveHalf(Successes(), draws, k))
                  && (chosen == conns[Pair(draws[k]).0] || chosen == conns[Pair(draws[k]).1])
    {
      if |conns| == 0 {
        return null;
      } else if |conns| == 1 {
        chosen := Choose(conns[0], null, start);
      } else if |conns| == 2 {
        chosen := Choose(conns[0], conns[1], start);
      } else {
        chosen := PickAmong(draws, start);
      }
      chosen.inflight := chosen.inflight + 1;
      chosen.requests := chosen.requests + 1;
    }

    /** Zeroes every request counter and returns what each held. */
    method LogStats() returns (flushed: seq<int>)
      requires Distinct()
      modifies (set c | c in conns)`requests
      ensures |flushed| == |conns|
      ensures forall i :: 0 <= i < |conns| ==> flushed[i] == old(conns[i].requests) && conns[i].requests == 0
    {
      flushed := [];
      for i := 0 to |conns|
        invariant |flushed| == i
        invariant forall j :: 0 <= j < i ==> flushed[j] == old(conns[j].requests) && conns[j].requests == 0
        invariant forall j :: i <= j < |conns| ==> conns[j].requests == old(conns[j].requests)
      {
        assert conns[i] in conns;
        flushed := flushed + [conns[i].requests];
        conns[i].requests := 0;
      }
    }

    /** The completion of a request on c that started at start. */
    method Done(c: SubConn, start: int, now: int, w: real, acceptable: bool)
      requires Distinct() && c in conns && Weight(w)
      modifies this`stamp, c, (set d | d in conns)`requests
      ensures var flushes := now - old(stamp) >= LOG_INTERVAL;
              var value := Completed(old(c.Value()), start, now, w, acceptable);
              && c.Value() == (if flushes then value.(requests := 0) else value)
              && stamp == (if flushes then now else old(stamp))
              && forall d :: d in conns ==> d.requests == if flushes then 0 else old(d.requests)
    {
      c.inflight := c.inflight - 1;
      c.last := now;
      var olag := c.lag;
      var weight := WeightFor(olag, w);
      c.lag := Blend(olag, Clamp(now - start), weight);
      var success := if acceptable then INIT_SUCCESS else 0;
      c.success := Blend(c.success, success, weight);
      if now - stamp >= LOG_INTERVAL {
        stamp := now;
        var _ := LogStats();
        assert forall d :: d in conns ==> exists i :: 0 <= i < |conns| && conns[i] == d;
      }
    }
  }
}
