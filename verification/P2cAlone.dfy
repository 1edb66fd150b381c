/** The steps of the concurrent machine, run with nothing between them, do what the
    uninterrupted operation does. */
module P2cAlone {
  import opened P2cArithmetic
  import opened P2cMachine
  import P2cSafety

  function StepsLeft(p: Progress, n: nat): nat
    requires p.Logging? ==> p.next <= n
  {
    match p
    case Pending => n + 12
    case ReadClock => n + 11
    case SwapLast(_) => n + 10
    case LoadLag(_, _) => n + 9
    case StoreLag(_, _, _) => n + 8
    case LoadSuccess(_, _) => n + 7
    case StoreSuccess(_, _, _) => n + 6
    case LoadStamp(_) => n + 5
    case SwapStamp(_, _) => n + 4
    case WantLock => n + 3
    case Logging(next) => 1 + n - next
    case Ended => 0
  }

  ghost predicate Runnable(s: Machine, i: nat, w: real) {
    P2cSafety.Shape(s) && i < |s.calls| && Weight(w) && (s.lock == Free || s.lock == HeldByLog(i))
  }

  lemma StaysRunnable(s: Machine, i: nat, now: int, w: real, acceptable: bool)
    requires Runnable(s, i, w) && ClockValue(now) && !s.calls[i].progress.Ended?
    ensures Runnable(CompleteStep(s, i, now, w, acceptable), i, w)
  {
    P2cSafety.CompleteKeepsShape(s, i, now, w, acceptable);
  }

  /** Completes call i, no other step in between. */
  ghost function RunAlone(s: Machine, i: nat, now: int, w: real, acceptable: bool): Machine
    requires Runnable(s, i, w) && ClockValue(now)
    decreases StepsLeft(if i < |s.calls| then s.calls[i].progress else Ended, |s.conns|)
  {
    if s.calls[i].progress.Ended? then s
    else
      StaysRunnable(s, i, now, w, acceptable);
      RunAlone(CompleteStep(s, i, now, w, acceptable), i, now, w, acceptable)
  }

  /** Whoever holds the lock for the log zeroes every remaining request counter. */
  lemma {:induction false} LogAlone(s: Machine, i: nat, now: int, w: real, acceptable: bool)
    requires Runnable(s, i, w) && ClockValue(now) && s.calls[i].progress.Logging?
    ensures var t := RunAlone(s, i, now, w, acceptable);
            && t.lock == Free && |t.conns| == |s.conns| && t.stamp == s.stamp
            && forall c :: 0 <= c < |s.conns| ==>
                 t.conns[c] == if s.calls[i].progress.next <= c then s.conns[c].(requests := 0) else s.conns[c]
    decreases |s.conns| - s.calls[i].progress.next
  {
    var t := CompleteStep(s, i, now, w, acceptable);
    StaysRunnable(s, i, now, w, acceptable);
    if s.calls[i].progress.next < |s.conns| {
      LogAlone(t, i, now, w, acceptable);
    }
  }

  /** One step of the completion on its own connection. */
  lemma OneStep(s: Machine, i: nat, now: int, w: real, acceptable: bool) returns (t: Machine)
    requires Runnable(s, i, w) && ClockValue(now)
    requires !s.calls[i].progress.Ended? && !s.calls[i].progress.Logging?
    ensures Runnable(t, i, w) && RunAlone(t, i, now, w, acceptable) == RunAlone(s, i, now, w, acceptable)
    ensures var call := s.calls[i];
            && t.conns == s.conns[call.conn := OwnConn(s.conns[call.conn], call, acceptable)]
            && |t.calls| == |s.calls|
            && t.calls[i] ==
                 call.(progress := OwnProgress(call.progress, s.conns[call.conn], s.stamp, now, w))
            && t.stamp == (if Swaps(call.progress, s.stamp) then call.progress.now else s.stamp)
            && t.lock == (if call.progress.WantLock? then HeldByLog(i) else s.lock)
  {
    StaysRunnable(s, i, now, w, acceptable);
    t := CompleteStep(s, i, now, w, acceptable);
  }

  /** The first part of a completion: the counter, the clock and the time of last use. */
  lemma ClockAlone(s: Machine, i: nat, now: int, w: real, acceptable: bool) returns (t: Machine)
    requires Runnable(s, i, w) && ClockValue(now) && s.calls[i].progress.Pending?
    ensures Runnable(t, i, w) && RunAlone(t, i, now, w, acceptable) == RunAlone(s, i, now, w, acceptable)
    ensures var c := s.calls[i].conn;
            && t.conns == s.conns[c := s.conns[c].(inflight := s.conns[c].inflight - 1, last := now)]
            && |t.calls| == |s.calls| && t.calls[i] == s.calls[i].(progress := LoadLag(now, w))
            && t.stamp == s.stamp && t.lock == s.lock
  {
    t := OneStep(s, i, now, w, acceptable);
    t := OneStep(t, i, now, w, acceptable);
    t := OneStep(t, i, now, w, acceptable);
  }

  /** The second part: the latency estimate. */
  lemma LagAlone(s: Machine, i: nat, now: int, w: real, acceptable: bool) returns (t: Machine)
    requires Runnable(s, i, w) && ClockValue(now) && s.calls[i].progress == LoadLag(now, w)
    ensures Runnable(t, i, w) && RunAlone(t, i, now, w, acceptable) == RunAlone(s, i, now, w, acceptable)
    ensures var c := s.calls[i].conn;
            var weight := WeightFor(s.conns[c].lag, w);
            && t.conns == s.conns[c := s.conns[c].(
                 lag := Blend(s.conns[c].lag, Clamp(now - s.calls[i].start), weight))]
            && |t.calls| == |s.calls| && t.calls[i] == s.calls[i].(progress := LoadSuccess(now, weight))
            && t.stamp == s.stamp && t.lock == s.lock
  {
    t := OneStep(s, i, now, w, acceptable);
    t := OneStep(t, i, now, w, acceptable);
  }

  /** The third part: the success estimate. */
  lemma SuccessAlone(s: Machine, i: nat, now: int, w: real, acceptable: bool) returns (t: Machine)
    requires Runnable(s, i, w) && ClockValue(now) && s.calls[i].progress.LoadSuccess?
    ensures Runnable(t, i, w) && RunAlone(t, i, now, w, acceptable) == RunAlone(s, i, now, w, acceptable)
    ensures var c := s.calls[i].conn;
            var p := s.calls[i].progress;
            && t.conns == s.conns[c := s.conns[c].(
                 success := Blend(s.conns[c].success, if acceptable then INIT_SUCCESS else 0, p.w))]
            && |t.calls| == |s.calls| && t.calls[i].progress == LoadStamp(p.now)
            && t.stamp == s.stamp && t.lock == s.lock
  {
    t := OneStep(s, i, now, w, acceptable);
    t := OneStep(t, i, now, w, acceptable);
  }

  /** The stamp is swapped, the lock taken and the counters flushed. */
  lemma FlushAlone(s: Machine, i: nat, now: int, w: real, acceptable: bool)
    requires Runnable(s, i, w) && ClockValue(now) && s.lock == Free
    requires s.calls[i].progress == SwapStamp(now, s.stamp)
    ensures var t := RunAlone(s, i, now, w, acceptable);
            && t.lock == Free && |t.conns| == |s.conns| && t.stamp == now
            && forall d :: 0 <= d < |s.conns| ==> t.conns[d] == s.conns[d].(requests := 0)
  {
    var t := OneStep(s, i, now, w, acceptable);
    t := OneStep(t, i, now, w, acceptable);
    assert t.conns == s.conns;
    LogAlone(t, i, now, w, acceptable);
  }

  /** The last part: the stamp, and the log when it is due. */
  lemma StampAlone(s: Machine, i: nat, now: int, w: real, acceptable: bool)
    requires Runnable(s, i, w) && ClockValue(now) && s.lock == Free
    requires s.calls[i].progress == LoadStamp(now)
    ensures var t := RunAlone(s, i, now, w, acceptable);
            var flushes := now - s.stamp >= LOG_INTERVAL;
            && t.lock == Free && |t.conns| == |s.conns|
            && t.stamp == (if flushes then now else s.stamp)
            && forall d :: 0 <= d < |s.conns| ==>
                 t.conns[d] == if flushes then s.conns[d].(requests := 0) else s.conns[d]
  {
    var t := OneStep(s, i, now, w, acceptable);
    assert t.conns == s.conns;
    if now - s.stamp >= LOG_INTERVAL {
      FlushAlone(t, i, now, w, acceptable);
    } else {
      assert t == RunAlone(t, i, now, w, acceptable);
    }
  }

  /** Run alone, the steps of a completion have the effect of the whole operation. */
  lemma {:induction false} CompletionAlone(s: Machine, i: nat, now: int, w: real, acceptable: bool)
    requires Runnable(s, i, w) && ClockValue(now) && s.lock == Free && s.calls[i].progress.Pending?
    ensures var t := RunAlone(s, i, now, w, acceptable);
            var c := s.calls[i].conn;
            var flushes := now - s.stamp >= LOG_INTERVAL;
            var conns := s.conns[c := Completed(s.conns[c], s.calls[i].start, now, w, acceptable)];
            && t.lock == Free && |t.conns| == |s.conns|
            && t.stamp == (if flushes then now else s.stamp)
            && forall d :: 0 <= d < |s.conns| ==>
                 t.conns[d] == if flushes then conns[d].(requests := 0) else conns[d]
  {
    var c := s.calls[i].conn;
    var t := ClockAlone(s, i, now, w, acceptable);
    t := LagAlone(t, i, now, w, acceptable);
    t := SuccessAlone(t, i, now, w, acceptable);
    assert t.conns == s.conns[c := Completed(s.conns[c], s.calls[i].start, now, w, acceptable)];
    StampAlone(t, i, now, w, acceptable);
  }

  function PickStepsLeft(p: Picking): nat {
    match p
    case LoadLag1(_, _, _) => 9
    case LoadInflight1(_, _, _, _) => 8
    case LoadLag2(_, _, _, _) => 7
    case LoadInflight2(_, _, _, _, _) => 6
    case LoadPick(_, _, _) => 5
    case SwapPick(_, _, _, _) => 4
    case StorePick(_, _, _) => 3
    case AddInflight(_) => 2
    case AddRequests(_) => 1
    case _ => 0
  }

  /** Finishes the pick in progress, no other step in between. */
  function PickAlone(s: Machine): Machine
    requires PickingFits(s)
    decreases PickStepsLeft(s.picking)
  {
    if s.picking.Idle? || s.picking.BuildDone? then s else PickAlone(PickStep(s))
  }

  lemma OnePickStep(s: Machine) returns (t: Machine)
    requires PickingFits(s) && !s.picking.Idle? && !s.picking.BuildDone?
    ensures t == PickStep(s) && PickingFits(t) && PickAlone(s) == PickAlone(t)
  {
    t := PickStep(s);
  }

  /** Loading the four counters orders the two connections by load. */
  lemma LoadsAlone(s: Machine) returns (t: Machine)
    requires PickingFits(s) && s.picking.LoadLag1?
    ensures PickingFits(t) && PickAlone(s) == PickAlone(t)
    ensures var v1, v2 := s.conns[s.picking.c1], s.conns[s.picking.c2];
            t == s.(picking := if LoadOf(v1.lag, v1.inflight) > LoadOf(v2.lag, v2.inflight)
                               then LoadPick(s.picking.c2, s.picking.c1, s.picking.start)
                               else LoadPick(s.picking.c1, s.picking.c2, s.picking.start))
  {
    t := OnePickStep(s);
    t := OnePickStep(t);
    t := OnePickStep(t);
    t := OnePickStep(t);
  }

  /** The pick time of the heavier decides which of the two is taken and counted. */
  lemma DecisionAlone(s: Machine)
    requires PickingFits(s) && s.picking.LoadPick?
    ensures var c1, c2, start := s.picking.c1, s.picking.c2, s.picking.start;
            var c := if start - s.conns[c2].pick > FORCE_PICK then c2 else c1;
            PickAlone(s) == s.(
              conns := s.conns[c := s.conns[c].(
                pick := start, inflight := s.conns[c].inflight + 1, requests := s.conns[c].requests + 1)],
              choices := s.choices + [Choice(c, start)],
              picking := BuildDone(c))
  {
    var t := OnePickStep(s);
    t := OnePickStep(t);
    t := OnePickStep(t);
    t := OnePickStep(t);
    assert t.picking.BuildDone? && PickAlone(t) == t;
    var c := t.picking.c;
    assert t.conns == s.conns[c := s.conns[c].(
      pick := s.picking.start, inflight := s.conns[c].inflight + 1, requests := s.conns[c].requests + 1)];
  }

  /** Run alone, the steps of a pick choose between the two connections and count the request
      as the uninterrupted operation does. */
  lemma {:induction false} ChoiceAlone(s: Machine)
    requires PickingFits(s) && s.picking.LoadLag1?
    ensures var first, second, start := s.picking.c1, s.picking.c2, s.picking.start;
            var c := if TakesSecond(s.conns[first], s.conns[second], start) then second else first;
            PickAlone(s) == s.(
              conns := s.conns[c := s.conns[c].(
                pick := start, inflight := s.conns[c].inflight + 1, requests := s.conns[c].requests + 1)],
              choices := s.choices + [Choice(c, start)],
              picking := BuildDone(c))
  {
    var t := LoadsAlone(s);
    DecisionAlone(t);
  }

  /** The pick of the only connection, run alone. */
  lemma {:induction false} OnlyAlone(s: Machine, start: int)
    requires Enabled(s, PickOne(start))
    ensures PickingFits(Next(s, PickOne(start)))
    ensures var c := s.conns[0];
            PickAlone(Next(s, PickOne(start))) == s.(
              lock := HeldByPick,
              conns := s.conns[0 := c.(pick := start, inflight := c.inflight + 1, requests := c.requests + 1)],
              choices := s.choices + [Choice(0, start)],
              picking := BuildDone(0))
  {
    var t := Next(s, PickOne(start));
    t := OnePickStep(t);
    t := OnePickStep(t);
    t := OnePickStep(t);
    assert t.picking.BuildDone? && PickAlone(t) == t;
    var c := s.conns[0];
    assert t.conns == s.conns[0 := c.(pick := start, inflight := c.inflight + 1, requests := c.requests + 1)];
  }
}
