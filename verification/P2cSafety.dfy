/** What holds of the balancer in every run, however picks and completions interleave. */
module P2cSafety {
  import opened Options
  import opened P2cArithmetic
  import opened P2cMachine

  // ----- Shape: indices, the lock and its holder

  ghost predicate Shape(s: Machine) {
    && |s.seen| == |s.flushed| == |s.conns|
    && PickingFits(s)
    && (s.picking != Idle <==> s.lock == HeldByPick)
    && forall i :: 0 <= i < |s.calls| ==>
         && s.calls[i].conn < |s.conns| && ProgressFits(s, s.calls[i].progress)
         && (s.calls[i].progress.Logging? <==> s.lock == HeldByLog(i))
  }

  lemma PickKeepsShape(s: Machine)
    requires Shape(s) && Enabled(s, Pick)
    ensures Shape(PickStep(s)) && |PickStep(s).conns| == |s.conns|
  {
    var t := PickStep(s);
    assert t.lock == s.lock && t.calls == s.calls && t.picking != Idle && PickingFits(t);
  }

  lemma CompleteKeepsShape(s: Machine, i: nat, now: int, w: real, acceptable: bool)
    requires Shape(s) && Enabled(s, Complete(i, now, w, acceptable))
    ensures var t := CompleteStep(s, i, now, w, acceptable);
            Shape(t) && |t.conns| == |s.conns|
  {
    var t := CompleteStep(s, i, now, w, acceptable);
    assert t.picking == s.picking && PickingFits(t);
    forall j | 0 <= j < |t.calls|
      ensures t.calls[j].conn < |t.conns| && ProgressFits(t, t.calls[j].progress)
      ensures t.calls[j].progress.Logging? <==> t.lock == HeldByLog(j)
    {
      if j != i {
        assert t.calls[j] == s.calls[j];
      }
    }
  }

  lemma ShapeKept(s: Machine, e: Event)
    requires Shape(s) && Enabled(s, e)
    ensures Shape(Next(s, e)) && |Next(s, e).conns| == |s.conns|
  {
    match e
    case Pick => PickKeepsShape(s);
    case Complete(i, now, w, acceptable) => CompleteKeepsShape(s, i, now, w, acceptable);
    case _ =>
  }

  lemma {:induction false} ShapeAlways(n: nat, es: seq<Event>)
    requires After(n, es).Some?
    ensures Shape(After(n, es).value) && |After(n, es).value.conns| == n
  {
    if es != [] {
      ShapeAlways(n, es[..|es| - 1]);
      ShapeKept(After(n, es[..|es| - 1]).value, es[|es| - 1]);
    }
  }

  /** Only the lock makes anyone wait, and its holder never does: a pick under way and a
      completion that does not want the lock can always take their next step. */
  lemma {:induction false} OnlyTheLockBlocks(n: nat, es: seq<Event>, i: nat, now: int, w: real, acceptable: bool)
    requires After(n, es).Some? && ClockValue(now) && Weight(w)
    ensures var s := After(n, es).value;
            && (s.lock == HeldByPick <==> Enabled(s, Pick) || Enabled(s, PickEnds(now)))
            && (i < |s.calls| ==>
                  (Enabled(s, Complete(i, now, w, acceptable))
                   <==> !s.calls[i].progress.Ended? && (s.calls[i].progress.WantLock? ==> s.lock == Free)))
            && (s.lock == HeldByLog(i) && i < |s.calls| ==> Enabled(s, Complete(i, now, w, acceptable)))
  {
    ShapeAlways(n, es);
  }

  // ----- The estimates

  /** v lies between the smallest and the largest of the latencies seen. */
  ghost predicate Within(v: nat, seen: seq<nat>) {
    exists i, j :: 0 <= i < |seen| && 0 <= j < |seen| && seen[i] <= v <= seen[j]
  }

  ghost predicate LatencyRange(seen: seq<nat>) {
    forall k :: 0 <= k < |seen| ==> seen[k] < INT64_LIMIT
  }

  ghost predicate ConnEstimates(conn: Conn, seen: seq<nat>) {
    && conn.success <= INIT_SUCCESS
    && (if seen == [] then conn.lag == 0 else Within(conn.lag, seen))
    && LatencyRange(seen)
  }

  ghost predicate CallEstimates(p: Progress, seen: seq<nat>) {
    match p
    case SwapLast(t) => ClockValue(t)
    case LoadLag(t, _) => ClockValue(t)
    case StoreLag(t, w, olag) => ClockValue(t) && if olag == 0 then w == 0.0 else Within(olag, seen)
    case StoreSuccess(_, _, osucc) => osucc <= INIT_SUCCESS
    case _ => true
  }

  ghost predicate Estimates(s: Machine) {
    && Shape(s)
    && (s.picking.LoadInflight1? || s.picking.LoadInflight2? ==> s.picking.lag < INT64_LIMIT)
    && (forall c :: 0 <= c < |s.conns| ==> ConnEstimates(s.conns[c], s.seen[c]))
    && (forall i :: 0 <= i < |s.calls| ==>
          ClockValue(s.calls[i].start) && CallEstimates(s.calls[i].progress, s.seen[s.calls[i].conn]))
  }

  lemma WithinGrows(v: nat, seen: seq<nat>, x: nat)
    requires Within(v, seen)
    ensures Within(v, seen + [x])
  {
    var i, j :| 0 <= i < |seen| && 0 <= j < |seen| && seen[i] <= v <= seen[j];
    assert (seen + [x])[i] == seen[i] && (seen + [x])[j] == seen[j];
  }

  lemma BlendWithin(olag: nat, seen: seq<nat>, x: nat, w: real)
    requires Weight(w) && if olag == 0 then w == 0.0 else Within(olag, seen)
    ensures Within(Blend(olag, x, w), seen + [x])
  {
    var all := seen + [x];
    assert all[|seen|] == x;
    if olag == 0 {
      assert Blend(olag, x, w) == x;
    } else {
      var i, j :| 0 <= i < |seen| && 0 <= j < |seen| && seen[i] <= olag <= seen[j];
      assert all[i] == seen[i] && all[j] == seen[j];
      var lo := if x < seen[i] then |seen| else i;
      var hi := if x > seen[j] then |seen| else j;
      BlendBetween(olag, x, w, all[lo], all[hi]);
    }
  }

  /** A completion's step keeps its own estimates sound, whatever it was holding. */
  lemma OwnStepSound(call: Call, conn: Conn, seen: seq<nat>, stamp: int, now: int, w: real, acceptable: bool)
    requires HasWeight(call.progress) && ConnEstimates(conn, seen) && CallEstimates(call.progress, seen)
    requires ClockValue(call.start) && ClockValue(now) && Weight(w)
    ensures var p := call.progress;
            var after := if p.StoreLag? then seen + [Clamp(p.now - call.start)] else seen;
            && ConnEstimates(OwnConn(conn, call, acceptable), after)
            && CallEstimates(OwnProgress(p, conn, stamp, now, w), after)
  {
    match call.progress
    case StoreLag(t, v, olag) => BlendWithin(olag, seen, Clamp(t - call.start), v);
    case StoreSuccess(_, v, osucc) =>
      BlendBetween(osucc, if acceptable then INIT_SUCCESS else 0, v, 0, INIT_SUCCESS);
    case _ =>
  }

  lemma OthersStaySound(p: Progress, seen: seq<nat>, x: nat)
    requires CallEstimates(p, seen)
    ensures CallEstimates(p, seen + [x])
  {
    if p.StoreLag? && p.olag != 0 {
      WithinGrows(p.olag, seen, x);
    }
  }

  lemma OwnStepKeepsEstimates(s: Machine, i: nat, now: int, w: real, acceptable: bool)
    requires Estimates(s) && Enabled(s, Complete(i, now, w, acceptable))
    requires !s.calls[i].progress.Logging?
    ensures Estimates(CompleteStep(s, i, now, w, acceptable))
  {
    var t := CompleteStep(s, i, now, w, acceptable);
    assert Shape(t) by { ShapeKept(s, Complete(i, now, w, acceptable)); }
    var call := s.calls[i];
    var c := call.conn;
    assert ConnEstimates(s.conns[c], s.seen[c]) && CallEstimates(call.progress, s.seen[c]);
    OwnStepSound(call, s.conns[c], s.seen[c], s.stamp, now, w, acceptable);
    forall d | 0 <= d < |t.conns| ensures ConnEstimates(t.conns[d], t.seen[d]) {
      if d != c {
        assert t.conns[d] == s.conns[d] && t.seen[d] == s.seen[d];
      }
    }
    forall j | 0 <= j < |t.calls| ensures CallEstimates(t.calls[j].progress, t.seen[t.calls[j].conn]) {
      if j != i {
        assert t.calls[j] == s.calls[j];
        if s.calls[j].conn == c && call.progress.StoreLag? {
          OthersStaySound(s.calls[j].progress, s.seen[c], Clamp(call.progress.now - call.start));
        } else {
          assert t.seen[s.calls[j].conn] == s.seen[s.calls[j].conn];
        }
      }
    }
  }

  lemma LogKeepsEstimates(s: Machine, i: nat, now: int, w: real, acceptable: bool)
    requires Estimates(s) && Enabled(s, Complete(i, now, w, acceptable))
    requires s.calls[i].progress.Logging?
    ensures Estimates(CompleteStep(s, i, now, w, acceptable))
  {
    ShapeKept(s, Complete(i, now, w, acceptable));
  }

  lemma EstimatesKept(s: Machine, e: Event)
    requires Estimates(s) && Enabled(s, e)
    ensures Estimates(Next(s, e))
  {
    ShapeKept(s, e);
    match e
    case Complete(i, now, w, acceptable) =>
      if s.calls[i].progress.Logging? {
        LogKeepsEstimates(s, i, now, w, acceptable);
      } else {
        OwnStepKeepsEstimates(s, i, now, w, acceptable);
      }
    case Pick =>
      forall c | 0 <= c < |s.conns| ensures s.conns[c].lag < INT64_LIMIT {
        assert ConnEstimates(s.conns[c], s.seen[c]);
      }
    case _ =>
  }

  /** In every interleaving the success estimate stays between 0 and 1000, and the latency
      estimate is 0 until a latency is stored and then lies between the extremes stored. */
  lemma {:induction false} EstimatesAlways(n: nat, es: seq<Event>)
    requires After(n, es).Some?
    ensures Estimates(After(n, es).value)
  {
    if es != [] {
      EstimatesAlways(n, es[..|es| - 1]);
      EstimatesKept(After(n, es[..|es| - 1]).value, es[|es| - 1]);
    }
  }

  // ----- Conservation: outstanding requests and logged counts

  /** How many calls on c have not yet taken their first step. */
  function Outstanding(calls: seq<Call>, c: nat): nat {
    if calls == [] then 0
    else
      var k := calls[|calls| - 1];
      Outstanding(calls[..|calls| - 1], c) + (if k.conn == c && k.progress.Pending? then 1 else 0)
  }

  /** How many picks returned c. */
  function Made(calls: seq<Call>, c: nat): nat {
    if calls == [] then 0
    else
      Made(calls[..|calls| - 1], c) + (if calls[|calls| - 1].conn == c then 1 else 0)
  }

  lemma {:induction false} CountsAfterProgress(calls: seq<Call>, i: nat, p: Progress, c: nat)
    requires i < |calls| && !p.Pending?
    ensures var updated := calls[i := calls[i].(progress := p)];
            && Made(updated, c) == Made(calls, c)
            && Outstanding(updated, c) ==
                 Outstanding(calls, c) - (if calls[i].conn == c && calls[i].progress.Pending? then 1 else 0)
  {
    var updated := calls[i := calls[i].(progress := p)];
    var m := |calls| - 1;
    if i == m {
      assert updated[..m] == calls[..m];
    } else {
      assert updated[..m] == calls[..m][i := calls[..m][i].(progress := p)];
      CountsAfterProgress(calls[..m], i, p, c);
    }
  }

  function InPick(s: Machine, c: nat): (counted: (nat, nat)) {
    ((if (s.picking.AddRequests? || s.picking.BuildDone?) && s.picking.c == c then 1 else 0),
     (if s.picking.BuildDone? && s.picking.c == c then 1 else 0))
  }

  /** The two balances of one connection. */
  ghost predicate Balanced(s: Machine, c: nat)
    requires c < |s.conns| == |s.flushed|
  {
    && s.conns[c].inflight == Outstanding(s.calls, c) + InPick(s, c).0
    && s.conns[c].requests + s.flushed[c] == Made(s.calls, c) + InPick(s, c).1
  }

  ghost predicate Conserved(s: Machine) {
    && Shape(s)
    && forall c :: 0 <= c < |s.conns| ==> Balanced(s, c)
  }

  lemma CompleteKeepsBalance(s: Machine, i: nat, now: int, w: real, acceptable: bool, c: nat)
    requires Enabled(s, Complete(i, now, w, acceptable)) && c < |s.conns| && Balanced(s, c)
    ensures Balanced(CompleteStep(s, i, now, w, acceptable), c)
  {
    var t := CompleteStep(s, i, now, w, acceptable);
    CountsAfterProgress(s.calls, i, t.calls[i].progress, c);
    assert t.picking == s.picking;
  }

  lemma PickKeepsBalance(s: Machine, c: nat)
    requires Enabled(s, Pick) && c < |s.conns| == |s.flushed| && Balanced(s, c)
    ensures Balanced(PickStep(s), c)
  {
    assert PickStep(s).calls == s.calls && PickStep(s).flushed == s.flushed;
  }

  lemma ConservedKept(s: Machine, e: Event)
    requires Conserved(s) && Enabled(s, e)
    ensures Conserved(Next(s, e))
  {
    var t := Next(s, e);
    ShapeKept(s, e);
    forall c | 0 <= c < |s.conns| ensures Balanced(t, c) {
      assert Balanced(s, c);
      match e
      case Complete(i, now, w, acceptable) => CompleteKeepsBalance(s, i, now, w, acceptable, c);
      case Pick => PickKeepsBalance(s, c);
      case PickEnds(start) => assert t.calls[..|t.calls| - 1] == s.calls;
      case _ =>
    }
  }

  /** When each completion runs at most once, inflight is the number of picks whose
      completion has not started, so it is never negative; and no request goes uncounted:
      what the log has flushed plus the running counter is the number of picks. */
  lemma {:induction false} ConservedAlways(n: nat, es: seq<Event>)
    requires After(n, es).Some?
    ensures Conserved(After(n, es).value) && |After(n, es).value.conns| == n
    ensures forall c :: 0 <= c < n ==> After(n, es).value.conns[c].inflight >= 0
  {
    ShapeAlways(n, es);
    if es == [] {
      assert Conserved(Start(n));
    } else {
      ConservedAlways(n, es[..|es| - 1]);
      ConservedKept(After(n, es[..|es| - 1]).value, es[|es| - 1]);
    }
    forall c | 0 <= c < n ensures After(n, es).value.conns[c].inflight >= 0 {
      assert Balanced(After(n, es).value, c);
    }
  }

  /** The connection and the latency estimate whose load the pick computes next. */
  function Weighed(p: Picking): Option<(nat, nat)> {
    match p
    case LoadInflight1(c1, _, _, lag) => Some((c1, lag))
    case LoadInflight2(_, c2, _, _, lag) => Some((c2, lag))
    case _ => None
  }

  lemma WeighedInRange(n: nat, es: seq<Event>, c: nat, lag: nat)
    requires After(n, es).Some? && Weighed(After(n, es).value.picking) == Some((c, lag))
    ensures var s := After(n, es).value;
            c < |s.conns| && s.conns[c].inflight >= 0 && lag < INT64_LIMIT
  {
    assert c < |After(n, es).value.conns| && lag < INT64_LIMIT by { EstimatesAlways(n, es); }
    ConservedAlways(n, es);
  }

  /** Every load a pick computes, from a latency read earlier and a count read now, is a
      positive 64-bit number and not the penalty value, while fewer than 2^31 requests are
      outstanding. */
  lemma {:induction false} LoadsFit(n: nat, es: seq<Event>)
    requires After(n, es).Some? && Weighed(After(n, es).value.picking).Some?
    ensures var s := After(n, es).value;
            var (c, lag) := Weighed(s.picking).value;
            && c < |s.conns| && s.conns[c].inflight >= 0
            && (s.conns[c].inflight <= 0x7fff_ffff ==>
                  1 <= LoadOf(lag, s.conns[c].inflight) < INT64_LIMIT
                  && LoadOf(lag, s.conns[c].inflight) == ISqrt(lag + 1) * (s.conns[c].inflight + 1))
  {
    var s := After(n, es).value;
    var (c, lag) := Weighed(s.picking).value;
    WeighedInRange(n, es, c, lag);
    if s.conns[c].inflight <= 0x7fff_ffff {
      LoadFits(lag, s.conns[c].inflight);
    }
  }

  // ----- The statistics stamp

  /** A minute apart, in nanoseconds. */
  ghost predicate Spaced(stamps: seq<int>) {
    forall k :: 0 < k < |stamps| ==> stamps[k] - stamps[k - 1] >= 60_000_000_000
  }

  ghost predicate Stamped(s: Machine) {
    && Spaced(s.stamps)
    && s.stamp == (if s.stamps == [] then 0 else s.stamps[|s.stamps| - 1])
    && forall i :: 0 <= i < |s.calls| && s.calls[i].progress.SwapStamp? ==>
         s.calls[i].progress.now - s.calls[i].progress.stamp >= LOG_INTERVAL
  }

  lemma StampedKept(s: Machine, e: Event)
    requires Stamped(s) && Enabled(s, e)
    ensures Stamped(Next(s, e))
  {
  }

  /** Two successive swaps of the stamp are at least a log interval apart. */
  lemma {:induction false} StampsAlwaysSpaced(n: nat, es: seq<Event>)
    requires After(n, es).Some?
    ensures Stamped(After(n, es).value)
  {
    if es != [] {
      StampsAlwaysSpaced(n, es[..|es| - 1]);
      StampedKept(After(n, es[..|es| - 1]).value, es[|es| - 1]);
    }
  }
}
