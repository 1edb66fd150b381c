/** When a shared connection has a keepalive loop, and when it is lost. */
module SshKeeper {
  import opened Options
  import opened SshPool
  import opened SshSafety

  /** A round of the keepalive that is not over. */
  predicate Renewing(task: Task) { task.Keep? && task.stage != Finished }

  /** A round belongs to a loop that is pinging, and a loop has one round at a time. */
  ghost predicate Rounds(s: Pool) {
    && Shape(s)
    && (forall t :: 0 <= t < |s.tasks| && Renewing(s.tasks[t]) ==> s.instances[s.tasks[t].id].loop.keeper == Pinging)
    && (forall t, u :: 0 <= t < u < |s.tasks| && Renewing(s.tasks[t]) && Renewing(s.tasks[u]) ==>
          s.tasks[t].id != s.tasks[u].id)
  }

  /** A task's step changes its own stage, and its own instance; when a round ends its loop goes
      on. */
  lemma TaskKeepsRounds(s: Pool, u: Pool, t: nat)
    requires Rounds(s) && Shape(u) && t < |s.tasks| == |u.tasks| && |u.instances| == |s.instances|
    requires forall r :: 0 <= r < |s.tasks| ==> u.tasks[r].id == s.tasks[r].id && u.tasks[r].Keep? == s.tasks[r].Keep?
    requires forall r :: 0 <= r < |s.tasks| && Renewing(u.tasks[r]) ==> Renewing(s.tasks[r])
    requires forall id :: 0 <= id < |s.instances| && id != s.tasks[t].id ==>
               u.instances[id].loop.keeper == s.instances[id].loop.keeper
    requires Renewing(u.tasks[t]) || !Renewing(s.tasks[t]) ==>
               u.instances[s.tasks[t].id].loop.keeper == s.instances[s.tasks[t].id].loop.keeper
    ensures Rounds(u)
  {
    forall r | 0 <= r < |u.tasks| && Renewing(u.tasks[r]) ensures u.instances[u.tasks[r].id].loop.keeper == Pinging {
      assert Renewing(s.tasks[r]);
    }
  }

  lemma PingKeepsRounds(s: Pool, id: nat)
    requires Rounds(s) && Enabled(s, PingFails(id)) && Shape(Next(s, PingFails(id)))
    ensures Rounds(Next(s, PingFails(id)))
  {
    var u := Next(s, PingFails(id));
    forall t | 0 <= t < |u.tasks| && Renewing(u.tasks[t]) ensures u.instances[u.tasks[t].id].loop.keeper == Pinging {
      if t < |s.tasks| {
        assert Renewing(s.tasks[t]);
      }
    }
  }

  lemma RestKeepsRounds(s: Pool, e: Event)
    requires Rounds(s) && Enabled(s, e) && !ByTask(e) && !e.PingFails? && Shape(Next(s, e))
    ensures Rounds(Next(s, e))
  {
    var u := Next(s, e);
    forall t | 0 <= t < |u.tasks| && Renewing(u.tasks[t]) ensures u.instances[u.tasks[t].id].loop.keeper == Pinging {
      assert t < |s.tasks| && Renewing(s.tasks[t]);
    }
  }

  lemma WaitingKeepsRounds(s: Pool, e: Event)
    requires Rounds(s) && Enabled(s, e) && (e.Lock? || e.UnlockGlobal?) && Shape(Next(s, e))
    ensures Rounds(Next(s, e))
  {
    TaskKeepsRounds(s, Next(s, e), e.t);
  }

  lemma EnterKeepsRounds(s: Pool, t: nat)
    requires Rounds(s) && Enabled(s, Enter(t)) && Shape(Next(s, Enter(t)))
    ensures Rounds(Next(s, Enter(t)))
  {
    TaskKeepsRounds(s, Next(s, Enter(t)), t);
  }

  lemma EndDialKeepsRounds(s: Pool, t: nat, ok: bool)
    requires Rounds(s) && Enabled(s, EndDial(t, ok)) && Shape(Next(s, EndDial(t, ok)))
    ensures Rounds(Next(s, EndDial(t, ok)))
  {
    TaskKeepsRounds(s, Next(s, EndDial(t, ok)), t);
  }

  lemma RoundsKept(s: Pool, e: Event)
    requires Rounds(s) && Enabled(s, e)
    ensures Rounds(Next(s, e))
  {
    ShapeKept(s, e);
    match e
    case Lock(_) => WaitingKeepsRounds(s, e);
    case UnlockGlobal(_) => WaitingKeepsRounds(s, e);
    case Enter(t) => EnterKeepsRounds(s, t);
    case EndDial(t, ok) => EndDialKeepsRounds(s, t, ok);
    case PingFails(id) => PingKeepsRounds(s, id);
    case _ => RestKeepsRounds(s, e);
  }

  lemma {:induction false} RoundsAlways(es: seq<Event>)
    requires After(es).Some?
    ensures Rounds(After(es).value)
  {
    if es != [] {
      RoundsAlways(es[..|es| - 1]);
      RoundsKept(After(es[..|es| - 1]).value, es[|es| - 1]);
    }
  }

  // ----- A loop that has ended

  lemma StoppedStays(s: Pool, e: Event, id: nat)
    requires Rounds(s) && Enabled(s, e) && id < |s.instances| && s.instances[id].loop.keeper == Stopped
    ensures id < |Next(s, e).instances| && Next(s, e).instances[id].loop.keeper == Stopped
  {
  }

  /** Only its own stop ends a loop. */
  lemma StopsAlone(s: Pool, e: Event, id: nat)
    requires Rounds(s) && Enabled(s, e) && id < |Next(s, e).instances| && e != Tend(id, Stop)
    requires id < |s.instances| ==> s.instances[id].loop.keeper != Stopped
    ensures Next(s, e).instances[id].loop.keeper != Stopped
  {
  }

  /** A keepalive loop that has ended is never started again, even when the instance is closed
      and dialled anew. */
  lemma {:induction false} KeeperNeverReturns(es: seq<Event>, more: seq<Event>, id: nat)
    requires After(es).Some? && id < |After(es).value.instances|
    requires After(es).value.instances[id].loop.keeper == Stopped && After(es + more).Some?
    ensures id < |After(es + more).value.instances| && After(es + more).value.instances[id].loop.keeper == Stopped
  {
    if more == [] {
      assert es + more == es;
    } else {
      var all := es + more;
      var m := |all| - 1;
      assert all[..m] == es + more[..|more| - 1];
      KeeperNeverReturns(es, more[..|more| - 1], id);
      RoundsAlways(all[..m]);
      StoppedStays(After(all[..m]).value, all[m], id);
    }
  }

  lemma {:induction false} StoppedExactly(es: seq<Event>, id: nat)
    requires After(es).Some? && id < |After(es).value.instances|
    ensures After(es).value.instances[id].loop.keeper == Stopped <==> Tend(id, Stop) in es
  {
    if es != [] {
      var front, last := es[..|es| - 1], es[|es| - 1];
      var s := After(front).value;
      RoundsAlways(front);
      assert es == front + [last];
      if id < |s.instances| {
        StoppedExactly(front, id);
        if s.instances[id].loop.keeper == Stopped {
          StoppedStays(s, last, id);
        } else if last != Tend(id, Stop) {
          StopsAlone(s, last, id);
        }
      } else {
        NoStopBefore(front, id);
        StopsAlone(s, last, id);
      }
    }
  }

  lemma {:induction false} NoStopBefore(es: seq<Event>, id: nat)
    requires After(es).Some? && id >= |After(es).value.instances|
    ensures Tend(id, Stop) !in es
  {
    if es != [] {
      var front, last := es[..|es| - 1], es[|es| - 1];
      ShapeAlways(front);
      ShapeKept(After(front).value, last);
      NoStopBefore(front, id);
      assert es == front + [last];
    }
  }

  lemma ShapeAlways(es: seq<Event>)
    requires After(es).Some?
    ensures Shape(After(es).value)
  {
    RoundsAlways(es);
  }

  // ----- A held instance and its loop

  /** A loop has begun and not ended, or a goroutine that will begin one is about to run. */
  predicate Tended(ins: Instance) {
    var keeper := ins.loop.keeper;
    keeper.Looking? || keeper.Watching? || keeper.Pinging?
    || (keeper.NotStarted? && ins.loop.spawned > 0 && ins.client.Some?)
  }

  /** A held instance that wants a keepalive has one, unless it has ended. */
  predicate Wanted(ins: Instance) {
    ins.ref > 0 && !ins.skipKeep && ins.loop.keeper != Stopped ==> Tended(ins)
  }

  ghost predicate AllWanted(s: Pool) {
    Rounds(s) && DialsFit(s) && forall id :: 0 <= id < |s.instances| ==> Wanted(s.instances[id])
  }

  lemma EnterKeepsWanted(s: Pool, t: nat)
    requires Shape(s) && Enabled(s, Enter(t)) && Wanted(s.instances[s.tasks[t].id])
    ensures s.tasks[t].id < |Next(s, Enter(t)).instances| && Wanted(Next(s, Enter(t)).instances[s.tasks[t].id])
  {
  }

  lemma EndDialKeepsWanted(s: Pool, t: nat, ok: bool)
    requires DialsFit(s) && Enabled(s, EndDial(t, ok)) && Wanted(s.instances[s.tasks[t].id])
    ensures s.tasks[t].id < |Next(s, EndDial(t, ok)).instances|
    ensures Wanted(Next(s, EndDial(t, ok)).instances[s.tasks[t].id])
  {
  }

  lemma TaskKeepsWanted(s: Pool, e: Event, id: nat)
    requires AllWanted(s) && Enabled(s, e) && ByTask(e) && id < |s.instances|
    ensures id < |Next(s, e).instances| && Wanted(Next(s, e).instances[id])
  {
    TaskSteps(s, e);
    assert Wanted(s.instances[id]);
    if id == s.tasks[e.t].id {
      match e
      case Enter(t) => EnterKeepsWanted(s, t);
      case EndDial(t, ok) => EndDialKeepsWanted(s, t, ok);
      case _ =>
    }
  }

  lemma TendKeepsWanted(s: Pool, k: nat, step: Step, id: nat)
    requires AllWanted(s) && Enabled(s, Tend(k, step)) && id < |s.instances|
    ensures id < |Next(s, Tend(k, step)).instances| && Wanted(Next(s, Tend(k, step)).instances[id])
  {
    assert Wanted(s.instances[id]);
  }

  lemma RestKeepsWanted(s: Pool, e: Event, id: nat)
    requires AllWanted(s) && Enabled(s, e) && !ByTask(e) && !e.Tend? && id < |Next(s, e).instances|
    ensures Wanted(Next(s, e).instances[id])
  {
    assert id < |s.instances| ==> Wanted(s.instances[id]);
  }

  lemma WantedKept(s: Pool, e: Event)
    requires AllWanted(s) && Enabled(s, e)
    ensures AllWanted(Next(s, e))
  {
    RoundsKept(s, e);
    DialsFitKept(s, e);
    ShapeKept(s, e);
    var u := Next(s, e);
    forall id | 0 <= id < |u.instances| ensures Wanted(u.instances[id]) {
      if ByTask(e) {
        TaskSteps(s, e);
        TaskKeepsWanted(s, e, id);
      } else if e.Tend? {
        TendKeepsWanted(s, e.id, e.step, id);
      } else {
        RestKeepsWanted(s, e, id);
      }
    }
  }

  lemma {:induction false} WantedAlways(es: seq<Event>)
    requires After(es).Some?
    ensures AllWanted(After(es).value)
  {
    if es != [] {
      WantedAlways(es[..|es| - 1]);
      WantedKept(After(es[..|es| - 1]).value, es[|es| - 1]);
    }
  }

  /** In every run a held instance that wants a keepalive has one if and only if its loop has
      never stopped. */
  lemma {:induction false} TendedExactly(es: seq<Event>, id: nat)
    requires After(es).Some? && id < |After(es).value.instances|
    requires After(es).value.instances[id].ref > 0 && !After(es).value.instances[id].skipKeep
    ensures Tended(After(es).value.instances[id]) <==> Tend(id, Stop) !in es
  {
    WantedAlways(es);
    StoppedExactly(es, id);
    assert Wanted(After(es).value.instances[id]);
  }

  /** An instance that wants no keepalive, and its loop. */
  predicate Spared(ins: Instance) { ins.skipKeep ==> ins.loop.keeper == NotStarted }

  lemma TaskKeepsSpared(s: Pool, e: Event, id: nat)
    requires Rounds(s) && Enabled(s, e) && ByTask(e) && id < |s.instances| && Spared(s.instances[id])
    ensures id < |Next(s, e).instances| && Spared(Next(s, e).instances[id])
  {
    TaskSteps(s, e);
    if id == s.tasks[e.t].id && e.Enter? {
      EnterKeepsSpared(s, e.t);
    }
  }

  lemma EnterKeepsSpared(s: Pool, t: nat)
    requires Rounds(s) && Enabled(s, Enter(t)) && Spared(s.instances[s.tasks[t].id])
    ensures s.tasks[t].id < |Next(s, Enter(t)).instances|
    ensures Spared(Next(s, Enter(t)).instances[s.tasks[t].id])
  {
    assert s.tasks[t].Keep? ==> Renewing(s.tasks[t]);
  }

  lemma RestKeepsSpared(s: Pool, e: Event, id: nat)
    requires Shape(s) && Enabled(s, e) && !ByTask(e) && id < |Next(s, e).instances|
    requires id < |s.instances| ==> Spared(s.instances[id])
    ensures Spared(Next(s, e).instances[id])
  {
  }

  /** In every run an instance that wants no keepalive never has a loop. */
  lemma {:induction false} SkipMeansNone(es: seq<Event>, id: nat)
    requires After(es).Some? && id < |After(es).value.instances|
    ensures Spared(After(es).value.instances[id])
  {
    if es != [] {
      var front, last := es[..|es| - 1], es[|es| - 1];
      var s := After(front).value;
      RoundsAlways(front);
      ShapeKept(s, last);
      if id < |s.instances| {
        SkipMeansNone(front, id);
      }
      if ByTask(last) {
        TaskSteps(s, last);
        TaskKeepsSpared(s, last, id);
      } else {
        RestKeepsSpared(s, last, id);
      }
    }
  }

  /** The loop stops only when the root was cancelled, or a context of the instance was: by the
      close of a last holder, or of a remote dialled through it. */
  predicate MayHaveStopped(s: Pool, id: nat)
    requires id < |s.instances|
  {
    s.root || s.instances[id].loop.done != {}
  }

  lemma MayHaveStoppedStays(s: Pool, e: Event, id: nat)
    requires Shape(s) && Enabled(s, e) && id < |s.instances| && MayHaveStopped(s, id)
    ensures id < |Next(s, e).instances| && MayHaveStopped(Next(s, e), id)
  {
    if ByTask(e) {
      TaskSteps(s, e);
      TaskKeepsRoot(s, e);
    }
  }

  lemma TaskKeepsRoot(s: Pool, e: Event)
    requires Enabled(s, e) && ByTask(e)
    ensures Next(s, e).root == s.root
  {
  }

  lemma {:induction false} StopHasReason(es: seq<Event>, id: nat)
    requires After(es).Some? && Tend(id, Stop) in es
    ensures id < |After(es).value.instances| && MayHaveStopped(After(es).value, id)
  {
    var front, last := es[..|es| - 1], es[|es| - 1];
    assert es == front + [last];
    if Tend(id, Stop) in front {
      StopHasReason(front, id);
      ShapeAlways(front);
      MayHaveStoppedStays(After(front).value, last, id);
    }
  }

  /** So an instance none of whose contexts was cancelled keeps its keepalive while it is held and
      the root lives. */
  lemma {:induction false} NeverClosedIsTended(es: seq<Event>, id: nat)
    requires After(es).Some? && id < |After(es).value.instances|
    requires After(es).value.instances[id].ref > 0 && !After(es).value.instances[id].skipKeep
    requires !MayHaveStopped(After(es).value, id)
    ensures Tended(After(es).value.instances[id])
  {
    if Tend(id, Stop) in es {
      StopHasReason(es, id);
    }
    TendedExactly(es, id);
  }

  // ----- How the loop can end by itself

  /** The loop has stopped, or watches or will come to watch a context that has ended. */
  predicate Endable(root: bool, ins: Instance) {
    var l := ins.loop;
    l.keeper == Stopped || Ended(root, l) || (l.keeper != Pinging && (root || l.made in l.done))
  }

  predicate OnlyTends(es: seq<Event>, id: nat) { forall e :: e in es ==> e.Tend? && e.id == id }

  /** The keepalive of the instance alone has led from the run's end to the state. */
  ghost predicate TendsTo(es: seq<Event>, id: nat, more: seq<Event>, s: Pool) {
    OnlyTends(more, id) && After(es + more) == Some(s) && id < |s.instances|
  }

  ghost predicate CanEndUntended(es: seq<Event>, id: nat) {
    exists more, s :: TendsTo(es, id, more, s) && !Tended(s.instances[id])
  }

  lemma TendStep(es: seq<Event>, more: seq<Event>, s: Pool, id: nat, step: Step)
    returns (longer: seq<Event>, t: Pool)
    requires TendsTo(es, id, more, s) && CanStep(s.root, s.instances[id].loop, step)
    ensures TendsTo(es, id, longer, t)
    ensures t.root == s.root && t.instances[id] == s.instances[id].(loop := Stepped(s.instances[id], step))
  {
    ShapeAlways(es + more);
    var all: seq<Event>;
    all, t := Extend(es + more, s, Tend(id, step));
    longer := more + [Tend(id, step)];
    assert all == es + longer;
  }

  /** The step a loop that has not ended takes next, and how many are left until it can stop. */
  function NextStep(l: Loop): Step {
    match l.keeper case Looking => Look case Watching(_) => PingSucceeds case _ => Begin
  }

  function StepsLeft(root: bool, l: Loop): nat {
    if Ended(root, l) then 0 else if l.keeper.Looking? then 1 else if l.keeper.Watching? then 2 else 3
  }

  /** A loop on its way to its end. */
  predicate Ending(root: bool, ins: Instance) { Endable(root, ins) && Tended(ins) && !ins.skipKeep }

  lemma NextStepNears(root: bool, ins: Instance)
    requires Ending(root, ins) && !Ended(root, ins.loop)
    ensures CanStep(root, ins.loop, NextStep(ins.loop))
    ensures var after := ins.(loop := Stepped(ins, NextStep(ins.loop)));
            Ending(root, after) && StepsLeft(root, after.loop) < StepsLeft(root, ins.loop)
  {
  }

  lemma LoopStops(es: seq<Event>, more: seq<Event>, s: Pool, id: nat)
    requires TendsTo(es, id, more, s) && Ended(s.root, s.instances[id].loop)
    ensures CanEndUntended(es, id)
  {
    var longer, t := TendStep(es, more, s, id, Stop);
    assert !Tended(t.instances[id]);
  }

  lemma LoopNears(es: seq<Event>, more: seq<Event>, s: Pool, id: nat) returns (longer: seq<Event>, t: Pool)
    requires TendsTo(es, id, more, s) && Ending(s.root, s.instances[id]) && !Ended(s.root, s.instances[id].loop)
    ensures TendsTo(es, id, longer, t) && Ending(t.root, t.instances[id])
    ensures StepsLeft(t.root, t.instances[id].loop) < StepsLeft(s.root, s.instances[id].loop)
  {
    NextStepNears(s.root, s.instances[id]);
    longer, t := TendStep(es, more, s, id, NextStep(s.instances[id].loop));
  }

  /** The loop's own steps to its end. */
  lemma {:induction false} LoopEnds(es: seq<Event>, more: seq<Event>, s: Pool, id: nat)
    requires TendsTo(es, id, more, s) && Ending(s.root, s.instances[id])
    ensures CanEndUntended(es, id)
    decreases StepsLeft(s.root, s.instances[id].loop)
  {
    if Ended(s.root, s.instances[id].loop) {
      LoopStops(es, more, s, id);
    } else {
      var longer, t := LoopNears(es, more, s, id);
      LoopEnds(es, longer, t, id);
    }
  }

  lemma EndableKept(s: Pool, id: nat, step: Step)
    requires Enabled(s, Tend(id, step)) && !Endable(s.root, s.instances[id])
    ensures var t := Next(s, Tend(id, step));
            && id < |t.instances| && !Endable(t.root, t.instances[id])
            && t.instances[id].ref == s.instances[id].ref && t.instances[id].skipKeep == s.instances[id].skipKeep
  {
  }

  lemma {:induction false} NotEndableStays(es: seq<Event>, more: seq<Event>, id: nat)
    requires After(es).Some? && id < |After(es).value.instances|
    requires !Endable(After(es).value.root, After(es).value.instances[id])
    requires OnlyTends(more, id) && After(es + more).Some?
    ensures var t := After(es + more).value;
            && id < |t.instances| && !Endable(t.root, t.instances[id])
            && t.instances[id].ref == After(es).value.instances[id].ref
            && t.instances[id].skipKeep == After(es).value.instances[id].skipKeep
  {
    if more == [] {
      assert es + more == es;
    } else {
      var all := es + more;
      var before := all[..|all| - 1];
      assert before == es + more[..|more| - 1];
      assert all[|all| - 1] == more[|more| - 1] && more[|more| - 1] in more;
      NotEndableStays(es, more[..|more| - 1], id);
      EndableKept(After(before).value, id, all[|all| - 1].step);
    }
  }

  lemma StaysTended(es: seq<Event>, more: seq<Event>, id: nat, t: Pool)
    requires After(es).Some? && id < |After(es).value.instances|
    requires After(es).value.instances[id].ref > 0 && !After(es).value.instances[id].skipKeep
    requires !Endable(After(es).value.root, After(es).value.instances[id])
    requires TendsTo(es, id, more, t)
    ensures Tended(t.instances[id])
  {
    NotEndableStays(es, more, id);
    WantedAlways(es + more);
    assert Wanted(t.instances[id]);
  }

  /** Left to itself the keepalive of a held instance can end if and only if its loop has stopped,
      the context it watches has ended, or, unless it is in a round after a failed ping, the
      instance's context or the root has. */
  lemma {:induction false} EndsUntendedExactly(es: seq<Event>, id: nat)
    requires After(es).Some? && id < |After(es).value.instances|
    requires After(es).value.instances[id].ref > 0 && !After(es).value.instances[id].skipKeep
    ensures CanEndUntended(es, id) <==> Endable(After(es).value.root, After(es).value.instances[id])
  {
    var s := After(es).value;
    assert es + [] == es && OnlyTends([], id);
    assert TendsTo(es, id, [], s);
    if Endable(s.root, s.instances[id]) {
      if Tended(s.instances[id]) {
        LoopEnds(es, [], s, id);
      }
    } else if CanEndUntended(es, id) {
      var more, t :| TendsTo(es, id, more, t) && !Tended(t.instances[id]);
      StaysTended(es, more, id, t);
    }
  }
}
