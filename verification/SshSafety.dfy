/** What holds of the shared connections over every interleaving of NewSSH, Close and the
    keepalive, with dials free to fail and clients free to drop. */
module SshSafety {
  import opened Options
  import opened SshPool

  // ----- Indices and the table

  ghost predicate Shape(s: Pool) {
    && |s.locks| == |s.instances|
    && (forall t :: 0 <= t < |s.tasks| ==> s.tasks[t].id < |s.instances|)
    && (forall h :: 0 <= h < |s.handles| ==> s.handles[h].id < |s.instances|)
    && (forall r :: 0 <= r < |s.remotes| ==> s.remotes[r].id < |s.instances|)
    && (forall c :: 0 <= c < |s.clients| ==> s.clients[c].owner < |s.instances|)
  }

  predicate ByTask(e: Event) { e.Lock? || e.UnlockGlobal? || e.Enter? || e.EndDial? }

  /** What every step of a task leaves alone: all but its own stage, its own instance and lock,
      and one client and one handle at most. */
  ghost predicate TaskStep(s: Pool, u: Pool, t: nat)
    requires Shape(s) && t < |s.tasks|
  {
    var task := s.tasks[t];
    && u.table == s.table && u.remotes == s.remotes
    && |u.tasks| == |s.tasks| && |u.instances| == |s.instances| && |u.locks| == |s.locks|
    && u.tasks[t] == task.(stage := u.tasks[t].stage)
    && (forall r :: 0 <= r < |s.tasks| && r != t ==> u.tasks[r] == s.tasks[r])
    && (forall id :: 0 <= id < |s.instances| && id != task.id ==>
          u.instances[id] == s.instances[id] && u.locks[id] == s.locks[id])
    && OwnStep(s.instances[task.id], u.instances[task.id])
    && |s.clients| <= |u.clients|
    && (forall c :: 0 <= c < |s.clients| ==> u.clients[c].owner == s.clients[c].owner)
    && (forall c :: |s.clients| <= c < |u.clients| ==> u.clients[c].owner == task.id)
    && var more := u.instances[task.id].ref - s.instances[task.id].ref;
       && 0 <= more <= 1 && (more == 1 ==> task.New?)
       && u.handles == if more == 0 then s.handles else s.handles + [Handle(task.id, task.key, true)]
  }

  /** A task makes one context at most, and cancels none. */
  predicate OwnStep(ins: Instance, after: Instance) {
    var m := after.loop.made - ins.loop.made;
    && after.key == ins.key && after.addr == ins.addr && after.skipKeep == ins.skipKeep
    && after.surplus == ins.surplus && after.loop.done == ins.loop.done
    && 0 <= m <= 1 && after.contexts == ins.contexts + m
  }

  lemma EnterNewSteps(s: Pool, t: nat)
    requires Shape(s) && Enabled(s, Enter(t)) && s.tasks[t].New?
    ensures TaskStep(s, EnterNew(s, t), t)
  {
  }

  lemma EnterKeepSteps(s: Pool, t: nat)
    requires Shape(s) && Enabled(s, Enter(t)) && s.tasks[t].Keep?
    ensures TaskStep(s, EnterKeep(s, t), t)
  {
  }

  lemma EnterSteps(s: Pool, t: nat)
    requires Shape(s) && Enabled(s, Enter(t))
    ensures TaskStep(s, Next(s, Enter(t)), t)
  {
    if s.tasks[t].New? {
      EnterNewSteps(s, t);
    } else {
      EnterKeepSteps(s, t);
    }
  }

  lemma EndDialSteps(s: Pool, t: nat, ok: bool)
    requires Shape(s) && Enabled(s, EndDial(t, ok))
    ensures TaskStep(s, Next(s, EndDial(t, ok)), t)
  {
  }

  lemma TaskSteps(s: Pool, e: Event)
    requires Shape(s) && Enabled(s, e) && ByTask(e)
    ensures TaskStep(s, Next(s, e), e.t)
  {
    match e
    case Enter(t) => EnterSteps(s, t);
    case EndDial(t, ok) => EndDialSteps(s, t, ok);
    case _ =>
  }

  lemma ShapeKeptByTask(s: Pool, u: Pool, t: nat)
    requires Shape(s) && t < |s.tasks| && TaskStep(s, u, t)
    ensures Shape(u) && |s.instances| == |u.instances|
  {
  }

  lemma ShapeKeptByRest(s: Pool, e: Event)
    requires Shape(s) && Enabled(s, e) && !ByTask(e)
    ensures Shape(Next(s, e)) && |s.instances| <= |Next(s, e).instances|
  {
  }

  lemma ShapeKept(s: Pool, e: Event)
    requires Shape(s) && Enabled(s, e)
    ensures Shape(Next(s, e)) && |s.instances| <= |Next(s, e).instances|
  {
    if ByTask(e) {
      TaskSteps(s, e);
      ShapeKeptByTask(s, Next(s, e), e.t);
    } else {
      ShapeKeptByRest(s, e);
    }
  }

  // ----- Locks

  predicate HoldsLock(task: Task) { task.stage == HasBoth || task.stage == Inside || task.stage == Dialing }

  predicate HoldsGlobal(task: Task) { task.New? && (task.stage == WantLock || task.stage == HasBoth) }

  /** One task's share in the locks. */
  ghost predicate TaskLocked(s: Pool, t: nat)
    requires t < |s.tasks|
  {
    var task := s.tasks[t];
    && task.id < |s.locks|
    && (HoldsLock(task) <==> s.locks[task.id] == Some(t))
    && (HoldsGlobal(task) <==> s.global == Some(t))
    && (task.Keep? ==> task.stage != HasBoth)
  }

  /** Every lock is held by a task that knows it. */
  ghost predicate Locked(s: Pool) {
    && Shape(s)
    && (forall t :: 0 <= t < |s.tasks| ==> TaskLocked(s, t))
    && (forall id :: 0 <= id < |s.locks| && s.locks[id].Some? ==>
          s.locks[id].value < |s.tasks| && s.tasks[s.locks[id].value].id == id)
    && (s.global.Some? ==> s.global.value < |s.tasks|)
  }

  /** Every step of a task but the waiting ones changes its own stage and its own lock. */
  lemma TaskStepKeepsLocked(s: Pool, u: Pool, t: nat, stage: Stage, held: bool, global: Option<nat>)
    requires Locked(s) && Shape(u) && t < |s.tasks|
    requires u.tasks == s.tasks[t := s.tasks[t].(stage := stage)]
    requires s.locks[s.tasks[t].id] == None || s.locks[s.tasks[t].id] == Some(t)
    requires u.locks == s.locks[s.tasks[t].id := if held then Some(t) else None]
    requires held <==> HoldsLock(u.tasks[t])
    requires u.global == global && (global == s.global || (s.global == Some(t) && global == None))
    requires HoldsGlobal(u.tasks[t]) <==> global == Some(t)
    requires u.tasks[t].Keep? ==> stage != HasBoth
    ensures Locked(u)
  {
    forall r | 0 <= r < |u.tasks| ensures TaskLocked(u, r) {
      assert TaskLocked(s, r);
    }
  }

  lemma RestKeepsLocked(s: Pool, e: Event)
    requires Locked(s) && Enabled(s, e)
    requires !ByTask(e)
    ensures Locked(Next(s, e))
  {
    ShapeKept(s, e);
    var u := Next(s, e);
    forall t | 0 <= t < |u.tasks| ensures TaskLocked(u, t) {
      if t < |s.tasks| {
        assert TaskLocked(s, t);
      }
    }
  }

  lemma EnterKeepsLocked(s: Pool, t: nat)
    requires Locked(s) && Enabled(s, Enter(t))
    ensures Locked(Next(s, Enter(t)))
  {
    ShapeKept(s, Enter(t));
    var u := Next(s, Enter(t));
    assert TaskLocked(s, t);
    TaskStepKeepsLocked(s, u, t, u.tasks[t].stage, u.tasks[t].stage == Dialing, s.global);
  }

  lemma EndDialKeepsLocked(s: Pool, t: nat, ok: bool)
    requires Locked(s) && Enabled(s, EndDial(t, ok))
    ensures Locked(Next(s, EndDial(t, ok)))
  {
    ShapeKept(s, EndDial(t, ok));
    assert TaskLocked(s, t);
    TaskStepKeepsLocked(s, Next(s, EndDial(t, ok)), t, Finished, false, s.global);
  }

  lemma WaitingKeepsLocked(s: Pool, e: Event)
    requires Locked(s) && Enabled(s, e) && (e.Lock? || e.UnlockGlobal?)
    ensures Locked(Next(s, e))
  {
    ShapeKept(s, e);
    var u := Next(s, e);
    match e
    case Lock(t) =>
      assert TaskLocked(s, t);
      TaskStepKeepsLocked(s, u, t, u.tasks[t].stage, true, s.global);
    case UnlockGlobal(t) =>
      assert TaskLocked(s, t);
      TaskStepKeepsLocked(s, u, t, Inside, true, None);
  }

  lemma LockedKept(s: Pool, e: Event)
    requires Locked(s) && Enabled(s, e)
    ensures Locked(Next(s, e))
  {
    match e
    case Lock(_) => WaitingKeepsLocked(s, e);
    case UnlockGlobal(_) => WaitingKeepsLocked(s, e);
    case Enter(t) => EnterKeepsLocked(s, t);
    case EndDial(t, ok) => EndDialKeepsLocked(s, t, ok);
    case _ => RestKeepsLocked(s, e);
  }

  lemma {:induction false} LockedAlways(es: seq<Event>)
    requires After(es).Some?
    ensures Locked(After(es).value)
  {
    if es != [] {
      LockedAlways(es[..|es| - 1]);
      LockedKept(After(es[..|es| - 1]).value, es[|es| - 1]);
    }
  }

  /** No deadlock: while some call is unfinished, some call can take its next step, though
      NewSSH waits for an instance while holding the table. */
  lemma {:induction false} NeverStuck(es: seq<Event>, t: nat)
    requires After(es).Some? && t < |After(es).value.tasks| && After(es).value.tasks[t].stage != Finished
    ensures exists r, e :: e in [Lock(r), UnlockGlobal(r), Enter(r), EndDial(r, false)]
              && Enabled(After(es).value, e)
  {
    LockedAlways(es);
    var s := After(es).value;
    assert TaskLocked(s, t);
    var r := t;
    if s.tasks[t].stage == WantLock && s.locks[s.tasks[t].id].Some? {
      r := s.locks[s.tasks[t].id].value;
      assert TaskLocked(s, r);
    }
    var e := match s.tasks[r].stage
      case WantLock => Lock(r)
      case HasBoth => UnlockGlobal(r)
      case Inside => Enter(r)
      case _ => EndDial(r, false);
    assert e in [Lock(r), UnlockGlobal(r), Enter(r), EndDial(r, false)] && Enabled(s, e);
  }

  // ----- One instance for a key

  ghost predicate TableKeyed(s: Pool) {
    forall key :: key in s.table ==> s.table[key] < |s.instances| && s.instances[s.table[key]].key == key
  }

  predicate Listed(s: Pool, key: string, id: nat) { key in s.table && s.table[key] == id }

  ghost predicate Keyed(s: Pool) {
    && TableKeyed(s)
    && (forall t :: 0 <= t < |s.tasks| && s.tasks[t].New? ==> Listed(s, s.tasks[t].key, s.tasks[t].id))
    && (forall h :: 0 <= h < |s.handles| ==> Listed(s, s.handles[h].key, s.handles[h].id))
  }

  ghost predicate SameKeys(s: Pool, u: Pool) {
    && u.table == s.table && |u.instances| == |s.instances|
    && forall id :: 0 <= id < |s.instances| ==> u.instances[id].key == s.instances[id].key
  }

  /** Only a call of NewSSH touches the table. */
  lemma KeysStay(s: Pool, e: Event)
    requires Shape(s) && Enabled(s, e) && !e.CallNew?
    ensures SameKeys(s, Next(s, e))
  {
    if ByTask(e) {
      TaskSteps(s, e);
    }
  }

  lemma TableKept(s: Pool, e: Event)
    requires Shape(s) && TableKeyed(s) && Enabled(s, e)
    ensures TableKeyed(Next(s, e))
    ensures forall key, id :: Listed(s, key, id) ==> Listed(Next(s, e), key, id)
  {
    if !e.CallNew? {
      KeysStay(s, e);
    }
  }

  /** New tasks and handles are listed, and what was listed stays so. */
  lemma ListedStay(s: Pool, u: Pool)
    requires Keyed(s) && TableKeyed(u) && forall key, id :: Listed(s, key, id) ==> Listed(u, key, id)
    requires |s.tasks| <= |u.tasks| && forall t :: 0 <= t < |s.tasks| && u.tasks[t].New? ==>
               s.tasks[t].New? && u.tasks[t].key == s.tasks[t].key && u.tasks[t].id == s.tasks[t].id
    requires |s.handles| <= |u.handles| && forall h :: 0 <= h < |s.handles| ==>
               u.handles[h].key == s.handles[h].key && u.handles[h].id == s.handles[h].id
    requires forall t :: |s.tasks| <= t < |u.tasks| && u.tasks[t].New? ==> Listed(u, u.tasks[t].key, u.tasks[t].id)
    requires forall h :: |s.handles| <= h < |u.handles| ==> Listed(u, u.handles[h].key, u.handles[h].id)
    ensures Keyed(u)
  {
  }

  lemma NamedStaysKeyed(s: Pool, u: Pool, t: nat)
    requires Shape(s) && Keyed(s) && TableKeyed(u) && t < |s.tasks| && TaskStep(s, u, t)
    requires forall key, id :: Listed(s, key, id) ==> Listed(u, key, id)
    ensures Keyed(u)
  {
    assert s.tasks[t].New? ==> Listed(s, s.tasks[t].key, s.tasks[t].id);
    ListedStay(s, u);
  }

  lemma KeyedKept(s: Pool, e: Event)
    requires Shape(s) && Keyed(s) && Enabled(s, e)
    ensures Keyed(Next(s, e))
  {
    TableKept(s, e);
    if ByTask(e) {
      TaskSteps(s, e);
      NamedStaysKeyed(s, Next(s, e), e.t);
    } else {
      ListedStay(s, Next(s, e));
    }
  }

  /** Callers with the same key get the same instance, callers with different keys different
      ones, however their calls overlap. */
  lemma {:induction false} SameKeySameInstance(es: seq<Event>)
    requires After(es).Some?
    ensures Keyed(After(es).value)
    ensures var handles := After(es).value.handles;
            forall g, h :: 0 <= g < |handles| && 0 <= h < |handles| ==>
              (handles[g].key == handles[h].key <==> handles[g].id == handles[h].id)
  {
    if es != [] {
      SameKeySameInstance(es[..|es| - 1]);
      LockedAlways(es[..|es| - 1]);
      KeyedKept(After(es[..|es| - 1]).value, es[|es| - 1]);
    }
  }

  /** Some call of NewSSH before the n-th event was for the key. */
  ghost predicate CalledFor(es: seq<Event>, n: nat, key: string)
    requires n <= |es|
  {
    exists i :: 0 <= i < n && es[i].CallNew? && es[i].key == key
  }

  lemma TableGrows(s: Pool, e: Event, key: string)
    requires Shape(s) && Enabled(s, e)
    ensures key in s.table ==> key in Next(s, e).table && Next(s, e).table[key] == s.table[key]
    ensures key in Next(s, e).table ==> key in s.table || (e.CallNew? && e.key == key)
    ensures e.CallNew? && e.key == key && key !in s.table ==>
              Next(s, e).table[key] == |s.instances| < |Next(s, e).instances|
              && Next(s, e).instances[|s.instances|].addr == e.addr
              && Next(s, e).instances[|s.instances|].skipKeep == e.skipKeep
  {
    if ByTask(e) {
      TaskSteps(s, e);
    }
  }

  lemma {:induction false} TableFromCalls(es: seq<Event>, key: string)
    requires After(es).Some? && key in After(es).value.table
    ensures CalledFor(es, |es|, key)
  {
    var front, last := es[..|es| - 1], es[|es| - 1];
    LockedAlways(front);
    TableGrows(After(front).value, last, key);
    if key in After(front).value.table {
      TableFromCalls(front, key);
      var i :| 0 <= i < |front| && front[i].CallNew? && front[i].key == key;
      assert es[i].CallNew? && es[i].key == key;
    }
  }

  lemma NotInTable(es: seq<Event>, key: string)
    requires After(es).Some? && !CalledFor(es, |es|, key)
    ensures key !in After(es).value.table
  {
    if key in After(es).value.table {
      TableFromCalls(es, key);
    }
  }

  lemma ConfigurationStays(s: Pool, e: Event, id: nat)
    requires Shape(s) && Enabled(s, e) && id < |s.instances|
    ensures id < |Next(s, e).instances|
    ensures Next(s, e).instances[id].addr == s.instances[id].addr
    ensures Next(s, e).instances[id].skipKeep == s.instances[id].skipKeep
  {
    if ByTask(e) {
      TaskSteps(s, e);
    }
  }

  /** An instance keeps the configuration of the first call of NewSSH for its key. */
  lemma {:induction false} ConfiguredByFirst(es: seq<Event>, k: nat)
    requires After(es).Some? && k < |es| && es[k].CallNew? && !CalledFor(es, k, es[k].key)
    ensures var s := After(es).value;
            && es[k].key in s.table && s.table[es[k].key] < |s.instances|
            && s.instances[s.table[es[k].key]].addr == es[k].addr
            && s.instances[s.table[es[k].key]].skipKeep == es[k].skipKeep
  {
    var front, last := es[..|es| - 1], es[|es| - 1];
    var s, key := After(front).value, es[k].key;
    LockedAlways(front);
    TableGrows(s, last, key);
    if k == |front| {
      assert forall i :: 0 <= i < k ==> front[i] == es[i];
      NotInTable(front, key);
    } else {
      assert front[k] == es[k];
      forall i | 0 <= i < k ensures front[i] == es[i] {
      }
      ConfiguredByFirst(front, k);
      ConfigurationStays(s, last, s.table[key]);
    }
  }

  // ----- The reference count

  /** How many handles on an instance are still held. */
  function Holders(handles: seq<Handle>, id: nat): nat {
    if handles == [] then 0
    else
      var h := handles[|handles| - 1];
      Holders(handles[..|handles| - 1], id) + (if h.id == id && h.held then 1 else 0)
  }

  lemma {:induction false} HoldersAfterClose(handles: seq<Handle>, h: nat, id: nat)
    requires h < |handles|
    ensures Holders(handles[h := handles[h].(held := false)], id)
         == Holders(handles, id) - (if handles[h].id == id && handles[h].held then 1 else 0)
  {
    var m := |handles| - 1;
    var closed := handles[h := handles[h].(held := false)];
    if h == m {
      assert closed[..m] == handles[..m];
    } else {
      assert closed[..m] == handles[..m][h := handles[..m][h].(held := false)];
      HoldersAfterClose(handles[..m], h, id);
    }
  }

  lemma {:induction false} NoHolders(handles: seq<Handle>, id: nat)
    requires forall h :: 0 <= h < |handles| ==> handles[h].id < id
    ensures Holders(handles, id) == 0
  {
    if handles != [] {
      NoHolders(handles[..|handles| - 1], id);
    }
  }

  ghost predicate RefsExact(s: Pool) {
    && Shape(s)
    && forall id :: 0 <= id < |s.instances| ==>
         s.instances[id].ref == Holders(s.handles, id) - s.instances[id].surplus
  }

  lemma CountedAsBefore(s: Pool, u: Pool)
    requires RefsExact(s) && Shape(u) && u.handles == s.handles && |s.instances| <= |u.instances|
    requires forall id :: 0 <= id < |s.instances| ==>
               u.instances[id].ref == s.instances[id].ref && u.instances[id].surplus == s.instances[id].surplus
    requires forall id :: |s.instances| <= id < |u.instances| ==>
               u.instances[id].ref == 0 && u.instances[id].surplus == 0
    ensures RefsExact(u)
  {
    forall id | |s.instances| <= id < |u.instances| ensures Holders(u.handles, id) == 0 {
      NoHolders(s.handles, id);
    }
  }

  lemma CountedOneMore(s: Pool, u: Pool, h: Handle)
    requires RefsExact(s) && Shape(u) && u.handles == s.handles + [h] && h.held && |u.instances| == |s.instances|
    requires forall id :: 0 <= id < |s.instances| ==>
               u.instances[id].ref == s.instances[id].ref + (if id == h.id then 1 else 0)
               && u.instances[id].surplus == s.instances[id].surplus
    ensures RefsExact(u)
  {
    assert u.handles[..|u.handles| - 1] == s.handles;
  }

  lemma CountedOneLess(s: Pool, h: nat)
    requires RefsExact(s) && Enabled(s, CloseHandle(h)) && Shape(Next(s, CloseHandle(h)))
    ensures RefsExact(Next(s, CloseHandle(h)))
  {
    var u := Next(s, CloseHandle(h));
    forall id | 0 <= id < |u.instances|
      ensures u.instances[id].ref == Holders(u.handles, id) - u.instances[id].surplus
    {
      HoldersAfterClose(s.handles, h, id);
    }
  }

  lemma TaskKeepsRefs(s: Pool, u: Pool, t: nat)
    requires RefsExact(s) && t < |s.tasks| && TaskStep(s, u, t)
    ensures RefsExact(u)
  {
    ShapeKeptByTask(s, u, t);
    if |u.handles| > |s.handles| {
      CountedOneMore(s, u, u.handles[|s.handles|]);
    } else {
      CountedAsBefore(s, u);
    }
  }

  lemma RefsExactKept(s: Pool, e: Event)
    requires RefsExact(s) && Enabled(s, e)
    ensures RefsExact(Next(s, e))
  {
    ShapeKept(s, e);
    if ByTask(e) {
      TaskSteps(s, e);
      TaskKeepsRefs(s, Next(s, e), e.t);
    } else if e.CloseHandle? {
      CountedOneLess(s, e.h);
    } else {
      CountedAsBefore(s, Next(s, e));
    }
  }

  /** An instance's reference count is the number of its holders, less the closes by callers that
      had closed it before. */
  lemma {:induction false} RefCountsHolders(es: seq<Event>)
    requires After(es).Some?
    ensures RefsExact(After(es).value)
  {
    if es != [] {
      RefCountsHolders(es[..|es| - 1]);
      RefsExactKept(After(es[..|es| - 1]).value, es[|es| - 1]);
    }
  }

  // ----- Open clients

  /** A dial of NewSSH is for a closed instance, a dial of the keepalive for a live one. */
  ghost predicate DialsFit(s: Pool) {
    && Locked(s)
    && forall t :: 0 <= t < |s.tasks| && s.tasks[t].stage == Dialing ==>
         (s.tasks[t].Keep? <==> s.instances[s.tasks[t].id].ref > 0)
  }

  /** A task's step leaves the other tasks and the other instances alone. */
  lemma TaskStepKeepsDials(s: Pool, u: Pool, t: nat)
    requires DialsFit(s) && Locked(u) && t < |s.tasks| == |u.tasks| && |u.instances| == |s.instances|
    requires forall r :: 0 <= r < |s.tasks| && r != t ==> u.tasks[r] == s.tasks[r]
    requires forall id :: 0 <= id < |s.instances| && id != s.tasks[t].id ==> u.instances[id] == s.instances[id]
    requires HoldsLock(s.tasks[t]) || u.instances == s.instances
    requires u.tasks[t].stage == Dialing ==> (u.tasks[t].Keep? <==> u.instances[u.tasks[t].id].ref > 0)
    ensures DialsFit(u)
  {
    forall r | 0 <= r < |u.tasks| && u.tasks[r].stage == Dialing
      ensures u.tasks[r].Keep? <==> u.instances[u.tasks[r].id].ref > 0
    {
      assert TaskLocked(s, r) && TaskLocked(s, t);
    }
  }

  lemma LockKeepsDials(s: Pool, e: Event)
    requires DialsFit(s) && Enabled(s, e) && Locked(Next(s, e)) && (e.Lock? || e.UnlockGlobal?)
    ensures DialsFit(Next(s, e))
  {
    TaskStepKeepsDials(s, Next(s, e), e.t);
  }

  lemma EnterKeepsDials(s: Pool, e: Event)
    requires DialsFit(s) && Enabled(s, e) && Locked(Next(s, e)) && e.Enter?
    ensures DialsFit(Next(s, e))
  {
    TaskStepKeepsDials(s, Next(s, e), e.t);
  }

  lemma EndKeepsDials(s: Pool, e: Event)
    requires DialsFit(s) && Enabled(s, e) && Locked(Next(s, e)) && e.EndDial?
    ensures DialsFit(Next(s, e))
  {
    TaskStepKeepsDials(s, Next(s, e), e.t);
  }

  lemma RestKeepsDials(s: Pool, e: Event)
    requires DialsFit(s) && Enabled(s, e) && Locked(Next(s, e))
    requires !ByTask(e)
    ensures DialsFit(Next(s, e))
  {
    var u := Next(s, e);
    forall t | 0 <= t < |u.tasks| && u.tasks[t].stage == Dialing
      ensures u.tasks[t].Keep? <==> u.instances[u.tasks[t].id].ref > 0
    {
      if t < |s.tasks| {
        assert TaskLocked(s, t);
      }
    }
  }

  lemma DialsFitKept(s: Pool, e: Event)
    requires DialsFit(s) && Enabled(s, e)
    ensures DialsFit(Next(s, e))
  {
    LockedKept(s, e);
    match e
    case Lock(_) => LockKeepsDials(s, e);
    case UnlockGlobal(_) => LockKeepsDials(s, e);
    case Enter(_) => EnterKeepsDials(s, e);
    case EndDial(_, _) => EndKeepsDials(s, e);
    case _ => RestKeepsDials(s, e);
  }

  /** The task holding the instance's lock is replacing its client. */
  predicate Redialing(s: Pool, id: nat)
    requires id < |s.locks|
  {
    s.locks[id].Some? && s.locks[id].value < |s.tasks| && s.tasks[s.locks[id].value].stage == Dialing
  }

  /** Nobody has closed the instance more often than NewSSH gave it to him. */
  predicate Balanced(s: Pool, id: nat) { id < |s.instances| && s.instances[id].surplus == 0 }

  /** An open client is its instance's own, and that instance is live and not redialling, if it is
      balanced. */
  ghost predicate ClientOwned(s: Pool, c: nat)
    requires Shape(s) && c < |s.clients|
  {
    var id := s.clients[c].owner;
    s.clients[c].open && Balanced(s, id) ==>
      s.instances[id].client == Some(c) && s.instances[id].ref > 0 && !Redialing(s, id)
  }

  ghost predicate Owned(s: Pool) {
    && DialsFit(s) && RefsExact(s)
    && (forall c :: 0 <= c < |s.clients| ==> ClientOwned(s, c))
    && (forall id :: 0 <= id < |s.instances| && s.instances[id].client.Some? ==>
          s.instances[id].client.value < |s.clients|)
  }

  lemma EnterKeepsClient(s: Pool, t: nat, c: nat)
    requires Locked(s) && Enabled(s, Enter(t)) && Shape(Next(s, Enter(t)))
    requires c < |s.clients| && ClientOwned(s, c)
    ensures c < |Next(s, Enter(t)).clients| && ClientOwned(Next(s, Enter(t)), c)
  {
    assert TaskLocked(s, t);
  }

  lemma EnterKeepsOwned(s: Pool, t: nat)
    requires Owned(s) && Enabled(s, Enter(t))
    ensures Owned(Next(s, Enter(t)))
  {
    DialsFitKept(s, Enter(t));
    RefsExactKept(s, Enter(t));
    var u := Next(s, Enter(t));
    assert |u.clients| == |s.clients|;
    forall c | 0 <= c < |u.clients| ensures ClientOwned(u, c) {
      EnterKeepsClient(s, t, c);
    }
  }

  /** A client of another instance is as before. */
  lemma OthersKeepClient(s: Pool, u: Pool, t: nat, c: nat)
    requires Locked(s) && Shape(u) && t < |s.tasks| && TaskStep(s, u, t) && c < |s.clients| && ClientOwned(s, c)
    requires s.clients[c].owner != s.tasks[t].id && u.clients[c].open == s.clients[c].open
    ensures ClientOwned(u, c)
  {
  }

  lemma EndDialKeepsOwnClient(s: Pool, t: nat, ok: bool, c: nat)
    requires DialsFit(s) && RefsExact(s) && Enabled(s, EndDial(t, ok)) && Shape(Next(s, EndDial(t, ok)))
    requires c < |Next(s, EndDial(t, ok)).clients| && (c < |s.clients| ==> ClientOwned(s, c))
    requires Next(s, EndDial(t, ok)).clients[c].owner == s.tasks[t].id
    ensures ClientOwned(Next(s, EndDial(t, ok)), c)
  {
    assert TaskLocked(s, t) && Redialing(s, s.tasks[t].id);
  }

  lemma EndDialKeepsClient(s: Pool, t: nat, ok: bool, c: nat)
    requires Owned(s) && Enabled(s, EndDial(t, ok)) && Shape(Next(s, EndDial(t, ok)))
    requires c < |Next(s, EndDial(t, ok)).clients|
    ensures ClientOwned(Next(s, EndDial(t, ok)), c)
  {
    EndDialSteps(s, t, ok);
    assert c < |s.clients| ==> ClientOwned(s, c);
    if Next(s, EndDial(t, ok)).clients[c].owner == s.tasks[t].id {
      EndDialKeepsOwnClient(s, t, ok, c);
    } else {
      OthersKeepClient(s, Next(s, EndDial(t, ok)), t, c);
    }
  }

  lemma EndDialKeepsOwned(s: Pool, t: nat, ok: bool)
    requires Owned(s) && Enabled(s, EndDial(t, ok))
    ensures Owned(Next(s, EndDial(t, ok)))
  {
    DialsFitKept(s, EndDial(t, ok));
    RefsExactKept(s, EndDial(t, ok));
    var u := Next(s, EndDial(t, ok));
    forall c | 0 <= c < |u.clients| ensures ClientOwned(u, c) {
      EndDialKeepsClient(s, t, ok, c);
    }
  }

  lemma CloseKeepsClient(s: Pool, h: nat, c: nat)
    requires Owned(s) && Enabled(s, CloseHandle(h)) && RefsExact(Next(s, CloseHandle(h)))
    requires c < |s.clients|
    ensures c < |Next(s, CloseHandle(h)).clients| && ClientOwned(Next(s, CloseHandle(h)), c)
  {
    assert ClientOwned(s, c);
  }

  lemma CloseKeepsOwned(s: Pool, h: nat)
    requires Owned(s) && Enabled(s, CloseHandle(h))
    ensures Owned(Next(s, CloseHandle(h)))
  {
    DialsFitKept(s, CloseHandle(h));
    RefsExactKept(s, CloseHandle(h));
    var u := Next(s, CloseHandle(h));
    assert |u.clients| == |s.clients|;
    forall c | 0 <= c < |u.clients| ensures ClientOwned(u, c) {
      CloseKeepsClient(s, h, c);
    }
  }

  /** A step that opens no client and touches no count. */
  ghost predicate IdleStep(s: Pool, u: Pool) {
    && |u.clients| == |s.clients| && |s.instances| <= |u.instances|
    && (forall c :: 0 <= c < |s.clients| ==>
          u.clients[c].owner == s.clients[c].owner && (u.clients[c].open ==> s.clients[c].open))
    && (forall id :: 0 <= id < |s.instances| ==>
          && u.instances[id].client == s.instances[id].client && u.instances[id].ref == s.instances[id].ref
          && u.instances[id].surplus == s.instances[id].surplus)
    && (forall id :: |s.instances| <= id < |u.instances| ==> u.instances[id].client == None)
  }

  lemma IdleSteps(s: Pool, e: Event)
    requires Shape(s) && Enabled(s, e) && !e.Enter? && !e.EndDial? && !e.CloseHandle?
    ensures IdleStep(s, Next(s, e))
  {
  }

  /** Who was not dialling before dials no more than he did. */
  lemma IdleRedials(s: Pool, e: Event, id: nat)
    requires Locked(s) && Enabled(s, e) && !e.Enter? && !e.EndDial? && !e.CloseHandle? && Locked(Next(s, e))
    requires id < |s.locks| && Redialing(Next(s, e), id)
    ensures Redialing(s, id)
  {
    var u := Next(s, e);
    assert TaskLocked(u, u.locks[id].value);
  }

  lemma IdleKeepsOwned(s: Pool, e: Event)
    requires Owned(s) && Enabled(s, e) && !e.Enter? && !e.EndDial? && !e.CloseHandle?
    ensures Owned(Next(s, e))
  {
    DialsFitKept(s, e);
    RefsExactKept(s, e);
    IdleSteps(s, e);
    var u := Next(s, e);
    forall c | 0 <= c < |u.clients| ensures ClientOwned(u, c) {
      assert ClientOwned(s, c);
      if Redialing(u, s.clients[c].owner) {
        IdleRedials(s, e, s.clients[c].owner);
      }
    }
  }

  lemma OwnedKept(s: Pool, e: Event)
    requires Owned(s) && Enabled(s, e)
    ensures Owned(Next(s, e))
  {
    match e
    case Enter(t) => EnterKeepsOwned(s, t);
    case EndDial(t, ok) => EndDialKeepsOwned(s, t, ok);
    case CloseHandle(h) => CloseKeepsOwned(s, h);
    case _ => IdleKeepsOwned(s, e);
  }

  lemma {:induction false} OwnedAlways(es: seq<Event>)
    requires After(es).Some?
    ensures Owned(After(es).value)
  {
    if es != [] {
      OwnedAlways(es[..|es| - 1]);
      OwnedKept(After(es[..|es| - 1]).value, es[|es| - 1]);
    }
  }

  /** A balanced instance never has two open clients, and none once its last holder has closed
      it. */
  lemma {:induction false} OneOpenClient(es: seq<Event>, b: nat, c: nat)
    requires After(es).Some? && b < |After(es).value.clients| && c < |After(es).value.clients|
    requires var clients := After(es).value.clients;
             clients[b].open && clients[c].open && clients[b].owner == clients[c].owner
    requires Balanced(After(es).value, After(es).value.clients[c].owner)
    ensures b == c
    ensures Holders(After(es).value.handles, After(es).value.clients[c].owner) > 0
  {
    OwnedAlways(es);
    var s := After(es).value;
    assert ClientOwned(s, b) && ClientOwned(s, c);
  }

  /** What closes a client: it drops by itself, the last holder closes its instance, or the
      keepalive is about to dial again for holders. */
  predicate Closes(s: Pool, e: Event, c: nat)
    requires Shape(s) && Enabled(s, e)
  {
    match e
    case Drop(d) => d == c
    case CloseHandle(h) => s.instances[s.handles[h].id].ref <= 1 && s.instances[s.handles[h].id].client == Some(c)
    case Enter(t) =>
      s.tasks[t].Keep? && s.instances[s.tasks[t].id].ref > 0 && s.instances[s.tasks[t].id].client == Some(c)
    case _ => false
  }

  /** An open client is closed exactly by these; a closed one is never open again. */
  lemma {:induction false} ClosedExactly(es: seq<Event>, e: Event, c: nat)
    requires After(es).Some? && Enabled(After(es).value, e) && c < |After(es).value.clients|
    ensures Shape(After(es).value) && c < |Next(After(es).value, e).clients|
    ensures Next(After(es).value, e).clients[c].open
            <==> After(es).value.clients[c].open && !Closes(After(es).value, e, c)
  {
    LockedAlways(es);
    ClientStep(After(es).value, e, c);
  }

  lemma ClientStep(s: Pool, e: Event, c: nat)
    requires Shape(s) && Enabled(s, e) && c < |s.clients|
    ensures c < |Next(s, e).clients|
    ensures Next(s, e).clients[c].open <==> s.clients[c].open && !Closes(s, e, c)
  {
    match e
    case Enter(t) => EnterClient(s, t, c);
    case EndDial(t, ok) => EndDialClient(s, t, ok, c);
    case _ =>
  }

  lemma EnterClient(s: Pool, t: nat, c: nat)
    requires Shape(s) && Enabled(s, Enter(t)) && c < |s.clients|
    ensures c < |Next(s, Enter(t)).clients|
    ensures Next(s, Enter(t)).clients[c].open <==> s.clients[c].open && !Closes(s, Enter(t), c)
  {
  }

  lemma EndDialClient(s: Pool, t: nat, ok: bool, c: nat)
    requires Shape(s) && Enabled(s, EndDial(t, ok)) && c < |s.clients|
    ensures c < |Next(s, EndDial(t, ok)).clients| && Next(s, EndDial(t, ok)).clients[c] == s.clients[c]
  {
  }

  /** The keepalive dials only while somebody holds the instance. */
  lemma {:induction false} NoRedialAfterLastClose(es: seq<Event>, t: nat, ok: bool)
    requires After(es).Some? && Enabled(After(es).value, EndDial(t, ok)) && After(es).value.tasks[t].Keep?
    ensures Holders(After(es).value.handles, After(es).value.tasks[t].id) > 0
  {
    OwnedAlways(es);
  }

  // ----- Contexts

  /** The contexts not cancelled are those made without those done. */
  ghost predicate Tallied(ins: Instance) {
    && ins.contexts == ins.loop.made - |ins.loop.done|
    && forall m :: m in ins.loop.done ==> m <= ins.loop.made
  }

  ghost predicate AllTallied(s: Pool) {
    && Shape(s)
    && (forall id :: 0 <= id < |s.instances| ==> Tallied(s.instances[id]))
    && (forall r :: 0 <= r < |s.remotes| ==> s.remotes[r].context <= s.instances[s.remotes[r].id].loop.made)
  }

  lemma CancelTallies(ins: Instance, context: nat)
    requires Tallied(ins) && context <= ins.loop.made
    ensures Tallied(Cancelled(ins, context))
  {
  }

  lemma CloseTallies(s: Pool, h: nat, id: nat)
    requires AllTallied(s) && Enabled(s, CloseHandle(h)) && id < |s.instances|
    ensures Tallied(Next(s, CloseHandle(h)).instances[id])
    ensures Next(s, CloseHandle(h)).instances[id].loop.made == s.instances[id].loop.made
  {
    var ins := s.instances[id];
    var less := ins.(ref := ins.ref - 1, surplus := ins.surplus + if s.handles[h].held then 0 else 1);
    CancelTallies(less, less.loop.made);
  }

  lemma CloseRemoteTallies(s: Pool, r: nat, id: nat)
    requires AllTallied(s) && Enabled(s, CloseRemote(r)) && id < |s.instances|
    ensures Tallied(Next(s, CloseRemote(r)).instances[id])
    ensures Next(s, CloseRemote(r)).instances[id].loop.made == s.instances[id].loop.made
  {
    CancelTallies(s.instances[s.remotes[r].id], s.remotes[r].context);
  }

  lemma RestTallies(s: Pool, e: Event, id: nat)
    requires AllTallied(s) && Enabled(s, e) && !ByTask(e) && id < |Next(s, e).instances|
    ensures Tallied(Next(s, e).instances[id])
    ensures id < |s.instances| ==> Next(s, e).instances[id].loop.made == s.instances[id].loop.made
  {
    match e
    case CloseHandle(h) => CloseTallies(s, h, id);
    case CloseRemote(r) => CloseRemoteTallies(s, r, id);
    case _ =>
  }

  /** Only a call of DialRemote adds a remote, with the context the instance has then. */
  predicate NewRemote(s: Pool, u: Pool) {
    u.remotes == s.remotes
    || (|u.remotes| == |s.remotes| + 1 && u.remotes[..|s.remotes|] == s.remotes && u.instances == s.instances
        && var last := u.remotes[|s.remotes|];
           last.id < |s.instances| && last.context == s.instances[last.id].loop.made)
  }

  lemma RemotesStay(s: Pool, e: Event)
    requires Shape(s) && Enabled(s, e) && !ByTask(e)
    ensures NewRemote(s, Next(s, e))
  {
  }

  lemma RemotesBounded(s: Pool, u: Pool)
    requires AllTallied(s) && NewRemote(s, u) && |s.instances| <= |u.instances|
    requires forall id :: 0 <= id < |s.instances| ==> u.instances[id].loop.made >= s.instances[id].loop.made
    ensures forall r :: 0 <= r < |u.remotes| ==>
              u.remotes[r].id < |s.instances| && u.remotes[r].context <= u.instances[u.remotes[r].id].loop.made
  {
    forall r | 0 <= r < |s.remotes| ensures u.remotes[r] == s.remotes[r] {
      assert u.remotes[..|s.remotes|][r] == u.remotes[r];
    }
  }

  lemma TalliedKept(s: Pool, e: Event)
    requires AllTallied(s) && Enabled(s, e)
    ensures AllTallied(Next(s, e))
  {
    ShapeKept(s, e);
    var u := Next(s, e);
    if ByTask(e) {
      TaskSteps(s, e);
    } else {
      forall id | 0 <= id < |u.instances|
        ensures Tallied(u.instances[id])
        ensures id < |s.instances| ==> u.instances[id].loop.made == s.instances[id].loop.made
      {
        RestTallies(s, e, id);
      }
      RemotesStay(s, e);
    }
    RemotesBounded(s, u);
  }

  /** In every interleaving, with remotes and surplus closes too, the contexts an instance has in
      the shutdown count are those made for it and not cancelled, each cancelled once. */
  lemma {:induction false} ContextsExact(es: seq<Event>)
    requires After(es).Some?
    ensures AllTallied(After(es).value)
  {
    if es != [] {
      ContextsExact(es[..|es| - 1]);
      TalliedKept(After(es[..|es| - 1]).value, es[|es| - 1]);
    }
  }

  predicate NewDialing(s: Pool, id: nat)
    requires id < |s.locks|
  {
    Redialing(s, id) && s.tasks[s.locks[id].value].New?
  }

  /** The instance is being dialled by NewSSH, or is held and no remote has cancelled its context. */
  predicate InUse(s: Pool, id: nat)
    requires id < |s.instances| == |s.locks|
  {
    var ins := s.instances[id];
    NewDialing(s, id) || (ins.ref > 0 && ins.loop.made !in ins.loop.done)
  }

  /** A balanced instance has the context it uses; every failed dial of NewSSH leaves one more
      that nobody cancels. */
  ghost predicate ContextsOf(s: Pool, id: nat)
    requires id < |s.instances| == |s.locks|
  {
    Balanced(s, id) ==>
      var ins := s.instances[id];
      && (NewDialing(s, id) ==> ins.loop.made !in ins.loop.done)
      && ins.contexts == ins.failures + (if InUse(s, id) then 1 else 0)
  }

  /** The context a remote shares is cancelled, or in use by the instance. */
  predicate Shared(ins: Instance, context: nat) {
    ins.surplus == 0 ==> context in ins.loop.done || (ins.ref > 0 && context == ins.loop.made)
  }

  ghost predicate RemotesShare(s: Pool) {
    && Owned(s) && AllTallied(s)
    && forall r :: 0 <= r < |s.remotes| ==> Shared(s.instances[s.remotes[r].id], s.remotes[r].context)
  }

  lemma EnterKeepsShared(s: Pool, t: nat, context: nat)
    requires Owned(s) && Enabled(s, Enter(t)) && Shared(s.instances[s.tasks[t].id], context)
    ensures s.tasks[t].id < |Next(s, Enter(t)).instances|
    ensures Shared(Next(s, Enter(t)).instances[s.tasks[t].id], context)
  {
  }

  /** A step changes one instance at most, and shares its contexts as before. */
  lemma TaskKeepsShared(s: Pool, e: Event, id: nat, context: nat)
    requires Owned(s) && Enabled(s, e) && ByTask(e) && id < |s.instances| && Shared(s.instances[id], context)
    ensures id < |Next(s, e).instances| && Shared(Next(s, e).instances[id], context)
  {
    TaskSteps(s, e);
    if id == s.tasks[e.t].id && e.Enter? {
      EnterKeepsShared(s, e.t, context);
    }
  }

  lemma RestKeepsShared(s: Pool, e: Event, id: nat, context: nat)
    requires Owned(s) && Enabled(s, e) && !ByTask(e) && id < |s.instances| && Shared(s.instances[id], context)
    ensures id < |Next(s, e).instances| && Shared(Next(s, e).instances[id], context)
  {
  }

  lemma {:induction false} HeldCounts(handles: seq<Handle>, h: nat)
    requires h < |handles| && handles[h].held
    ensures Holders(handles, handles[h].id) > 0
  {
    if h < |handles| - 1 {
      HeldCounts(handles[..|handles| - 1], h);
    }
  }

  lemma SharedKept(s: Pool, e: Event, id: nat, context: nat)
    requires Owned(s) && Enabled(s, e) && id < |s.instances| && Shared(s.instances[id], context)
    ensures id < |Next(s, e).instances| && Shared(Next(s, e).instances[id], context)
  {
    if ByTask(e) {
      TaskKeepsShared(s, e, id, context);
    } else {
      RestKeepsShared(s, e, id, context);
    }
  }

  /** Only a call of DialRemote makes a new remote, and its instance is held. */
  lemma RemotesFrom(s: Pool, e: Event, r: nat)
    requires Owned(s) && Enabled(s, e) && r < |Next(s, e).remotes|
    ensures r < |s.remotes| ==> Next(s, e).remotes[r] == s.remotes[r]
    ensures r >= |s.remotes| ==>
              var u := Next(s, e);
              u.remotes[r].id < |u.instances| && Shared(u.instances[u.remotes[r].id], u.remotes[r].context)
  {
    if ByTask(e) {
      TaskSteps(s, e);
    } else if e.DialRemote? {
      HeldCounts(s.handles, e.h);
    }
  }

  lemma RemotesKept(s: Pool, e: Event)
    requires RemotesShare(s) && Enabled(s, e)
    ensures RemotesShare(Next(s, e))
  {
    OwnedKept(s, e);
    TalliedKept(s, e);
    var u := Next(s, e);
    forall r | 0 <= r < |u.remotes| ensures Shared(u.instances[u.remotes[r].id], u.remotes[r].context) {
      RemotesFrom(s, e, r);
      if r < |s.remotes| {
        SharedKept(s, e, s.remotes[r].id, s.remotes[r].context);
      }
    }
  }

  ghost predicate ContextsCounted(s: Pool) {
    RemotesShare(s) && forall id :: 0 <= id < |s.instances| ==> ContextsOf(s, id)
  }

  /** What a task's step leaves alone: the other instances and who is dialling them. */
  lemma OthersKeepContexts(s: Pool, u: Pool, t: nat, id: nat)
    requires Locked(s) && Locked(u) && t < |s.tasks| && id < |s.instances| && id != s.tasks[t].id
    requires TaskStep(s, u, t) && ContextsOf(s, id)
    ensures ContextsOf(u, id)
  {
  }

  lemma EnterNewCounts(s: Pool, t: nat)
    requires RemotesShare(s) && Enabled(s, Enter(t)) && s.tasks[t].New? && ContextsOf(s, s.tasks[t].id)
    ensures ContextsOf(Next(s, Enter(t)), s.tasks[t].id)
  {
    assert TaskLocked(s, t) && Tallied(s.instances[s.tasks[t].id]);
  }

  lemma EnterKeepCounts(s: Pool, t: nat)
    requires RemotesShare(s) && Enabled(s, Enter(t)) && s.tasks[t].Keep? && ContextsOf(s, s.tasks[t].id)
    ensures ContextsOf(Next(s, Enter(t)), s.tasks[t].id)
  {
    assert TaskLocked(s, t);
  }

  lemma EndDialKeepsOwnContexts(s: Pool, t: nat, ok: bool)
    requires Owned(s) && Enabled(s, EndDial(t, ok)) && Owned(Next(s, EndDial(t, ok)))
    requires ContextsOf(s, s.tasks[t].id)
    ensures ContextsOf(Next(s, EndDial(t, ok)), s.tasks[t].id)
  {
    assert TaskLocked(s, t) && TaskLocked(Next(s, EndDial(t, ok)), t);
  }

  lemma WaitingKeepsOwnContexts(s: Pool, e: Event)
    requires Owned(s) && Enabled(s, e) && Owned(Next(s, e)) && (e.Lock? || e.UnlockGlobal?)
    requires ContextsOf(s, s.tasks[e.t].id)
    ensures ContextsOf(Next(s, e), s.tasks[e.t].id)
  {
    assert TaskLocked(s, e.t) && TaskLocked(Next(s, e), e.t);
  }

  lemma OwnKeepsContexts(s: Pool, e: Event)
    requires RemotesShare(s) && Enabled(s, e) && ByTask(e) && Owned(Next(s, e))
    requires ContextsOf(s, s.tasks[e.t].id)
    ensures ContextsOf(Next(s, e), s.tasks[e.t].id)
  {
    match e
    case Enter(t) => if s.tasks[t].New? { EnterNewCounts(s, t); } else { EnterKeepCounts(s, t); }
    case EndDial(t, ok) => EndDialKeepsOwnContexts(s, t, ok);
    case _ => WaitingKeepsOwnContexts(s, e);
  }

  lemma TaskKeepsContexts(s: Pool, e: Event)
    requires ContextsCounted(s) && Enabled(s, e) && ByTask(e) && RemotesShare(Next(s, e))
    ensures ContextsCounted(Next(s, e))
  {
    TaskSteps(s, e);
    var u := Next(s, e);
    OwnKeepsContexts(s, e);
    forall id | 0 <= id < |u.instances| && id != s.tasks[e.t].id ensures ContextsOf(u, id) {
      OthersKeepContexts(s, u, e.t, id);
    }
  }

  lemma CloseKeepsContexts(s: Pool, h: nat, id: nat)
    requires RemotesShare(s) && Enabled(s, CloseHandle(h)) && RefsExact(Next(s, CloseHandle(h)))
    requires id < |s.instances| && ContextsOf(s, id)
    ensures id < |Next(s, CloseHandle(h)).instances| && ContextsOf(Next(s, CloseHandle(h)), id)
  {
    assert NewDialing(Next(s, CloseHandle(h)), id) <==> NewDialing(s, id);
    if id == s.handles[h].id && s.handles[h].held {
      HeldCounts(s.handles, h);
    }
  }

  lemma CloseRemoteKeepsContexts(s: Pool, r: nat, id: nat)
    requires RemotesShare(s) && Enabled(s, CloseRemote(r)) && id < |s.instances| && ContextsOf(s, id)
    ensures id < |Next(s, CloseRemote(r)).instances| && ContextsOf(Next(s, CloseRemote(r)), id)
  {
    assert NewDialing(Next(s, CloseRemote(r)), id) <==> NewDialing(s, id);
    assert Shared(s.instances[s.remotes[r].id], s.remotes[r].context);
  }

  lemma RestKeepsContexts(s: Pool, e: Event, id: nat)
    requires Owned(s) && Enabled(s, e) && Owned(Next(s, e)) && id < |Next(s, e).instances|
    requires id < |s.instances| ==> ContextsOf(s, id)
    requires !ByTask(e) && !e.CloseHandle? && !e.CloseRemote?
    ensures ContextsOf(Next(s, e), id)
  {
    var u := Next(s, e);
    if id < |s.instances| {
      assert NewDialing(u, id) <==> NewDialing(s, id);
    }
  }

  lemma ContextsKept(s: Pool, e: Event)
    requires ContextsCounted(s) && Enabled(s, e)
    ensures ContextsCounted(Next(s, e))
  {
    RemotesKept(s, e);
    if ByTask(e) {
      TaskKeepsContexts(s, e);
    } else {
      ShapeKept(s, e);
      var u := Next(s, e);
      forall id | 0 <= id < |u.instances| ensures ContextsOf(u, id) {
        match e
        case CloseHandle(h) => CloseKeepsContexts(s, h, id);
        case CloseRemote(r) => CloseRemoteKeepsContexts(s, r, id);
        case _ => RestKeepsContexts(s, e, id);
      }
    }
  }

  /** The contexts a balanced instance keeps in the shutdown count: one while it is held or being
      dialled by NewSSH and no remote has cancelled it, and one for every NewSSH whose dial
      failed. */
  lemma {:induction false} ContextsLeakPerFailure(es: seq<Event>)
    requires After(es).Some?
    ensures ContextsCounted(After(es).value)
  {
    if es != [] {
      ContextsLeakPerFailure(es[..|es| - 1]);
      ContextsKept(After(es[..|es| - 1]).value, es[|es| - 1]);
    }
  }

  lemma FailuresKept(s: Pool, e: Event, id: nat)
    requires Enabled(s, e) && id < |s.instances|
    ensures id < |Next(s, e).instances| && Next(s, e).instances[id].failures >= s.instances[id].failures
  {
  }

  lemma {:induction false} FailuresStay(es: seq<Event>, more: seq<Event>, id: nat)
    requires After(es).Some? && id < |After(es).value.instances| && After(es + more).Some?
    ensures id < |After(es + more).value.instances|
    ensures After(es + more).value.instances[id].failures >= After(es).value.instances[id].failures
  {
    if more == [] {
      assert es + more == es;
    } else {
      var all := es + more;
      var before := all[..|all| - 1];
      assert before == es + more[..|more| - 1];
      FailuresStay(es, more[..|more| - 1], id);
      FailuresKept(After(before).value, all[|all| - 1], id);
    }
  }

  /** What a failed dial leaves in the shutdown count stays there, whatever happens next, as long as
      the instance is balanced. */
  lemma {:induction false} FailedDialsNeverDrain(es: seq<Event>, more: seq<Event>, id: nat)
    requires After(es).Some? && id < |After(es).value.instances| && After(es + more).Some?
    requires Balanced(After(es + more).value, id)
    ensures After(es + more).value.instances[id].contexts >= After(es).value.instances[id].failures
  {
    FailuresStay(es, more, id);
    ContextsLeakPerFailure(es + more);
    assert ContextsOf(After(es + more).value, id);
  }
}
