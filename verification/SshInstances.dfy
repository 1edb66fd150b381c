/** The shared connection as an object: what each operation does to it when it runs under the
    instance's lock, and that the steps of the concurrent model run alone do the same. */
module SshInstances {
  import opened Options
  import opened Contexts
  import opened SshPool
  import SshSafety

  // ----- The operations on an instance's record

  /** NewSSH: a live instance is shared; otherwise a context is made and the client dialled, and a
      keepalive goroutine started when that succeeds. */
  function Acquired(ins: Instance, dialed: Option<nat>): Instance {
    var l := ins.loop;
    var begun := ins.(contexts := ins.contexts + 1, loop := l.(made := l.made + 1));
    if ins.ref > 0 then ins.(ref := ins.ref + 1)
    else if ins.addr == "" then begun.(failures := ins.failures + 1)
    else if dialed.None? then begun.(failures := ins.failures + 1, client := None)
    else
      begun.(client := dialed, ref := ins.ref + 1, loop := l.(made := l.made + 1, spawned := l.spawned + 1))
  }

  /** Close: the last one ends the context, unless it has ended; one by a caller that has closed
      before is surplus. */
  function Released(ins: Instance, held: bool): Instance {
    var l := ins.loop;
    var less := ins.(ref := ins.ref - 1, surplus := if held then ins.surplus else ins.surplus + 1);
    if ins.ref <= 1 && l.made !in l.done then
      less.(contexts := ins.contexts - 1, loop := l.(done := l.done + {l.made}))
    else less
  }

  /** The keepalive after a ping that failed. */
  function Renewed(ins: Instance, dialed: Option<nat>): Instance {
    if ins.ref <= 0 then Back(ins) else Back(ins).(reconnects := ins.reconnects + 1, client := dialed)
  }

  class Connection {
    ghost const id: nat
    var open: bool

    constructor (ghost id: nat)
      ensures this.id == id && open
    {
      this.id, open := id, true;
    }

    method Close()
      modifies this
      ensures !open
    {
      open := false;
    }
  }

  class SSH {
    const addr: string
    const skipKeep: bool
    ghost const key: string
    var ref: int
    var c: Connection?
    var httpCtx: HTTPContext?
    var reconnectTime: nat
    var isKeepAlive: bool
    ghost var loop: Loop
    ghost var contexts: int
    ghost var failures: nat
    ghost var surplus: nat

    ghost function View(): Instance
      reads this
    {
      Instance(
        key, addr, skipKeep, ref, if c == null then None else Some(c.id), reconnectTime, loop, contexts, failures,
        surplus)
    }

    /** The current context is the last one made, and is done when it was cancelled. */
    ghost predicate Valid(scx: SignalContext)
      reads this, httpCtx, scx, set ctx | ctx in scx.contexts
    {
      && scx.Valid()
      && (forall m :: m in loop.done ==> m <= loop.made)
      && (ref > 0 ==> httpCtx != null)
      && (httpCtx != null ==> httpCtx in scx.contexts && (httpCtx.isCanceled <==> loop.made in loop.done))
      && (isKeepAlive <==> loop.keeper != NotStarted)
    }

    /** A client is open only while the instance is held. */
    ghost predicate Balanced()
      reads this, c
    {
      ref >= 0 && (ref == 0 && c != null ==> !c.open)
    }

    constructor (ghost key: string, addr: string, skipKeep: bool)
      ensures View() == Fresh(key, addr, skipKeep) && c == null && httpCtx == null && !isKeepAlive
    {
      this.key, this.addr, this.skipKeep := key, addr, skipKeep;
      ref, c, httpCtx, reconnectTime, isKeepAlive := 0, null, null, 0, false;
      loop, contexts, failures, surplus := UNTENDED, 0, 0, 0;
    }

    /** Dial; null stands for a dial that failed. */
    method Dial(dialed: Connection?) returns (ok: bool)
      modifies this`c, this`ref, this`loop
      ensures ok <==> addr != "" && dialed != null
      ensures c == (if addr == "" then old(c) else dialed)
      ensures ref == old(ref) + (if ok then 1 else 0)
      ensures loop == old(loop).(spawned := old(loop.spawned) + if ok then 1 else 0)
    {
      if addr == "" {
        return false;
      }
      c := dialed;
      ok := dialed != null;
      if ok {
        loop := loop.(spawned := loop.spawned + 1);
        ref := ref + 1;
      }
    }

    method MakeContext(scx: SignalContext)
      requires scx.Valid()
      modifies this`httpCtx, this`contexts, this`loop, scx
      ensures scx.Valid() && httpCtx != null && !httpCtx.isCanceled && httpCtx in scx.contexts
      ensures View() == old(View()).(contexts := old(contexts) + 1, loop := old(loop).(made := old(loop.made) + 1))
      ensures scx.count == old(scx.count) + 1
    {
      httpCtx := NewHTTPContext(scx);
      contexts, loop := contexts + 1, loop.(made := loop.made + 1);
    }

    /** NewSSH for an instance that nobody holds: a context of its own, then the dial. */
    method DialAnew(scx: SignalContext, dialed: Connection?) returns (ok: bool)
      requires Valid(scx) && ref <= 0 && (dialed != null ==> dialed.open && dialed != c)
      modifies this, scx
      ensures Valid(scx) && ok == (addr != "" && dialed != null)
      ensures old(Balanced()) ==> Balanced()
      ensures View() == Acquired(old(View()), if dialed == null then None else Some(dialed.id))
      ensures scx.count == old(scx.count) + 1
    {
      MakeContext(scx);
      ok := Dial(dialed);
      if !ok {
        failures := failures + 1;
      }
    }

    /** NewSSH from where it has the instance's lock. */
    method Acquire(scx: SignalContext, dialed: Connection?) returns (ok: bool)
      requires Valid(scx) && (dialed != null ==> dialed.open && dialed != c)
      modifies this, scx
      ensures Valid(scx) && ok == (old(ref) > 0 || (addr != "" && dialed != null))
      ensures old(Balanced()) ==> Balanced()
      ensures View() == Acquired(old(View()), if dialed == null then None else Some(dialed.id))
      ensures scx.count - contexts == old(scx.count - contexts)
    {
      if ref > 0 {
        ref := ref + 1;
        return true;
      }
      ok := DialAnew(scx, dialed);
    }

    /** The current context is cancelled, which counts once. */
    method CancelContext(scx: SignalContext)
      requires Valid(scx) && httpCtx != null
      modifies this`contexts, this`loop, httpCtx`isCanceled, scx`count
      ensures Valid(scx) && View() == Cancelled(old(View()), old(loop.made))
      ensures scx.count - contexts == old(scx.count - contexts)
    {
      if !httpCtx.isCanceled {
        contexts, loop := contexts - 1, loop.(done := loop.done + {loop.made});
      }
      httpCtx.Cancel(scx);
    }

    /** Close, for any caller that NewSSH gave the instance to; held says whether he has not closed
        it before. */
    method Close(scx: SignalContext, ghost held: bool)
      requires Valid(scx) && httpCtx != null
      modifies this`ref, this`contexts, this`loop, this`surplus, c, httpCtx`isCanceled, scx`count
      ensures Valid(scx) && View() == Released(old(View()), held)
      ensures c != null ==> c.open == (old(c.open) && ref > 0)
      ensures scx.count - contexts == old(scx.count - contexts)
      ensures old(Balanced()) && old(ref) > 0 ==> Balanced()
    {
      ref := ref - 1;
      surplus := if held then surplus else surplus + 1;
      if ref <= 0 {
        CancelContext(scx);
        if c != null {
          c.Close();
        }
      }
    }

    /** The first lines of the keepalive goroutine; whether it goes on to its loop. */
    method BeginKeepalive() returns (stays: bool)
      requires loop.spawned > 0 && (isKeepAlive <==> loop.keeper != NotStarted)
      modifies this`isKeepAlive, this`loop
      ensures View() == old(View()).(loop := Stepped(old(View()), Begin))
      ensures stays == (old(loop.keeper) == NotStarted && loop.keeper == Looking)
      ensures stays <==> old(loop.keeper) == NotStarted && !skipKeep && c != null
      ensures isKeepAlive <==> loop.keeper != NotStarted
    {
      loop := loop.(spawned := loop.spawned - 1);
      if isKeepAlive || skipKeep || c == null {
        return false;
      }
      isKeepAlive := true;
      loop := loop.(keeper := Looking);
      return true;
    }

    /** One round of the keepalive. */
    method Keep(ghost scx: SignalContext, pingOk: bool, dialed: Connection?)
      requires Valid(scx) && loop.keeper.Watching?
      modifies this`c, this`reconnectTime, this`loop, c
      ensures Valid(scx) && (old(Balanced()) ==> Balanced())
      ensures View() == if pingOk then old(View()).(loop := Stepped(old(View()), PingSucceeds))
                        else Renewed(old(View()), if dialed == null then None else Some(dialed.id))
      ensures !pingOk && old(ref) > 0 && old(c) != null && old(c) != dialed ==> !old(c).open
      ensures if !pingOk && old(ref) > 0 then c == dialed && reconnectTime == old(reconnectTime) + 1
              else c == old(c) && reconnectTime == old(reconnectTime)
    {
      loop := loop.(keeper := Looking);
      if pingOk {
        return;
      }
      if ref <= 0 {
        return;
      }
      if c != null {
        c.Close();
      }
      reconnectTime := reconnectTime + 1;
      c := dialed;
    }
  }

  // ----- The steps of the concurrent model, run alone

  /** Nobody holds a lock and nobody is under way. */
  ghost predicate Quiet(s: Pool) {
    SshSafety.Owned(s) && s.global == None && forall id :: 0 <= id < |s.locks| ==> s.locks[id] == None
  }

  /** The instance a key will get: the one in the table, or a new one. */
  function IdFor(s: Pool, key: string): nat {
    if key in s.table then s.table[key] else |s.instances|
  }

  function RecordFor(s: Pool, key: string, addr: string, skipKeep: bool): Instance
    requires key in s.table ==> s.table[key] < |s.instances|
  {
    if key in s.table then s.instances[s.table[key]] else Fresh(key, addr, skipKeep)
  }

  /** The instances before the lock is taken: a new one is put into the table. */
  function ListedFor(s: Pool, key: string, addr: string, skipKeep: bool): seq<Instance> {
    if key in s.table then s.instances else s.instances + [Fresh(key, addr, skipKeep)]
  }

  /** The steps of NewSSH up to where it has the instance's lock alone. */
  function CallSteps(s: Pool, key: string, addr: string, skipKeep: bool): seq<Event> {
    [] + [CallNew(key, addr, skipKeep)] + [Lock(|s.tasks|)] + [UnlockGlobal(|s.tasks|)]
  }

  lemma CallAlone(s: Pool, key: string, addr: string, skipKeep: bool) returns (t: Pool)
    requires Quiet(s) && (key in s.table ==> s.table[key] < |s.instances|)
    ensures From(s, CallSteps(s, key, addr, skipKeep)) == Some(t)
    ensures t.instances == ListedFor(s, key, addr, skipKeep) && |t.clients| == |s.clients|
    ensures |t.tasks| == |s.tasks| + 1 && t.tasks[|s.tasks|] == New(IdFor(s, key), key, Inside)
    ensures |t.locks| == |t.instances| && IdFor(s, key) < |t.instances|
    ensures t.instances[IdFor(s, key)] == RecordFor(s, key, addr, skipKeep)
  {
    t := OneStep(s, [], s, CallNew(key, addr, skipKeep));
    t := OneStep(s, [] + [CallNew(key, addr, skipKeep)], t, Lock(|s.tasks|));
    t := OneStep(s, [] + [CallNew(key, addr, skipKeep)] + [Lock(|s.tasks|)], t, UnlockGlobal(|s.tasks|));
  }

  /** A task inside its instance's lock. */
  ghost predicate IsInside(s: Pool, i: nat) {
    i < |s.tasks| && s.tasks[i].stage == Inside && s.tasks[i].id < |s.instances| == |s.locks|
  }

  lemma InsideAcquires(s: Pool, i: nat, ok: bool)
    requires IsInside(s, i) && s.tasks[i].New? && (ok ==> s.instances[s.tasks[i].id].addr != "")
    ensures Enabled(s, Enter(i))
    ensures var id := s.tasks[i].id;
            var entered := Next(s, Enter(i));
            var made := Acquired(s.instances[id], if ok then Some(|s.clients|) else None);
            if s.instances[id].ref > 0 then entered.instances == s.instances[id := made]
            else Enabled(entered, EndDial(i, ok)) && Next(entered, EndDial(i, ok)).instances == s.instances[id := made]
  {
    if s.instances[s.tasks[i].id].ref <= 0 {
      assert Next(s, Enter(i)).tasks[i].stage == Dialing;
    }
  }

  lemma InsideRenews(s: Pool, i: nat, ok: bool)
    requires IsInside(s, i) && s.tasks[i].Keep? && (ok ==> s.instances[s.tasks[i].id].addr != "")
    ensures Enabled(s, Enter(i))
    ensures var id := s.tasks[i].id;
            var entered := Next(s, Enter(i));
            var made := Renewed(s.instances[id], if ok then Some(|s.clients|) else None);
            if s.instances[id].ref <= 0 then entered.instances == s.instances[id := made]
            else Enabled(entered, EndDial(i, ok)) && Next(entered, EndDial(i, ok)).instances == s.instances[id := made]
  {
    if s.instances[s.tasks[i].id].ref > 0 {
      assert Next(s, Enter(i)).tasks[i].stage == Dialing;
    }
  }

  /** The steps of NewSSH: an instance that somebody holds is shared, another one is dialled. */
  function NewSteps(s: Pool, key: string, addr: string, skipKeep: bool, ok: bool): seq<Event>
    requires key in s.table ==> s.table[key] < |s.instances|
  {
    var entered := CallSteps(s, key, addr, skipKeep) + [Enter(|s.tasks|)];
    if RecordFor(s, key, addr, skipKeep).ref > 0 then entered else entered + [EndDial(|s.tasks|, ok)]
  }

  /** NewSSH alone, for a key in the table or a new one: the instance becomes what the method makes
      it. */
  lemma {:induction false} AcquireAlone(s: Pool, key: string, addr: string, skipKeep: bool, ok: bool) returns (t: Pool)
    requires Quiet(s) && (key in s.table ==> s.table[key] < |s.instances|)
    requires ok ==> RecordFor(s, key, addr, skipKeep).addr != ""
    ensures From(s, NewSteps(s, key, addr, skipKeep, ok)) == Some(t)
    ensures IdFor(s, key) < |ListedFor(s, key, addr, skipKeep)|
    ensures t.instances == ListedFor(s, key, addr, skipKeep)[
              IdFor(s, key) := Acquired(
                RecordFor(s, key, addr, skipKeep), if ok then Some(|s.clients|) else None)]
  {
    var i := |s.tasks|;
    var inside := CallAlone(s, key, addr, skipKeep);
    InsideAcquires(inside, i, ok);
    t := OneStep(s, CallSteps(s, key, addr, skipKeep), inside, Enter(i));
    if RecordFor(s, key, addr, skipKeep).ref <= 0 {
      t := OneStep(s, CallSteps(s, key, addr, skipKeep) + [Enter(i)], t, EndDial(i, ok));
    }
  }

  /** Close, the beginning of a keepalive and one round of it, alone. */
  lemma {:induction false} ReleaseAlone(s: Pool, h: nat)
    requires Quiet(s) && h < |s.handles|
    ensures Enabled(s, CloseHandle(h))
    ensures var id := s.handles[h].id;
            Next(s, CloseHandle(h)).instances == s.instances[id := Released(s.instances[id], s.handles[h].held)]
  {
  }

  /** A round of the keepalive up to where it has the lock. */
  lemma RoundBegins(s: Pool, id: nat) returns (t: Pool)
    requires Quiet(s) && id < |s.instances| && s.instances[id].loop.keeper.Watching?
    ensures From(s, [] + [PingFails(id)] + [Lock(|s.tasks|)]) == Some(t)
    ensures IsInside(t, |s.tasks|) && t.tasks[|s.tasks|] == Keep(id, Inside) && |t.clients| == |s.clients|
    ensures t.instances == s.instances[
              id := s.instances[id].(loop := s.instances[id].loop.(keeper := Pinging))]
  {
    t := OneStep(s, [], s, PingFails(id));
    t := OneStep(s, [] + [PingFails(id)], t, Lock(|s.tasks|));
  }

  function RenewSteps(s: Pool, id: nat, ok: bool): seq<Event>
    requires id < |s.instances|
  {
    var entered := [] + [PingFails(id)] + [Lock(|s.tasks|)] + [Enter(|s.tasks|)];
    if s.instances[id].ref <= 0 then entered else entered + [EndDial(|s.tasks|, ok)]
  }

  lemma {:induction false} RenewAlone(s: Pool, id: nat, ok: bool) returns (t: Pool)
    requires Quiet(s) && id < |s.instances| && (ok ==> s.instances[id].addr != "")
    requires s.instances[id].loop.keeper.Watching?
    ensures From(s, RenewSteps(s, id, ok)) == Some(t)
    ensures t.instances == s.instances[
              id := Renewed(s.instances[id], if ok then Some(|s.clients|) else None)]
  {
    var i := |s.tasks|;
    t := RoundBegins(s, id);
    InsideRenews(t, i, ok);
    t := OneStep(s, [] + [PingFails(id)] + [Lock(i)], t, Enter(i));
    if s.instances[id].ref > 0 {
      t := OneStep(s, [] + [PingFails(id)] + [Lock(i)] + [Enter(i)], t, EndDial(i, ok));
    }
  }
}
