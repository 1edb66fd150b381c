/** Shared SSH connections: a table of instances under a global lock, each instance with a
    reference count and a client under a lock of its own, and a keepalive that reconnects. */
module SshPool {
  import opened Options
  import opened Seqs

  /** The keepalive loop of an instance: about to wait, waiting for its timer or for the end of
      the context it looked up, or pinging. */
  datatype Keeper = NotStarted | Looking | Watching(context: nat) | Pinging | Stopped

  /** What concerns the keepalive: the loop, the goroutines started and not yet run, and the
      contexts of the instance, numbered as they are made, the last one being the current one;
      done holds those that were cancelled. */
  datatype Loop = Loop(keeper: Keeper, spawned: nat, made: nat, done: set<nat>)

  /** One instance. contexts counts the contexts made for it and not cancelled, failures the dials
      of NewSSH that failed, surplus the closes by callers that had closed it before. */
  datatype Instance = Instance(
    key: string,
    addr: string,
    skipKeep: bool,
    ref: int,
    client: Option<nat>,
    reconnects: nat,
    loop: Loop,
    contexts: int,
    failures: nat,
    surplus: nat)

  const UNTENDED := Loop(NotStarted, 0, 0, {})

  function Fresh(key: string, addr: string, skipKeep: bool): Instance {
    Instance(key, addr, skipKeep, 0, None, 0, UNTENDED, 0, 0, 0)
  }

  /** A client ever dialled, the instance it was dialled for, and whether it is still open. */
  datatype Client = Client(owner: nat, open: bool)

  /** What a successful NewSSH gave its caller; Close gives it back. */
  datatype Handle = Handle(id: nat, key: string, held: bool)

  /** A connection to another server through instance id: it shares the context the instance had
      when it was dialled. */
  datatype Remote = Remote(id: nat, context: nat)

  datatype Stage = WantLock | HasBoth | Inside | Dialing | Finished

  datatype Task = New(id: nat, key: string, stage: Stage) | Keep(id: nat, stage: Stage)

  datatype Pool = Pool(
    table: map<string, nat>,
    instances: seq<Instance>,
    clients: seq<Client>,
    handles: seq<Handle>,
    remotes: seq<Remote>,
    tasks: seq<Task>,
    global: Option<nat>,
    locks: seq<Option<nat>>,
    root: bool)

  const EMPTY := Pool(map[], [], [], [], [], [], None, [], false)

  datatype Event =
    | CallNew(key: string, addr: string, skipKeep: bool)
    | Lock(t: nat)
    | UnlockGlobal(t: nat)
    | Enter(t: nat)
    | EndDial(t: nat, ok: bool)
    | CloseHandle(h: nat)
    | DialRemote(h: nat)
    | CloseRemote(r: nat)
    | Drop(c: nat)
    | RootCancel
    | Tend(id: nat, step: Step)
    | PingFails(id: nat)

  /** The steps a keepalive takes by itself: its goroutine begins, it looks up the context and
      waits, its ping succeeds, or it stops because the context has ended. */
  datatype Step = Begin | Look | PingSucceeds | Stop

  /** The context the keepalive waits on has ended: Close cancelled it, or the root was. */
  predicate Ended(root: bool, l: Loop) {
    l.keeper.Watching? && (root || l.keeper.context in l.done)
  }

  predicate CanStep(root: bool, l: Loop, step: Step) {
    match step
    case Begin => l.spawned > 0
    case Look => l.keeper == Looking
    case PingSucceeds => l.keeper.Watching?
    case Stop => Ended(root, l)
  }

  /** A goroutine that begins leaves at once when another has begun, when no loop is wanted, or
      when there is no client. */
  function Stepped(ins: Instance, step: Step): Loop
    requires step.Begin? ==> ins.loop.spawned > 0
  {
    var l := ins.loop;
    match step
    case Begin =>
      var stays := l.keeper == NotStarted && !ins.skipKeep && ins.client.Some?;
      l.(spawned := l.spawned - 1, keeper := if stays then Looking else l.keeper)
    case Look => l.(keeper := Watching(l.made))
    case PingSucceeds => l.(keeper := Looking)
    case Stop => l.(keeper := Stopped)
  }

  predicate Enabled(s: Pool, e: Event) {
    && |s.locks| == |s.instances|
    && match e
       case CallNew(key, _, _) => s.global == None && (key in s.table ==> s.table[key] < |s.instances|)
       case Lock(t) =>
         && t < |s.tasks| && s.tasks[t].id < |s.locks| && s.tasks[t].stage == WantLock
         && s.locks[s.tasks[t].id] == None
       case UnlockGlobal(t) => t < |s.tasks| && s.tasks[t].stage == HasBoth
       case Enter(t) => t < |s.tasks| && s.tasks[t].id < |s.instances| && s.tasks[t].stage == Inside
       case EndDial(t, ok) =>
         && t < |s.tasks| && s.tasks[t].id < |s.instances| && s.tasks[t].stage == Dialing
         && (ok ==> s.instances[s.tasks[t].id].addr != "")
       case CloseHandle(h) =>
         && h < |s.handles| && s.handles[h].id < |s.locks|
         && s.locks[s.handles[h].id] == None
       case DialRemote(h) => h < |s.handles| && s.handles[h].held && s.handles[h].id < |s.instances|
       case CloseRemote(r) => r < |s.remotes| && s.remotes[r].id < |s.instances|
       case Drop(c) => c < |s.clients|
       case RootCancel => true
       case Tend(id, step) => id < |s.instances| && CanStep(s.root, s.instances[id].loop, step)
       case PingFails(id) => id < |s.instances| && s.instances[id].loop.keeper.Watching?
  }

  function WithStage(s: Pool, t: nat, stage: Stage): Pool
    requires t < |s.tasks|
  {
    s.(tasks := s.tasks[t := s.tasks[t].(stage := stage)])
  }

  function Unlocked(s: Pool, id: nat): Pool
    requires id < |s.locks|
  {
    s.(locks := s.locks[id := None])
  }

  function Shut(s: Pool, client: Option<nat>): seq<Client> {
    if client.Some? && client.value < |s.clients|
    then s.clients[client.value := s.clients[client.value].(open := false)] else s.clients
  }

  /** The instance found or made for a key; the caller then waits for its lock while holding
      the global one. */
  function Find(s: Pool, key: string, addr: string, skipKeep: bool): Pool
    requires |s.locks| == |s.instances|
  {
    var id := if key in s.table then s.table[key] else |s.instances|;
    var t := s.(tasks := s.tasks + [New(id, key, WantLock)], global := Some(|s.tasks|));
    if key in s.table then t
    else t.(
      table := s.table[key := id],
      instances := s.instances + [Fresh(key, addr, skipKeep)],
      locks := s.locks + [None])
  }

  /** NewSSH inside the lock: a live instance is shared, another is dialled. */
  function EnterNew(s: Pool, t: nat): Pool
    requires t < |s.tasks| && s.tasks[t].New? && s.tasks[t].id < |s.instances| == |s.locks|
  {
    var id := s.tasks[t].id;
    var ins := s.instances[id];
    if ins.ref > 0 then
      Unlocked(WithStage(s, t, Finished), id).(
        instances := s.instances[id := ins.(ref := ins.ref + 1)],
        handles := s.handles + [Handle(id, s.tasks[t].key, true)])
    else
      WithStage(s, t, Dialing).(
        instances := s.instances[id := ins.(
          contexts := ins.contexts + 1, loop := ins.loop.(made := ins.loop.made + 1))])
  }

  function EndNew(s: Pool, t: nat, ok: bool): Pool
    requires t < |s.tasks| && s.tasks[t].New? && s.tasks[t].id < |s.instances| == |s.locks|
  {
    var id := s.tasks[t].id;
    var ins := s.instances[id];
    var u := Unlocked(WithStage(s, t, Finished), id);
    if ok then
      u.(
        instances := s.instances[id := ins.(
          client := Some(|s.clients|), ref := ins.ref + 1,
          loop := ins.loop.(spawned := ins.loop.spawned + 1))],
        clients := s.clients + [Client(id, true)],
        handles := s.handles + [Handle(id, s.tasks[t].key, true)])
    else
      u.(instances := s.instances[id := ins.(
           client := if ins.addr == "" then ins.client else None, failures := ins.failures + 1)])
  }

  /** A round of the keepalive is over. */
  function Back(ins: Instance): Instance { ins.(loop := ins.loop.(keeper := Looking)) }

  /** The keepalive inside the lock, its ping having failed: a closed instance is left alone,
      another has its client closed and is dialled again. */
  function EnterKeep(s: Pool, t: nat): Pool
    requires t < |s.tasks| && s.tasks[t].Keep? && s.tasks[t].id < |s.instances| == |s.locks|
  {
    var id := s.tasks[t].id;
    var ins := s.instances[id];
    if ins.ref <= 0 then
      Unlocked(WithStage(s, t, Finished), id).(instances := s.instances[id := Back(ins)])
    else
      WithStage(s, t, Dialing).(
        instances := s.instances[id := ins.(reconnects := ins.reconnects + 1)],
        clients := Shut(s, ins.client))
  }

  function EndKeep(s: Pool, t: nat, ok: bool): Pool
    requires t < |s.tasks| && s.tasks[t].Keep? && s.tasks[t].id < |s.instances| == |s.locks|
  {
    var id := s.tasks[t].id;
    var u := Unlocked(WithStage(s, t, Finished), id);
    if ok then
      u.(instances := s.instances[id := Back(s.instances[id]).(client := Some(|s.clients|))],
         clients := s.clients + [Client(id, true)])
    else
      u.(instances := s.instances[id := Back(s.instances[id]).(client := None)])
  }

  /** A context counts once, however often it is cancelled. */
  function Cancelled(ins: Instance, context: nat): Instance {
    if context in ins.loop.done then ins
    else ins.(contexts := ins.contexts - 1, loop := ins.loop.(done := ins.loop.done + {context}))
  }

  /** Close, by a holder or by a caller that has closed the instance before. */
  function Closing(s: Pool, h: nat): Pool
    requires h < |s.handles| && s.handles[h].id < |s.instances|
  {
    var id := s.handles[h].id;
    var ins := s.instances[id];
    var last := ins.ref - 1 <= 0;
    var less := ins.(ref := ins.ref - 1, surplus := ins.surplus + if s.handles[h].held then 0 else 1);
    s.(
      handles := s.handles[h := s.handles[h].(held := false)],
      instances := s.instances[id := if last then Cancelled(less, less.loop.made) else less],
      clients := if last then Shut(s, ins.client) else s.clients)
  }

  /** The close of a connection to another server cancels the context it shares. */
  function ClosingRemote(s: Pool, r: nat): Pool
    requires r < |s.remotes| && s.remotes[r].id < |s.instances|
  {
    var remote := s.remotes[r];
    s.(instances := s.instances[remote.id := Cancelled(s.instances[remote.id], remote.context)])
  }

  function WithLoop(s: Pool, id: nat, l: Loop): Pool
    requires id < |s.instances|
  {
    s.(instances := s.instances[id := s.instances[id].(loop := l)])
  }

  function Next(s: Pool, e: Event): Pool
    requires Enabled(s, e)
  {
    match e
    case CallNew(key, addr, skipKeep) => Find(s, key, addr, skipKeep)
    case Lock(t) =>
      var id := s.tasks[t].id;
      WithStage(s, t, if s.tasks[t].New? then HasBoth else Inside).(locks := s.locks[id := Some(t)])
    case UnlockGlobal(t) => WithStage(s, t, Inside).(global := None)
    case Enter(t) => if s.tasks[t].New? then EnterNew(s, t) else EnterKeep(s, t)
    case EndDial(t, ok) => if s.tasks[t].New? then EndNew(s, t, ok) else EndKeep(s, t, ok)
    case CloseHandle(h) => Closing(s, h)
    case DialRemote(h) =>
      s.(remotes := s.remotes + [Remote(s.handles[h].id, s.instances[s.handles[h].id].loop.made)])
    case CloseRemote(r) => ClosingRemote(s, r)
    case Drop(c) => s.(clients := s.clients[c := s.clients[c].(open := false)])
    case RootCancel => s.(root := true)
    case Tend(id, step) => WithLoop(s, id, Stepped(s.instances[id], step))
    case PingFails(id) =>
      WithLoop(s, id, s.instances[id].loop.(keeper := Pinging)).(tasks := s.tasks + [Keep(id, WantLock)])
  }

  /** The pool after a sequence of events, if each was possible in its turn. */
  function Taken(s: Pool, e: Event): Option<Pool> {
    if Enabled(s, e) then Some(Next(s, e)) else None
  }

  function From(s: Pool, es: seq<Event>): Option<Pool> { Folded(s, es, Taken) }

  function After(es: seq<Event>): Option<Pool> { From(EMPTY, es) }

  lemma OneStep(s: Pool, es: seq<Event>, t: Pool, e: Event) returns (u: Pool)
    requires From(s, es) == Some(t) && Enabled(t, e)
    ensures From(s, es + [e]) == Some(u) && u == Next(t, e)
  {
    assert (es + [e])[..|es|] == es;
    u := Next(t, e);
  }

  lemma Extend(es: seq<Event>, s: Pool, e: Event) returns (longer: seq<Event>, t: Pool)
    requires After(es) == Some(s) && Enabled(s, e)
    ensures longer == es + [e] && After(longer) == Some(t) && t == Next(s, e)
  {
    longer := es + [e];
    t := OneStep(EMPTY, es, s, e);
  }
}
