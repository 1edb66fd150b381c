/** Runs of the shared connections in which something a caller might count on fails. */
module SshRuns {
  import opened Options
  import opened SshPool
  import SshKeeper

  // ----- Pieces of runs with one instance

  /** One instance, in the table and with nobody at its lock. */
  predicate Alone(s: Pool, key: string) {
    && |s.locks| == |s.instances| == 1 && s.locks[0] == None && s.global == None && s.table == map[key := 0]
  }

  /** NewSSH up to where it has the lock of the only instance. */
  lemma Entered(es: seq<Event>, s: Pool, key: string, addr: string) returns (longer: seq<Event>, t: Pool)
    requires After(es) == Some(s) && (s == EMPTY || Alone(s, key))
    ensures After(longer) == Some(t)
    ensures t == s.(
              tasks := s.tasks + [New(0, key, Inside)], locks := [Some(|s.tasks|)], table := map[key := 0],
              instances := if s == EMPTY then [Fresh(key, addr, false)] else s.instances)
  {
    longer, t := Extend(es, s, CallNew(key, addr, false));
    longer, t := Extend(longer, t, Lock(|s.tasks|));
    longer, t := Extend(longer, t, UnlockGlobal(|s.tasks|));
    assert t.tasks == s.tasks + [New(0, key, Inside)];
  }

  /** The instance a new holder has dialled. */
  function DialledBy(ins: Instance, client: nat): Instance {
    ins.(ref := ins.ref + 1, client := Some(client), contexts := ins.contexts + 1,
         loop := ins.loop.(made := ins.loop.made + 1, spawned := ins.loop.spawned + 1))
  }

  /** A whole NewSSH that dials. */
  lemma Dialled(es: seq<Event>, s: Pool, key: string, addr: string) returns (longer: seq<Event>, t: Pool)
    requires After(es) == Some(s) && addr != ""
    requires s == EMPTY || (Alone(s, key) && s.instances[0].ref <= 0 && s.instances[0].addr == addr)
    ensures After(longer) == Some(t) && Alone(t, key)
    ensures t.instances[0] == DialledBy(if s == EMPTY then Fresh(key, addr, false) else s.instances[0], |s.clients|)
    ensures t.handles == s.handles + [Handle(0, key, true)] && t.clients == s.clients + [Client(0, true)]
    ensures t.remotes == s.remotes && t.root == s.root
  {
    longer, t := Entered(es, s, key, addr);
    longer, t := Extend(longer, t, Enter(|s.tasks|));
    longer, t := Extend(longer, t, EndDial(|s.tasks|, true));
  }

  /** A whole NewSSH that shares the instance. */
  lemma SharedBy(es: seq<Event>, s: Pool, key: string) returns (longer: seq<Event>, t: Pool)
    requires After(es) == Some(s) && Alone(s, key) && s.instances[0].ref > 0
    ensures After(longer) == Some(t) && Alone(t, key)
    ensures t.instances == [s.instances[0].(ref := s.instances[0].ref + 1)]
    ensures t.handles == s.handles + [Handle(0, key, true)] && t.clients == s.clients
  {
    longer, t := Entered(es, s, key, "");
    longer, t := Extend(longer, t, Enter(|s.tasks|));
  }

  /** The keepalive of an instance that has none begins, and waits. */
  lemma Watched(es: seq<Event>, s: Pool) returns (longer: seq<Event>, t: Pool)
    requires After(es) == Some(s) && |s.locks| == |s.instances| == 1
    requires var ins := s.instances[0];
             ins.loop.spawned > 0 && ins.loop.keeper == NotStarted && !ins.skipKeep && ins.client.Some?
    ensures After(longer) == Some(t)
    ensures t == WithLoop(s, 0, s.instances[0].loop.(
              spawned := s.instances[0].loop.spawned - 1, keeper := Watching(s.instances[0].loop.made)))
  {
    longer, t := Extend(es, s, Tend(0, Begin));
    longer, t := Extend(longer, t, Tend(0, Look));
  }

  // ----- Held without a keepalive

  /** The only instance is held, connected, and has no keepalive though it wants one. */
  predicate Untended(s: Pool) {
    && |s.instances| == 1 && !s.root
    && var ins := s.instances[0];
       ins.ref == 1 && !ins.skipKeep && ins.client.Some? && !SshKeeper.Tended(ins)
  }

  /** Dialled, given up by its only holder, and dialled again after the loop has seen the end of
      the first context: the instance is held, and nothing keeps it alive. */
  lemma {:induction false} HeldUntended(key: string, addr: string) returns (es: seq<Event>)
    requires addr != ""
    ensures After(es).Some? && Untended(After(es).value)
  {
    var s := EMPTY;
    es := [];
    es, s := Dialled(es, s, key, addr);
    es, s := Watched(es, s);
    es, s := Extend(es, s, CloseHandle(0));
    es, s := Extend(es, s, Tend(0, Stop));
    es, s := Dialled(es, s, key, addr);
  }

  /** The same while its first and only holder has never closed it: the close of a remote dialled
      through it ends the context that its keepalive waits on. */
  lemma {:induction false} RemoteEndsKeepalive(key: string, addr: string) returns (es: seq<Event>)
    requires addr != ""
    ensures After(es).Some? && Untended(After(es).value) && After(es).value.handles == [Handle(0, key, true)]
  {
    var s := EMPTY;
    es := [];
    es, s := Dialled(es, s, key, addr);
    es, s := Watched(es, s);
    es, s := Extend(es, s, DialRemote(0));
    es, s := Extend(es, s, CloseRemote(0));
    es, s := Extend(es, s, Tend(0, Stop));
  }

  // ----- Surplus closes

  /** A caller that closes twice cuts off another that still holds the instance. */
  lemma {:induction false} SurplusCutsOff(key: string, addr: string) returns (es: seq<Event>)
    requires addr != ""
    ensures After(es).Some?
    ensures After(es).value.handles == [Handle(0, key, false), Handle(0, key, true)]
    ensures After(es).value.clients == [Client(0, false)]
  {
    var s := EMPTY;
    es := [];
    es, s := Dialled(es, s, key, addr);
    es, s := SharedBy(es, s, key);
    es, s := Extend(es, s, CloseHandle(0));
    es, s := Extend(es, s, CloseHandle(0));
  }

  /** After a surplus close two callers of NewSSH each dial, and both clients stay open. */
  lemma {:induction false} SurplusOpensTwo(key: string, addr: string) returns (es: seq<Event>)
    requires addr != ""
    ensures After(es).Some?
    ensures After(es).value.clients == [Client(0, false), Client(0, true), Client(0, true)]
  {
    var s := EMPTY;
    es := [];
    es, s := Dialled(es, s, key, addr);
    es, s := Extend(es, s, CloseHandle(0));
    es, s := Extend(es, s, CloseHandle(0));
    es, s := Dialled(es, s, key, addr);
    es, s := Dialled(es, s, key, addr);
  }
}
