/** The balancer under concurrency. Every atomic load, store, swap, add and compare-and-swap
    is a step of its own; a pick holds the lock from its first step to its last, and any
    number of completions run beside it. */
module P2cMachine {
  import opened P2cArithmetic
  import opened Options
  import opened Seqs

  /** Where the pick that holds the lock has got to. */
  datatype Picking =
    | Idle
    | LoadLag1(c1: nat, c2: nat, start: int)
    | LoadInflight1(c1: nat, c2: nat, start: int, lag: nat)
    | LoadLag2(c1: nat, c2: nat, start: int, load1: int)
    | LoadInflight2(c1: nat, c2: nat, start: int, load1: int, lag: nat)
    | LoadPick(c1: nat, c2: nat, start: int)
    | SwapPick(c1: nat, c2: nat, start: int, pick: int)
    | StorePick(c1: nat, other: Option<nat>, start: int)
    | AddInflight(c: nat)
    | AddRequests(c: nat)
    | BuildDone(c: nat)

  /** Where the completion of one request has got to. */
  datatype Progress =
    | Pending
    | ReadClock
    | SwapLast(now: int)
    | LoadLag(now: int, w: real)
    | StoreLag(now: int, w: real, olag: nat)
    | LoadSuccess(now: int, w: real)
    | StoreSuccess(now: int, w: real, osucc: nat)
    | LoadStamp(now: int)
    | SwapStamp(now: int, stamp: int)
    | WantLock
    | Logging(next: nat)
    | Ended

  /** One request handed out by a pick. */
  datatype Call = Call(conn: nat, start: int, progress: Progress)

  datatype Lock = Free | HeldByPick | HeldByLog(call: nat)

  /** One decision of a pick. */
  datatype Choice = Choice(conn: nat, start: int)

  /** seen, flushed, stamps and choices record the past: the latencies stored, the request
      counts logged, the stamps swapped in and the decisions made. */
  datatype Machine = Machine(
    conns: seq<Conn>,
    stamp: int,
    lock: Lock,
    picking: Picking,
    calls: seq<Call>,
    seen: seq<seq<nat>>,
    flushed: seq<int>,
    stamps: seq<int>,
    choices: seq<Choice>)

  function Start(n: nat): Machine {
    Machine(seq(n, _ => READY), 0, Free, Idle, [], seq(n, _ => []), seq(n, _ => 0), [], [])
  }

  datatype Event =
    | PickOne(start: int)
    | PickPair(c1: nat, c2: nat, start: int)
    | Pick
    | PickEnds(start: int)
    | Complete(i: nat, now: int, w: real, acceptable: bool)

  /** A pick begins with the lock free: with one connection it takes that one, with two it
      compares the first with the second, with more it compares two different ones. */
  ghost predicate Enabled(s: Machine, e: Event) {
    match e
    case PickOne(start) => s.lock == Free && s.picking == Idle && |s.conns| == 1 && ClockValue(start)
    case PickPair(c1, c2, start) =>
      && s.lock == Free && s.picking == Idle && c1 < |s.conns| && c2 < |s.conns| && c1 != c2
      && (|s.conns| == 2 ==> c1 == 0) && ClockValue(start)
    case Pick => s.picking != Idle && !s.picking.BuildDone? && PickingFits(s)
    case PickEnds(start) => s.picking.BuildDone? && ClockValue(start)
    case Complete(i, now, w, _) =>
      && i < |s.calls| && s.calls[i].conn < |s.conns| && !s.calls[i].progress.Ended?
      && (s.calls[i].progress.WantLock? ==> s.lock == Free)
      && ClockValue(now) && Weight(w) && ProgressFits(s, s.calls[i].progress)
      && |s.seen| == |s.flushed| == |s.conns|
  }

  predicate PickingFits(s: Machine) {
    var n := |s.conns|;
    match s.picking
    case Idle => true
    case LoadLag1(c1, c2, _) => c1 < n && c2 < n
    case LoadInflight1(c1, c2, _, _) => c1 < n && c2 < n
    case LoadLag2(c1, c2, _, _) => c1 < n && c2 < n
    case LoadInflight2(c1, c2, _, _, _) => c1 < n && c2 < n
    case LoadPick(c1, c2, _) => c1 < n && c2 < n
    case SwapPick(c1, c2, _, _) => c1 < n && c2 < n
    case StorePick(c1, other, _) => c1 < n && (other.Some? ==> other.value < n)
    case AddInflight(c) => c < n
    case AddRequests(c) => c < n
    case BuildDone(c) => c < n
  }

  predicate ProgressFits(s: Machine, p: Progress) {
    HasWeight(p) && (p.Logging? ==> p.next <= |s.conns|)
  }

  predicate HasWeight(p: Progress) {
    p.LoadLag? || p.StoreLag? || p.LoadSuccess? || p.StoreSuccess? ==> Weight(p.w)
  }

  ghost function Next(s: Machine, e: Event): Machine
    requires Enabled(s, e)
  {
    match e
    case PickOne(start) => s.(lock := HeldByPick, picking := StorePick(0, None, start))
    case PickPair(c1, c2, start) => s.(lock := HeldByPick, picking := LoadLag1(c1, c2, start))
    case Pick => PickStep(s)
    case PickEnds(start) =>
      s.(lock := Free, picking := Idle, calls := s.calls + [Call(s.picking.c, start, Pending)])
    case Complete(i, now, w, acceptable) => CompleteStep(s, i, now, w, acceptable)
  }

  /** One atomic step of choose, then the two counters. */
  function PickStep(s: Machine): Machine
    requires s.picking != Idle && !s.picking.BuildDone? && PickingFits(s)
  {
    match s.picking
    case LoadLag1(c1, c2, start) => s.(picking := LoadInflight1(c1, c2, start, s.conns[c1].lag))
    case LoadInflight1(c1, c2, start, lag) =>
      s.(picking := LoadLag2(c1, c2, start, LoadOf(lag, s.conns[c1].inflight)))
    case LoadLag2(c1, c2, start, load1) =>
      s.(picking := LoadInflight2(c1, c2, start, load1, s.conns[c2].lag))
    case LoadInflight2(c1, c2, start, load1, lag) =>
      s.(picking := if load1 > LoadOf(lag, s.conns[c2].inflight)
                    then LoadPick(c2, c1, start) else LoadPick(c1, c2, start))
    case LoadPick(c1, c2, start) =>
      var pick := s.conns[c2].pick;
      s.(picking := if start - pick > FORCE_PICK
                    then SwapPick(c1, c2, start, pick) else StorePick(c1, Some(c2), start))
    case SwapPick(c1, c2, start, pick) =>
      if s.conns[c2].pick == pick then Chosen(s, c2, start)
      else s.(picking := StorePick(c1, Some(c2), start))
    case StorePick(c1, _, start) => Chosen(s, c1, start)
    case AddInflight(c) =>
      s.(conns := s.conns[c := s.conns[c].(inflight := s.conns[c].inflight + 1)], picking := AddRequests(c))
    case AddRequests(c) =>
      s.(conns := s.conns[c := s.conns[c].(requests := s.conns[c].requests + 1)], picking := BuildDone(c))
  }

  function Chosen(s: Machine, c: nat, start: int): Machine
    requires c < |s.conns|
  {
    s.(conns := s.conns[c := s.conns[c].(pick := start)],
       choices := s.choices + [Choice(c, start)],
       picking := AddInflight(c))
  }

  /** What the completion's next atomic step does to its own connection. */
  function OwnConn(conn: Conn, call: Call, acceptable: bool): Conn
    requires HasWeight(call.progress)
  {
    match call.progress
    case Pending => conn.(inflight := conn.inflight - 1)
    case SwapLast(t) => conn.(last := t)
    case StoreLag(t, w, olag) => conn.(lag := Blend(olag, Clamp(t - call.start), w))
    case StoreSuccess(_, w, osucc) => conn.(success := Blend(osucc, if acceptable then INIT_SUCCESS else 0, w))
    case _ => conn
  }

  /** Where the completion stands after that step, given what the step reads. */
  function OwnProgress(p: Progress, conn: Conn, stamp: int, now: int, w: real): Progress {
    match p
    case Pending => ReadClock
    case ReadClock => SwapLast(now)
    case SwapLast(t) => LoadLag(t, w)
    case LoadLag(t, v) => StoreLag(t, WeightFor(conn.lag, v), conn.lag)
    case StoreLag(t, v, _) => LoadSuccess(t, v)
    case LoadSuccess(t, v) => StoreSuccess(t, v, conn.success)
    case StoreSuccess(t, _, _) => LoadStamp(t)
    case LoadStamp(t) => if t - stamp >= LOG_INTERVAL then SwapStamp(t, stamp) else Ended
    case SwapStamp(t, expected) => if stamp == expected then WantLock else Ended
    case WantLock => Logging(0)
    case _ => Ended
  }

  predicate Swaps(p: Progress, stamp: int) {
    p.SwapStamp? && p.stamp == stamp
  }

  /** One atomic step of the function that completes call i. */
  function CompleteStep(s: Machine, i: nat, now: int, w: real, acceptable: bool): Machine
    requires i < |s.calls| && s.calls[i].conn < |s.conns|
    requires Weight(w) && ProgressFits(s, s.calls[i].progress)
    requires |s.seen| == |s.flushed| == |s.conns|
  {
    var call := s.calls[i];
    var p := call.progress;
    if p.Logging? then LogStep(s, i, p.next)
    else s.(
      conns := s.conns[call.conn := OwnConn(s.conns[call.conn], call, acceptable)],
      calls := s.calls[i := call.(progress := OwnProgress(p, s.conns[call.conn], s.stamp, now, w))],
      seen := if p.StoreLag?
              then s.seen[call.conn := s.seen[call.conn] + [Clamp(p.now - call.start)]] else s.seen,
      stamp := if Swaps(p, s.stamp) then p.now else s.stamp,
      stamps := if Swaps(p, s.stamp) then s.stamps + [p.now] else s.stamps,
      lock := if p.WantLock? then HeldByLog(i) else s.lock)
  }

  /** Call i, holding the lock, swaps the next request counter for zero, or lets go. */
  function LogStep(s: Machine, i: nat, next: nat): Machine
    requires i < |s.calls| && next <= |s.conns| == |s.flushed|
  {
    if next < |s.conns| then
      s.(conns := s.conns[next := s.conns[next].(requests := 0)],
         flushed := s.flushed[next := s.flushed[next] + s.conns[next].requests],
         calls := s.calls[i := s.calls[i].(progress := Logging(next + 1))])
    else
      s.(lock := Free, calls := s.calls[i := s.calls[i].(progress := Ended)])
  }

  /** The state after a sequence of events, if each was possible in its turn. */
  ghost function Step(s: Machine, e: Event): Option<Machine> {
    if Enabled(s, e) then Some(Next(s, e)) else None
  }

  ghost function After(n: nat, es: seq<Event>): Option<Machine> {
    Folded(Start(n), es, Step)
  }
}
