/** Graceful shutdown: any number of listeners and waiters ask for it, one goroutine cancels
    the root context, waits for the work in progress and closes the done channel; contexts
    are the work that is counted. */
module Shutdown {
  import opened Options
  import opened Seqs

  datatype Listener = Reading | Setting | Watching | Left

  /** A call of doShutdownDone. */
  datatype Doer = WantMutex | HasMutex | Selecting | Returned

  /** A call of waitDone. */
  datatype Waiter = Cancelling | Waiting | Closing | Gone

  /** closes counts the times done is closed, timeouts how many of them the timer did;
      drained records that the count was seen at zero after the root context was cancelled;
      leaked counts constructors that failed after adding to the count, and contexts nobody can
      cancel any more. */
  datatype State = State(
    listened: bool,
    doing: bool,
    cancelled: bool,
    mutex: Option<nat>,
    closes: nat,
    timeouts: nat,
    drained: bool,
    count: int,
    business: nat,
    leaked: nat,
    contexts: seq<bool>,
    listeners: seq<Listener>,
    doers: seq<Doer>,
    waiters: seq<Waiter>,
    callers: seq<bool>)

  const INITIAL := State(false, false, false, None, 0, 0, false, 0, 0, 0, [], [], [], [], [])

  /** contexts[i] says whether context i is still to be cancelled; callers[k] whether the k-th
      call of Shutdowned has returned. DropContext is the last owner letting go of a context it
      has not cancelled, as NewSSH does with the one it made when its dial fails. */
  datatype Event =
    | Listen
    | ListenRead(l: nat)
    | ListenSet(l: nat)
    | ListenFires(l: nat, ok: bool)
    | Shutdowned
    | ShutdownedReturns(k: nat)
    | DoerLocks(d: nat)
    | DoerChecks(d: nat)
    | DoerWakes(d: nat)
    | TimerFires(d: nat)
    | WaiterCancels(w: nat)
    | WaiterPasses(w: nat)
    | WaiterCloses(w: nat)
    | RootCancel
    | NewContext(parent: bool)
    | CancelContext(i: nat)
    | DropContext(i: nat)
    | WorkAdd
    | WorkDone

  predicate Enabled(s: State, e: Event) {
    match e
    case Listen => true
    case ListenRead(l) => l < |s.listeners| && s.listeners[l] == Reading
    case ListenSet(l) => l < |s.listeners| && s.listeners[l] == Setting
    case ListenFires(l, ok) => l < |s.listeners| && s.listeners[l] == Watching && (ok || s.cancelled)
    case Shutdowned => true
    case ShutdownedReturns(k) => k < |s.callers| && !s.callers[k] && s.closes > 0
    case DoerLocks(d) => d < |s.doers| && s.doers[d] == WantMutex && s.mutex == None
    case DoerChecks(d) => d < |s.doers| && s.doers[d] == HasMutex
    case DoerWakes(d) => d < |s.doers| && s.doers[d] == Selecting && s.closes > 0
    case TimerFires(d) => d < |s.doers| && s.doers[d] == Selecting
    case WaiterCancels(w) => w < |s.waiters| && s.waiters[w] == Cancelling
    case WaiterPasses(w) => w < |s.waiters| && s.waiters[w] == Waiting && s.count == 0
    case WaiterCloses(w) => w < |s.waiters| && s.waiters[w] == Closing
    case RootCancel => true
    case NewContext(_) => true
    case CancelContext(i) => i < |s.contexts|
    case DropContext(i) => i < |s.contexts| && s.contexts[i]
    case WorkAdd => true
    case WorkDone => s.business > 0
  }

  function Next(s: State, e: Event): State
    requires Enabled(s, e)
  {
    match e
    case Listen => s.(listeners := s.listeners + [Reading])
    case ListenRead(l) => s.(listeners := s.listeners[l := if s.listened then Left else Setting])
    case ListenSet(l) => s.(listened := true, listeners := s.listeners[l := Watching])
    case ListenFires(l, ok) =>
      s.(listeners := s.listeners[l := Left], doers := if ok then s.doers + [WantMutex] else s.doers)
    case Shutdowned => s.(doers := s.doers + [WantMutex], callers := s.callers + [false])
    case ShutdownedReturns(k) => s.(callers := s.callers[k := true])
    case DoerLocks(d) => s.(mutex := Some(d), doers := s.doers[d := HasMutex])
    case DoerChecks(d) =>
      if s.doing then s.(mutex := None, doers := s.doers[d := Returned])
      else s.(doing := true, doers := s.doers[d := Selecting], waiters := s.waiters + [Cancelling])
    case DoerWakes(d) => s.(mutex := None, doers := s.doers[d := Returned])
    case TimerFires(d) =>
      s.(mutex := None, doers := s.doers[d := Returned], closes := s.closes + 1, timeouts := s.timeouts + 1)
    case WaiterCancels(w) => s.(cancelled := true, waiters := s.waiters[w := Waiting])
    case WaiterPasses(w) => s.(drained := s.cancelled, waiters := s.waiters[w := Closing])
    case WaiterCloses(w) => s.(closes := s.closes + 1, waiters := s.waiters[w := Gone])
    case RootCancel => s.(cancelled := true)
    case NewContext(parent) =>
      s.(count := s.count + 1,
         contexts := if parent then s.contexts + [true] else s.contexts,
         leaked := if parent then s.leaked else s.leaked + 1)
    case CancelContext(i) =>
      if s.contexts[i] then s.(count := s.count - 1, contexts := s.contexts[i := false]) else s
    case DropContext(i) => s.(contexts := s.contexts[i := false], leaked := s.leaked + 1)
    case WorkAdd => s.(count := s.count + 1, business := s.business + 1)
    case WorkDone => s.(count := s.count - 1, business := s.business - 1)
  }

  function Step(s: State, e: Event): Option<State> {
    if Enabled(s, e) then Some(Next(s, e)) else None
  }

  function After(es: seq<Event>): Option<State> { Folded(INITIAL, es, Step) }

  // ----- One waiter, one close

  function WaiterClosed(s: State): nat {
    if |s.waiters| > 0 && s.waiters[0] == Gone then 1 else 0
  }

  /** The mutex is held by the one call that is past it; the timer has not fired for a call that
      still selects. */
  ghost predicate Guarded(s: State) {
    && (forall d :: 0 <= d < |s.doers| ==>
          (s.mutex == Some(d) <==> s.doers[d] == HasMutex || s.doers[d] == Selecting))
    && (s.mutex.Some? ==> s.mutex.value < |s.doers|)
    && (forall d :: 0 <= d < |s.doers| && s.doers[d] == Selecting ==> s.doing && s.timeouts == 0)
    && (!s.doing ==> s.timeouts == 0)
  }

  ghost predicate Orderly(s: State) {
    && Guarded(s)
    && |s.waiters| == (if s.doing then 1 else 0)
    && s.timeouts <= 1
    && s.closes == s.timeouts + WaiterClosed(s)
    && (|s.waiters| > 0 && s.waiters[0] != Cancelling ==> s.cancelled)
    && (|s.waiters| > 0 && (s.waiters[0] == Closing || s.waiters[0] == Gone) ==> s.drained)
    && (s.drained ==> s.cancelled)
    && (forall k :: 0 <= k < |s.callers| && s.callers[k] ==> s.closes > 0)
  }

  /** The steps of doShutdownDone, and those of waitDone. */
  predicate ByDoer(e: Event) { e.DoerLocks? || e.DoerChecks? || e.DoerWakes? || e.TimerFires? }

  predicate ByWaiter(e: Event) { e.WaiterCancels? || e.WaiterPasses? || e.WaiterCloses? }

  lemma DoerKeepsGuarded(s: State, e: Event)
    requires Guarded(s) && Enabled(s, e) && ByDoer(e)
    ensures Guarded(Next(s, e))
  {
  }

  lemma GuardedKept(s: State, e: Event)
    requires Guarded(s) && Enabled(s, e)
    ensures Guarded(Next(s, e))
  {
    if ByDoer(e) {
      DoerKeepsGuarded(s, e);
    }
  }

  lemma DoerKeepsOrderly(s: State, e: Event)
    requires Orderly(s) && Enabled(s, e) && ByDoer(e) && Guarded(Next(s, e))
    ensures Orderly(Next(s, e))
  {
  }

  lemma WaiterKeepsOrderly(s: State, e: Event)
    requires Orderly(s) && Enabled(s, e) && ByWaiter(e) && Guarded(Next(s, e))
    ensures Orderly(Next(s, e))
  {
  }

  lemma RestKeepsOrderly(s: State, e: Event)
    requires Orderly(s) && Enabled(s, e) && !ByDoer(e) && !ByWaiter(e) && Guarded(Next(s, e))
    ensures Orderly(Next(s, e))
  {
  }

  lemma OrderlyKept(s: State, e: Event)
    requires Orderly(s) && Enabled(s, e)
    ensures Orderly(Next(s, e))
  {
    GuardedKept(s, e);
    if ByDoer(e) {
      DoerKeepsOrderly(s, e);
    } else if ByWaiter(e) {
      WaiterKeepsOrderly(s, e);
    } else {
      RestKeepsOrderly(s, e);
    }
  }

  lemma {:induction false} OrderlyAlways(es: seq<Event>)
    requires After(es).Some?
    ensures Orderly(After(es).value)
  {
    if es != [] {
      OrderlyAlways(es[..|es| - 1]);
      OrderlyKept(After(es[..|es| - 1]).value, es[|es| - 1]);
    }
  }

  /** However many callers there are: at most one waitDone starts; while the timer has not
      fired, done is closed at most once, and only after the root context was cancelled and the
      count then seen at zero; and no Shutdowned returns before. */
  lemma {:induction false} ShutdownOnce(es: seq<Event>)
    requires After(es).Some?
    ensures var s := After(es).value;
            && |s.waiters| <= 1
            && (s.timeouts == 0 ==> s.closes <= 1)
            && (s.timeouts == 0 && s.closes == 1 ==> s.cancelled && s.drained)
            && (forall k :: 0 <= k < |s.callers| && s.callers[k] ==> s.closes > 0)
  {
    OrderlyAlways(es);
  }

  /** done is closed at most once by the timer and at most once by the waiter. */
  lemma {:induction false} ClosesCounted(es: seq<Event>)
    requires After(es).Some?
    ensures var s := After(es).value;
            && s.timeouts <= 1 && s.closes <= 2
            && s.closes == s.timeouts + (if |s.waiters| == 1 && s.waiters[0] == Gone then 1 else 0)
  {
    OrderlyAlways(es);
  }

  // ----- Who steps, and who listens

  /** While a call of doShutdownDone is unfinished, one of them can step, the timer helping when one
      waits for done. */
  lemma {:induction false} NeverStuck(es: seq<Event>, d: nat)
    requires After(es).Some? && d < |After(es).value.doers| && After(es).value.doers[d] != Returned
    ensures exists c :: Enabled(After(es).value, DoerLocks(c)) || Enabled(After(es).value, DoerChecks(c))
                        || Enabled(After(es).value, TimerFires(c))
  {
    OrderlyAlways(es);
    var s := After(es).value;
    var c := if s.doers[d] == WantMutex && s.mutex.Some? then s.mutex.value else d;
    match s.doers[c]
    case WantMutex => assert Enabled(s, DoerLocks(c));
    case HasMutex => assert Enabled(s, DoerChecks(c));
    case Selecting => assert Enabled(s, TimerFires(c));
    case Returned =>
  }

  /** How many of the events start a doShutdownDone: the listeners that go on, after a signal or
      the end of the root context, and the calls of Shutdowned. */
  function Starts(es: seq<Event>): nat {
    if es == [] then 0
    else
      var e := es[|es| - 1];
      Starts(es[..|es| - 1]) + if e.Shutdowned? || (e.ListenFires? && e.ok) then 1 else 0
  }

  predicate Cancels(e: Event) { e.RootCancel? || e.WaiterCancels? }

  /** A listener that gives up, its own signal to the process having failed. */
  predicate GivesUp(e: Event) { e.ListenFires? && !e.ok }

  /** Each listener that goes on and each call of Shutdowned starts one doShutdownDone and nothing
      else does; the root context is cancelled exactly by its owner or by the waiter; and a listener
      gives up only when it is. */
  lemma {:induction false} StartedExactly(es: seq<Event>)
    requires After(es).Some?
    ensures |After(es).value.doers| == Starts(es)
    ensures After(es).value.cancelled <==> exists e :: e in es && Cancels(e)
    ensures (exists e :: e in es && GivesUp(e)) ==> After(es).value.cancelled
  {
    if es != [] {
      var front, last := es[..|es| - 1], es[|es| - 1];
      StartedExactly(front);
      OrderlyAlways(front);
      assert es == front + [last];
      OneStart(After(front).value, last);
    }
  }

  lemma OneStart(s: State, e: Event)
    requires Orderly(s) && Enabled(s, e)
    ensures |Next(s, e).doers| == |s.doers| + if e.Shutdowned? || (e.ListenFires? && e.ok) then 1 else 0
    ensures Next(s, e).cancelled <==> s.cancelled || Cancels(e)
    ensures GivesUp(e) ==> s.cancelled
  {
  }

  /** The flag is set, and the listener has not got past reading it. */
  predicate Late(s: State, l: nat) {
    s.listened && (l < |s.listeners| ==> s.listeners[l] == Reading || s.listeners[l] == Left)
  }

  lemma LateStays(s: State, e: Event, l: nat)
    requires Late(s, l) && Enabled(s, e)
    ensures Late(Next(s, e), l)
  {
  }

  /** A call of Listen that begins after another has set the flag never watches for a signal. */
  lemma {:induction false} LateListenerLeaves(es: seq<Event>, more: seq<Event>, l: nat)
    requires After(es).Some? && After(es).value.listened && l >= |After(es).value.listeners|
    requires After(es + more).Some?
    ensures Late(After(es + more).value, l)
  {
    if more == [] {
      assert es + more == es;
    } else {
      var all := es + more;
      var before := all[..|all| - 1];
      assert before == es + more[..|more| - 1];
      LateListenerLeaves(es, more[..|more| - 1], l);
      LateStays(After(before).value, all[|all| - 1], l);
    }
  }

  // ----- What the contexts contribute

  function Live(contexts: seq<bool>): nat {
    if contexts == [] then 0
    else Live(contexts[..|contexts| - 1]) + (if contexts[|contexts| - 1] then 1 else 0)
  }

  lemma {:induction false} LiveAfterCancel(contexts: seq<bool>, i: nat)
    requires i < |contexts| && contexts[i]
    ensures Live(contexts[i := false]) == Live(contexts) - 1
  {
    var m := |contexts| - 1;
    if i == m {
      assert contexts[i := false][..m] == contexts[..m];
    } else {
      assert contexts[i := false][..m] == contexts[..m][i := false];
      LiveAfterCancel(contexts[..m], i);
    }
  }

  /** The count is the contexts that can still be cancelled, the work added elsewhere, and one
      for each leak: a constructor that was given no parent, or a context dropped. */
  predicate Counted(s: State) {
    s.count == Live(s.contexts) + s.business + s.leaked
  }

  lemma CountedKept(s: State, e: Event)
    requires Counted(s) && Enabled(s, e)
    ensures Counted(Next(s, e))
  {
    match e
    case CancelContext(i) =>
      if s.contexts[i] {
        LiveAfterCancel(s.contexts, i);
      }
    case DropContext(i) => LiveAfterCancel(s.contexts, i);
    case NewContext(parent) => assert (s.contexts + [true])[..|s.contexts|] == s.contexts;
    case _ =>
  }

  lemma {:induction false} CountExact(es: seq<Event>)
    requires After(es).Some?
    ensures Counted(After(es).value)
  {
    if es != [] {
      CountExact(es[..|es| - 1]);
      CountedKept(After(es[..|es| - 1]).value, es[|es| - 1]);
    }
  }

  /** Something has leaked, and the waiter has not got past the count. */
  predicate Leaky(s: State) {
    && Counted(s) && s.leaked > 0 && |s.waiters| <= 1 && s.closes == s.timeouts
    && (|s.waiters| > 0 ==> s.waiters[0] != Closing && s.waiters[0] != Gone)
  }

  lemma LeakyKept(s: State, e: Event)
    requires Leaky(s) && Orderly(s) && Enabled(s, e)
    ensures Leaky(Next(s, e))
  {
    CountedKept(s, e);
    OrderlyKept(s, e);
  }

  /** Once something has leaked, the count never returns to zero, so done is closed by
      nothing but the timer, whatever happens next. */
  lemma {:induction false} LeakNeverDrains(es: seq<Event>, more: seq<Event>)
    requires After(es).Some? && Leaky(After(es).value) && After(es + more).Some?
    ensures Leaky(After(es + more).value) && After(es + more).value.count > 0
  {
    if more == [] {
      assert es + more == es;
    } else {
      var all := es + more;
      var before := all[..|all| - 1];
      assert before == es + more[..|more| - 1];
      LeakNeverDrains(es, more[..|more| - 1]);
      OrderlyAlways(before);
      LeakyKept(After(before).value, all[|all| - 1]);
    }
  }

  // ----- When the count drains, and when done is closed again

  lemma {:induction false} Extend(es: seq<Event>, s: State, e: Event)
    returns (longer: seq<Event>, t: State)
    requires After(es) == Some(s) && Enabled(s, e)
    ensures longer == es + [e] && After(longer) == Some(t) && t == Next(s, e)
  {
    longer, t := es + [e], Next(s, e);
    assert longer[..|es|] == es;
  }

  /** A step taken after some more events. */
  lemma {:induction false} Continue(es: seq<Event>, more: seq<Event>, s: State, e: Event)
    returns (longer: seq<Event>, t: State)
    requires After(es + more) == Some(s) && Enabled(s, e)
    ensures After(es + longer) == Some(t) && t == Next(s, e)
  {
    var all: seq<Event>;
    all, t := Extend(es + more, s, e);
    longer := more + [e];
    assert all == es + longer;
  }

  lemma {:induction false} LiveOne(contexts: seq<bool>) returns (i: nat)
    requires Live(contexts) > 0
    ensures i < |contexts| && contexts[i]
  {
    i := |contexts| - 1;
    if !contexts[i] {
      i := LiveOne(contexts[..i]);
    }
  }

  /** What draining the count leaves alone. */
  predicate SameCourse(s: State, t: State) {
    && t.waiters == s.waiters && t.closes == s.closes && t.timeouts == s.timeouts && t.cancelled == s.cancelled
    && t.leaked == s.leaked
  }

  /** All work ends: the count comes down to what has leaked. */
  lemma {:induction false} Drain(es: seq<Event>, more: seq<Event>, s: State) returns (longer: seq<Event>, t: State)
    requires After(es + more) == Some(s) && Counted(s)
    ensures After(es + longer) == Some(t) && SameCourse(s, t) && t.count == t.leaked
    decreases Live(s.contexts) + s.business
  {
    longer, t := more, s;
    if s.business > 0 {
      longer, t := Continue(es, more, s, WorkDone);
      CountedKept(s, WorkDone);
      longer, t := Drain(es, longer, t);
    } else if Live(s.contexts) > 0 {
      var i := LiveOne(s.contexts);
      LiveAfterCancel(s.contexts, i);
      longer, t := Continue(es, more, s, CancelContext(i));
      CountedKept(s, CancelContext(i));
      longer, t := Drain(es, longer, t);
    }
  }

  lemma {:induction false} LeakGrows(s: State, e: Event)
    requires Enabled(s, e)
    ensures Next(s, e).leaked >= s.leaked
  {
  }

  lemma {:induction false} LeakStays(es: seq<Event>, more: seq<Event>)
    requires After(es).Some? && After(es + more).Some?
    ensures After(es + more).value.leaked >= After(es).value.leaked
  {
    if more == [] {
      assert es + more == es;
    } else {
      var all := es + more;
      var before := all[..|all| - 1];
      assert before == es + more[..|more| - 1];
      LeakStays(es, more[..|more| - 1]);
      LeakGrows(After(before).value, all[|all| - 1]);
    }
  }

  ghost predicate CanDrain(es: seq<Event>) {
    exists more :: After(es + more).Some? && After(es + more).value.count == 0
  }

  /** From any point of any run the count can come down to zero if and only if nothing has
      leaked: no constructor has panicked, no context has been dropped. */
  lemma {:induction false} DrainsExactly(es: seq<Event>)
    requires After(es).Some?
    ensures CanDrain(es) <==> After(es).value.leaked == 0
  {
    assert es + [] == es;
    CountExact(es);
    var more, t := Drain(es, [], After(es).value);
    if CanDrain(es) {
      var rest :| After(es + rest).Some? && After(es + rest).value.count == 0;
      LeakStays(es, rest);
      CountExact(es + rest);
    }
  }

  ghost predicate CanCloseTwice(es: seq<Event>) {
    exists more :: After(es + more).Some? && After(es + more).value.closes == 2
  }

  /** The waiter has seen the count at zero. */
  predicate WaiterPast(s: State) {
    |s.waiters| > 0 && (s.waiters[0] == Closing || s.waiters[0] == Gone)
  }

  /** The waiter's last step. */
  lemma {:induction false} WaiterEnds(es: seq<Event>, more: seq<Event>, s: State)
    requires After(es + more) == Some(s) && Orderly(s) && s.timeouts == 1 && WaiterPast(s)
    ensures CanCloseTwice(es)
  {
    if s.waiters[0] == Closing {
      var longer, t := Continue(es, more, s, WaiterCloses(0));
    }
  }

  /** The waiter's steps from the start, once nothing is left to wait for. */
  lemma {:induction false} WaiterFinishes(es: seq<Event>, more: seq<Event>, s: State)
    requires After(es + more) == Some(s) && Orderly(s) && s.timeouts == 1 && s.count == 0
    ensures CanCloseTwice(es)
  {
    if WaiterPast(s) {
      WaiterEnds(es, more, s);
    } else {
      var longer, t := more, s;
      if s.waiters[0] == Cancelling {
        longer, t := Continue(es, longer, t, WaiterCancels(0));
        OrderlyKept(s, WaiterCancels(0));
      }
      var u := t;
      longer, t := Continue(es, longer, u, WaiterPasses(0));
      OrderlyKept(u, WaiterPasses(0));
      WaiterEnds(es, longer, t);
    }
  }

  /** After the timer has closed done, it can be closed again if and only if nothing has leaked,
      or the waiter has already seen the count at zero. */
  lemma {:induction false} ClosableTwiceExactly(es: seq<Event>)
    requires After(es).Some? && After(es).value.timeouts == 1
    ensures CanCloseTwice(es) <==> After(es).value.leaked == 0 || WaiterPast(After(es).value)
  {
    var s := After(es).value;
    assert es + [] == es;
    CountExact(es);
    OrderlyAlways(es);
    if WaiterPast(s) {
      WaiterEnds(es, [], s);
    } else if s.leaked == 0 {
      var more, t := Drain(es, [], s);
      OrderlyAlways(es + more);
      WaiterFinishes(es, more, t);
    } else if CanCloseTwice(es) {
      var more :| After(es + more).Some? && After(es + more).value.closes == 2;
      LeakNeverDrains(es, more);
      OrderlyAlways(es + more);
    }
  }

  // ----- The timer can close the channel a second time

  /** One caller's doShutdownDone has started the waiter and selects. */
  lemma Started() returns (es: seq<Event>, s: State)
    ensures After(es) == Some(s)
    ensures s == INITIAL.(
              doing := true, mutex := Some(0), doers := [Selecting], waiters := [Cancelling], callers := [false])
  {
    es, s := Extend([], INITIAL, Shutdowned);
    es, s := Extend(es, s, DoerLocks(0));
    es, s := Extend(es, s, DoerChecks(0));
  }

  /** A run in which the timer and then the waiter close done. */
  lemma {:induction false} TimerClosesTwice() returns (es: seq<Event>)
    ensures After(es).Some? && After(es).value.closes == 2
  {
    var s;
    es, s := Started();
    es, s := Extend(es, s, WaiterCancels(0));
    es, s := Extend(es, s, TimerFires(0));
    es, s := Extend(es, s, WaiterPasses(0));
    es, s := Extend(es, s, WaiterCloses(0));
  }
}
