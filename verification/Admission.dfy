/** The admission counter shared by the router, the plain handlers and both gRPC interceptors:
    a 32-bit counter stepped up on arrival and down on every exit, whose value on arrival
    decides admission. */
module Admission {
  import opened Options
  import opened Seqs

  const WORD: int := 0x1_0000_0000

  datatype Entry = Router | HandlerFunc | Unary | Stream

  /** A request that counted itself, with the value its own add returned. */
  datatype Phase = Arrived | Admitted | Rejected | Left(panicked: bool)

  datatype Request = Request(entry: Entry, number: nat, phase: Phase)

  datatype State = State(online: nat, requests: seq<Request>)

  const IDLE := State(0, [])

  /** The bound in force: none under go test or when not configured; the configured int is
      cut to 32 bits. */
  function Bound(goTest: bool, concurrence: int): Option<nat> {
    if goTest || concurrence <= 0 then None else Some(concurrence % WORD)
  }

  predicate Passes(bound: Option<nat>, number: nat) {
    bound.None? || number <= bound.value
  }

  /** The counter stepped up, and stepped down by adding its largest value, in 32 bits. */
  function Up(online: nat): nat {
    if online == WORD - 1 then 0 else online + 1
  }

  function Down(online: nat): nat {
    if online == 0 then WORD - 1 else online - 1
  }

  lemma {:induction false} StepsAreAdds(online: nat)
    requires online < WORD
    ensures Up(online) == (online + 1) % WORD && Down(online) == (online + (WORD - 1)) % WORD
  {
    if online > 0 {
      assert online + (WORD - 1) == (online - 1) + WORD;
    }
  }

  lemma ModStep(n: nat)
    ensures (n + 1) % WORD == Up(n % WORD)
    ensures n % WORD == Down((n + 1) % WORD)
  {
    var q, r := n / WORD, n % WORD;
    assert n == q * WORD + r;
    if r == WORD - 1 {
      assert n + 1 == (q + 1) * WORD;
      ModOf(q + 1, 0);
    } else {
      assert n + 1 == q * WORD + (r + 1);
      ModOf(q, r + 1);
    }
  }

  lemma ModOf(q: nat, r: nat)
    requires r < WORD
    ensures (q * WORD + r) % WORD == r
  {
  }

  class Server {
    var online: nat

    constructor ()
      ensures online == 0
    {
      online := 0;
    }

    method Add(delta: nat) returns (value: nat)
      requires online < WORD && delta < WORD
      modifies this
      ensures online == value < WORD
      ensures value == (old(online) + delta) % WORD
    {
      online := online + delta;
      if online >= WORD {
        online := online - WORD;
      }
      value := online;
    }

    /** One request from arrival to exit, nothing else running. */
    method Serve(goTest: bool, concurrence: int) returns (admitted: bool)
      requires online < WORD
      modifies this
      ensures online == old(online)
      ensures admitted <==> Passes(Bound(goTest, concurrence), (old(online) + 1) % WORD)
      ensures admitted <==> goTest || concurrence <= 0 || (old(online) + 1) % WORD <= concurrence % WORD
    {
      var number := Add(1);
      admitted := true;
      if !goTest && concurrence > 0 {
        admitted := !(number > concurrence % WORD);
      }
      var _ := Add(WORD - 1);
    }
  }

  datatype Event = Arrive(entry: Entry) | Check(r: nat) | Leave(r: nat, panics: bool)

  predicate Enabled(s: State, e: Event) {
    match e
    case Arrive(_) => true
    case Check(r) => r < |s.requests| && s.requests[r].phase == Arrived
    case Leave(r, panics) =>
      r < |s.requests| && (s.requests[r].phase == Admitted || (s.requests[r].phase == Rejected && !panics))
  }

  function Next(s: State, e: Event, bound: Option<nat>): State
    requires Enabled(s, e)
  {
    match e
    case Arrive(entry) =>
      var number := Up(s.online);
      State(number, s.requests + [Request(entry, number, Arrived)])
    case Check(r) =>
      var phase := if Passes(bound, s.requests[r].number) then Admitted else Rejected;
      s.(requests := s.requests[r := s.requests[r].(phase := phase)])
    case Leave(r, panics) =>
      State(Down(s.online), s.requests[r := s.requests[r].(phase := Left(panics))])
  }

  function Step(bound: Option<nat>): (State, Event) -> Option<State> {
    (s, e) => if Enabled(s, e) then Some(Next(s, e, bound)) else None
  }

  function After(es: seq<Event>, bound: Option<nat>): Option<State> { Folded(IDLE, es, Step(bound)) }

  // ----- Counting

  function Inside(requests: seq<Request>): nat {
    if requests == [] then 0
    else Inside(requests[..|requests| - 1]) + (if requests[|requests| - 1].phase.Left? then 0 else 1)
  }

  predicate Running(r: Request, bound: nat) {
    r.phase == Admitted || (r.phase == Arrived && r.number <= bound)
  }

  /** The requests admitted or bound to be. */
  function Winners(requests: seq<Request>, bound: nat): nat {
    if requests == [] then 0
    else
      Winners(requests[..|requests| - 1], bound)
      + (if Running(requests[|requests| - 1], bound) then 1 else 0)
  }

  function AdmittedNow(requests: seq<Request>): nat {
    if requests == [] then 0
    else
      AdmittedNow(requests[..|requests| - 1]) + (if requests[|requests| - 1].phase == Admitted then 1 else 0)
  }

  lemma {:induction false} WinnersAreInside(requests: seq<Request>, bound: nat)
    ensures AdmittedNow(requests) <= Winners(requests, bound) <= Inside(requests)
  {
    if requests != [] {
      WinnersAreInside(requests[..|requests| - 1], bound);
    }
  }

  lemma {:induction false} CountsAfterPhase(requests: seq<Request>, r: nat, phase: Phase, bound: nat)
    requires r < |requests|
    ensures var moved := requests[r := requests[r].(phase := phase)];
            && Inside(moved) == Inside(requests)
                 - (if requests[r].phase.Left? then 0 else 1) + (if phase.Left? then 0 else 1)
            && Winners(moved, bound) == Winners(requests, bound)
                 - (if Running(requests[r], bound) then 1 else 0)
                 + (if Running(requests[r].(phase := phase), bound) then 1 else 0)
  {
    var moved := requests[r := requests[r].(phase := phase)];
    var m := |requests| - 1;
    if r == m {
      assert moved[..m] == requests[..m];
    } else {
      assert moved[..m] == requests[..m][r := requests[..m][r].(phase := phase)];
      CountsAfterPhase(requests[..m], r, phase, bound);
    }
  }

  lemma CountsAfterArrival(requests: seq<Request>, r: Request, bound: nat)
    ensures Inside(requests + [r]) == Inside(requests) + (if r.phase.Left? then 0 else 1)
    ensures Winners(requests + [r], bound) == Winners(requests, bound) + (if Running(r, bound) then 1 else 0)
  {
    assert (requests + [r])[..|requests|] == requests;
  }

  predicate OnlineIs(s: State) {
    s.online == Inside(s.requests) % WORD
  }

  lemma OnlineKept(s: State, e: Event, bound: Option<nat>)
    requires OnlineIs(s) && Enabled(s, e)
    ensures OnlineIs(Next(s, e, bound))
  {
    match e
    case Arrive(entry) =>
      CountsAfterArrival(s.requests, Request(entry, Up(s.online), Arrived), 0);
      ModStep(Inside(s.requests));
    case Check(r) =>
      CountsAfterPhase(s.requests, r, if Passes(bound, s.requests[r].number) then Admitted else Rejected, 0);
    case Leave(r, panics) =>
      CountsAfterPhase(s.requests, r, Left(panics), 0);
      InsideAtLeastOne(s.requests, r);
      ModStep(Inside(s.requests) - 1);
  }

  lemma {:induction false} InsideAtLeastOne(requests: seq<Request>, r: nat)
    requires r < |requests| && !requests[r].phase.Left?
    ensures Inside(requests) >= 1
  {
    if r < |requests| - 1 {
      InsideAtLeastOne(requests[..|requests| - 1], r);
    }
  }

  lemma {:induction false} OnlineCounts(es: seq<Event>, bound: Option<nat>)
    requires After(es, bound).Some?
    ensures OnlineIs(After(es, bound).value)
  {
    if es != [] {
      OnlineCounts(es[..|es| - 1], bound);
      OnlineKept(After(es[..|es| - 1], bound).value, es[|es| - 1], bound);
    }
  }

  /** The premise: fewer than 2^32 requests are ever inside at once. */
  ghost predicate NeverFull(es: seq<Event>, bound: Option<nat>) {
    forall k :: 0 <= k <= |es| && After(es[..k], bound).Some? ==> Inside(After(es[..k], bound).value.requests) < WORD
  }

  lemma NeverFullBefore(es: seq<Event>, bound: Option<nat>)
    requires es != [] && NeverFull(es, bound)
    ensures NeverFull(es[..|es| - 1], bound)
    ensures After(es, bound).Some? ==> Inside(After(es, bound).value.requests) < WORD
  {
    var shorter := es[..|es| - 1];
    forall k | 0 <= k <= |shorter| && After(shorter[..k], bound).Some?
      ensures Inside(After(shorter[..k], bound).value.requests) < WORD
    {
      assert shorter[..k] == es[..k];
    }
    assert es[..|es|] == es;
  }

  lemma WinnersKept(s: State, e: Event, bound: nat)
    requires s.online == Inside(s.requests) && Enabled(s, e) && Winners(s.requests, bound) <= bound
    requires Inside(Next(s, e, Some(bound)).requests) < WORD
    ensures Winners(Next(s, e, Some(bound)).requests, bound) <= bound
  {
    match e
    case Arrive(entry) =>
      CountsAfterArrival(s.requests, Request(entry, Up(s.online), Arrived), bound);
      WinnersAreInside(s.requests, bound);
    case Check(r) =>
      CountsAfterPhase(
        s.requests, r, if Passes(Some(bound), s.requests[r].number) then Admitted else Rejected, bound);
    case Leave(r, panics) => CountsAfterPhase(s.requests, r, Left(panics), bound);
  }

  lemma {:induction false} WinnersBounded(es: seq<Event>, bound: nat)
    requires After(es, Some(bound)).Some? && NeverFull(es, Some(bound))
    ensures Winners(After(es, Some(bound)).value.requests, bound) <= bound
  {
    if es != [] {
      var before := es[..|es| - 1];
      NeverFullBefore(es, Some(bound));
      WinnersBounded(before, bound);
      OnlineExact(before, Some(bound));
      WinnersKept(After(before, Some(bound)).value, es[|es| - 1], bound);
    }
  }

  lemma SmallMod(n: nat)
    requires n < WORD
    ensures n % WORD == n
  {
  }

  lemma OnlineExact(es: seq<Event>, bound: Option<nat>)
    requires After(es, bound).Some? && NeverFull(es, bound)
    ensures After(es, bound).value.online == Inside(After(es, bound).value.requests)
  {
    OnlineCounts(es, bound);
    assert es[..|es|] == es;
    SmallMod(Inside(After(es, bound).value.requests));
  }

  /** Over every interleaving of arrivals, checks and exits, panicking or not: the counter is
      the number of requests inside, and no more are admitted at once than the bound. */
  lemma {:induction false} AdmissionBounded(es: seq<Event>, goTest: bool, concurrence: int)
    requires After(es, Bound(goTest, concurrence)).Some? && NeverFull(es, Bound(goTest, concurrence))
    ensures var s := After(es, Bound(goTest, concurrence)).value;
            && s.online == Inside(s.requests)
            && (!goTest && concurrence > 0 ==> AdmittedNow(s.requests) <= concurrence % WORD <= concurrence)
  {
    var bound := Bound(goTest, concurrence);
    OnlineExact(es, bound);
    if bound.Some? {
      WinnersBounded(es, bound.value);
      WinnersAreInside(After(es, bound).value.requests, bound.value);
      CutIsSmaller(concurrence);
    }
  }

  lemma CutIsSmaller(n: nat)
    ensures n % WORD <= n
  {
  }

  /** A configured bound that is a multiple of 2^32 is cut to zero: nobody is ever admitted. */
  lemma {:induction false} TruncatedBoundAdmitsNobody(es: seq<Event>, concurrence: int)
    requires concurrence > 0 && concurrence % WORD == 0
    requires After(es, Bound(false, concurrence)).Some? && NeverFull(es, Bound(false, concurrence))
    ensures AdmittedNow(After(es, Bound(false, concurrence)).value.requests) == 0
  {
    AdmissionBounded(es, false, concurrence);
  }

  // ----- Exactly how many can be admitted

  /** Some run that never fills the counter has k requests admitted at once. */
  ghost predicate CanAdmit(k: nat, bound: Option<nat>) {
    exists es :: After(es, bound).Some? && NeverFull(es, bound) && AdmittedNow(After(es, bound).value.requests) == k
  }

  lemma NeverFullMore(es: seq<Event>, e: Event, bound: Option<nat>)
    requires NeverFull(es, bound)
    requires After(es + [e], bound).Some? ==> Inside(After(es + [e], bound).value.requests) < WORD
    ensures NeverFull(es + [e], bound)
  {
    var longer := es + [e];
    forall k | 0 <= k <= |longer| && After(longer[..k], bound).Some?
      ensures Inside(After(longer[..k], bound).value.requests) < WORD
    {
      if k <= |es| {
        assert longer[..k] == es[..k];
      } else {
        assert longer[..k] == longer;
      }
    }
  }

  /** k requests have come one after another and all been admitted. */
  ghost predicate Filled(es: seq<Event>, bound: Option<nat>, k: nat) {
    && After(es, bound).Some? && NeverFull(es, bound)
    && var s := After(es, bound).value;
       s.online == k == |s.requests| && Inside(s.requests) == k && AdmittedNow(s.requests) == k
  }

  /** One more event in a run that never fills the counter. */
  lemma Extend(es: seq<Event>, s: State, e: Event, bound: Option<nat>) returns (longer: seq<Event>, t: State)
    requires After(es, bound) == Some(s) && NeverFull(es, bound) && Enabled(s, e)
    requires Inside(Next(s, e, bound).requests) < WORD
    ensures longer == es + [e] && t == Next(s, e, bound)
    ensures After(longer, bound) == Some(t) && NeverFull(longer, bound)
  {
    longer, t := es + [e], Next(s, e, bound);
    assert longer[..|es|] == es;
    NeverFullMore(es, e, bound);
  }

  lemma FillOneMore(es: seq<Event>, bound: Option<nat>, k: nat) returns (longer: seq<Event>)
    requires Filled(es, bound, k) && k + 1 < WORD && Passes(bound, k + 1)
    ensures Filled(longer, bound, k + 1)
  {
    var s := After(es, bound).value;
    var t;
    CountsAfterArrival(s.requests, Request(Router, k + 1, Arrived), 0);
    longer, t := Extend(es, s, Arrive(Router), bound);
    var u;
    CountsAfterPhase(t.requests, k, Admitted, 0);
    longer, u := Extend(longer, t, Check(k), bound);
  }

  lemma {:induction false} Fill(bound: Option<nat>, k: nat) returns (es: seq<Event>)
    requires k < WORD && Passes(bound, k)
    ensures Filled(es, bound, k)
  {
    if k == 0 {
      es := [];
    } else {
      es := Fill(bound, k - 1);
      es := FillOneMore(es, bound, k - 1);
    }
  }

  lemma {:induction false} AdmittedAreInside(requests: seq<Request>)
    ensures AdmittedNow(requests) <= Inside(requests)
  {
    if requests != [] {
      AdmittedAreInside(requests[..|requests| - 1]);
    }
  }

  /** A number of requests can be admitted at once, in some run that does not fill the counter, if
      and only if the counter can hold it and it is at most the configured bound cut to 32 bits;
      under go test and without a configured bound any number can. */
  lemma {:induction false} CapacityExactly(goTest: bool, concurrence: int, k: nat)
    ensures CanAdmit(k, Bound(goTest, concurrence))
            <==> k < WORD && (goTest || concurrence <= 0 || k <= concurrence % WORD)
  {
    var bound := Bound(goTest, concurrence);
    if k < WORD && (goTest || concurrence <= 0 || k <= concurrence % WORD) {
      var es := Fill(bound, k);
    }
    if CanAdmit(k, bound) {
      var es :| After(es, bound).Some? && NeverFull(es, bound) && AdmittedNow(After(es, bound).value.requests) == k;
      AdmissionBounded(es, goTest, concurrence);
      AdmittedAreInside(After(es, bound).value.requests);
      assert es[..|es|] == es;
    }
  }

  lemma NoneRejectedKept(s: State, e: Event)
    requires Enabled(s, e) && forall r :: 0 <= r < |s.requests| ==> s.requests[r].phase != Rejected
    ensures var t := Next(s, e, None);
            forall r :: 0 <= r < |t.requests| ==> t.requests[r].phase != Rejected
  {
  }

  /** Under go test and without a configured bound nobody is ever rejected. */
  lemma {:induction false} UnboundedRejectsNobody(es: seq<Event>, goTest: bool, concurrence: int)
    requires goTest || concurrence <= 0
    requires After(es, Bound(goTest, concurrence)).Some?
    ensures var requests := After(es, Bound(goTest, concurrence)).value.requests;
            forall r :: 0 <= r < |requests| ==> requests[r].phase != Rejected
  {
    if es != [] {
      UnboundedRejectsNobody(es[..|es| - 1], goTest, concurrence);
      NoneRejectedKept(After(es[..|es| - 1], Bound(goTest, concurrence)).value, es[|es| - 1]);
    }
  }

  lemma CutChanges(n: nat)
    requires n >= WORD
    ensures n % WORD < WORD <= n
  {
  }

  /** Every number a request can carry and that the configured bound allows passes the check if
      and only if the bound fits 32 bits, or is cut to the largest number of 32 bits. */
  lemma {:induction false} BoundKeptExactly(concurrence: int)
    requires concurrence > 0
    ensures (forall number: nat :: number < WORD && number <= concurrence ==> Passes(Bound(false, concurrence), number))
            <==> concurrence < WORD || concurrence % WORD == WORD - 1
  {
    if concurrence < WORD {
      SmallMod(concurrence);
    } else {
      CutChanges(concurrence);
      assert concurrence % WORD < WORD - 1 ==> !Passes(Bound(false, concurrence), concurrence % WORD + 1);
    }
  }
}
