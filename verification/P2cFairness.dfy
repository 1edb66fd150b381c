/** The forced pick. With two connections, and picks never more than a second apart, the
    connection a pick passes over was itself picked within the last second. */
module P2cFairness {
  import opened Options
  import opened P2cArithmetic
  import opened P2cMachine
  import P2cSafety

  /** When c was last chosen; 0 if it never was. */
  function LastStart(choices: seq<Choice>, c: nat): int {
    if choices == [] then 0
    else if choices[|choices| - 1].conn == c then choices[|choices| - 1].start
    else LastStart(choices[..|choices| - 1], c)
  }

  lemma {:induction false} LastStartIsAChoice(choices: seq<Choice>, c: nat)
    requires LastStart(choices, c) != 0
    ensures exists j :: 0 <= j < |choices| && choices[j] == Choice(c, LastStart(choices, c))
  {
    var m := |choices| - 1;
    if choices[m].conn != c {
      LastStartIsAChoice(choices[..m], c);
      var j :| 0 <= j < m && choices[..m][j] == Choice(c, LastStart(choices[..m], c));
      assert choices[j] == Choice(c, LastStart(choices, c));
    } else {
      assert choices[m] == Choice(c, LastStart(choices, c));
    }
  }

  /** What the pick in progress knows about the pick times; nothing but a pick stores them,
      so what it read still holds. */
  ghost predicate Decided(s: Machine) {
    match s.picking
    case SwapPick(_, c2, start, pick) =>
      c2 < |s.conns| && pick == s.conns[c2].pick && start - pick > FORCE_PICK && ClockValue(start)
    case StorePick(_, other, start) =>
      && ClockValue(start)
      && (other.Some? ==> start - LastStart(s.choices, other.value) <= FORCE_PICK)
      && (other.None? ==> |s.conns| == 1)
    case LoadLag1(_, _, start) => ClockValue(start)
    case LoadInflight1(_, _, start, _) => ClockValue(start)
    case LoadLag2(_, _, start, _) => ClockValue(start)
    case LoadInflight2(_, _, start, _, _) => ClockValue(start)
    case LoadPick(_, _, start) => ClockValue(start)
    case _ => true
  }

  /** The two connections a pick compares are different. */
  ghost predicate TwoDiffer(p: Picking) {
    match p
    case LoadLag1(c1, c2, _) => c1 != c2
    case LoadInflight1(c1, c2, _, _) => c1 != c2
    case LoadLag2(c1, c2, _, _) => c1 != c2
    case LoadInflight2(c1, c2, _, _, _) => c1 != c2
    case LoadPick(c1, c2, _) => c1 != c2
    case SwapPick(c1, c2, _, _) => c1 != c2
    case StorePick(c1, other, _) => other != Some(c1)
    case _ => true
  }

  ghost predicate Timed(s: Machine) {
    && P2cSafety.Shape(s)
    && Decided(s) && TwoDiffer(s.picking)
    && (forall c :: 0 <= c < |s.conns| ==> s.conns[c].pick == LastStart(s.choices, c))
    && (forall k :: 0 <= k < |s.choices| ==> s.choices[k].conn < |s.conns| && ClockValue(s.choices[k].start))
    && (|s.conns| == 2 ==> Served(s.choices))
  }

  function Other(c: nat): nat {
    if c == 0 then 1 else 0
  }

  /** The premise: every pick up to the k-th follows the one before it within the force
      interval. */
  ghost predicate Prompt(choices: seq<Choice>, k: nat) {
    forall j :: 0 < j <= k && j < |choices| ==> choices[j].start - choices[j - 1].start <= FORCE_PICK
  }

  ghost predicate ServedBefore(choices: seq<Choice>, k: nat)
    requires k < |choices|
  {
    exists j :: 0 <= j < k && choices[j].conn == Other(choices[k].conn)
      && choices[k].start - choices[j].start <= FORCE_PICK
  }

  ghost predicate Served(choices: seq<Choice>) {
    forall k :: 0 < k < |choices| && Prompt(choices, k) ==> ServedBefore(choices, k)
  }

  /** The decision is fair when the chosen one starved, or the other did not. */
  lemma ChoiceServed(choices: seq<Choice>, c: nat, start: int)
    requires Served(choices) && c < 2 && ClockValue(start)
    requires forall k :: 0 <= k < |choices| ==> choices[k].conn < 2 && ClockValue(choices[k].start)
    requires start - LastStart(choices, c) > FORCE_PICK || start - LastStart(choices, Other(c)) <= FORCE_PICK
    ensures Served(choices + [Choice(c, start)])
  {
    var all := choices + [Choice(c, start)];
    var m := |choices|;
    forall k | 0 < k < |all| && Prompt(all, k) ensures ServedBefore(all, k) {
      if k < m {
        assert Prompt(choices, k) by {
          forall j | 0 < j <= k && j < m ensures choices[j].start - choices[j - 1].start <= FORCE_PICK {
            assert all[j] == choices[j] && all[j - 1] == choices[j - 1];
          }
        }
        var j :| 0 <= j < k && choices[j].conn == Other(choices[k].conn)
          && choices[k].start - choices[j].start <= FORCE_PICK;
        assert all[j] == choices[j];
      } else if start - LastStart(choices, c) > FORCE_PICK {
        assert all[m].start - all[m - 1].start <= FORCE_PICK;
        assert all[m - 1] == choices[m - 1];
        assert choices[m - 1].conn == Other(c);
      } else {
        LastStartIsAChoice(choices, Other(c));
        var j :| 0 <= j < m && choices[j] == Choice(Other(c), LastStart(choices, Other(c)));
        assert all[j] == choices[j];
      }
    }
  }

  lemma LastStartAfter(choices: seq<Choice>, c: nat, start: int, d: nat)
    ensures LastStart(choices + [Choice(c, start)], d) == if d == c then start else LastStart(choices, d)
  {
    assert (choices + [Choice(c, start)])[..|choices|] == choices;
  }

  lemma ChosenTimed(s: Machine, c: nat, start: int)
    requires Timed(s) && c < |s.conns| && ClockValue(start) && s.lock == HeldByPick
    requires |s.conns| == 2 ==>
               start - LastStart(s.choices, c) > FORCE_PICK || start - LastStart(s.choices, Other(c)) <= FORCE_PICK
    ensures Timed(Chosen(s, c, start))
  {
    forall d | 0 <= d < |s.conns| {
      LastStartAfter(s.choices, c, start, d);
    }
    if |s.conns| == 2 {
      ChoiceServed(s.choices, c, start);
    }
  }

  lemma PickKeepsTimed(s: Machine)
    requires Timed(s) && Enabled(s, Pick)
    ensures Timed(PickStep(s))
  {
    P2cSafety.ShapeKept(s, Pick);
    match s.picking
    case SwapPick(_, c2, start, _) => ChosenTimed(s, c2, start);
    case StorePick(c1, other, start) => ChosenTimed(s, c1, start);
    case _ =>
  }

  lemma TimedKept(s: Machine, e: Event)
    requires Timed(s) && Enabled(s, e)
    ensures Timed(Next(s, e))
  {
    P2cSafety.ShapeKept(s, e);
    if e == Pick {
      PickKeepsTimed(s);
    }
  }

  lemma {:induction false} TimedAlways(n: nat, es: seq<Event>)
    requires After(n, es).Some?
    ensures Timed(After(n, es).value)
  {
    P2cSafety.ShapeAlways(n, es);
    if es != [] {
      TimedAlways(n, es[..|es| - 1]);
      TimedKept(After(n, es[..|es| - 1]).value, es[|es| - 1]);
    }
  }

  /** In every run, whatever completions come between the load of a pick time and its
      compare-and-swap, the swap succeeds: only the holder of the lock stores pick times. */
  lemma {:induction false} SwapSucceeds(n: nat, es: seq<Event>)
    requires After(n, es).Some? && After(n, es).value.picking.SwapPick?
    ensures var s := After(n, es).value;
            && s.picking.c2 < |s.conns| && s.conns[s.picking.c2].pick == s.picking.pick
            && Enabled(s, Pick) && Next(s, Pick) == Chosen(s, s.picking.c2, s.picking.start)
  {
    TimedAlways(n, es);
  }

  /** Bounded waiting: in every run with two connections, whatever the completions do to the
      loads, if picks follow each other within the force interval then at each pick after the
      first the connection passed over was picked within that interval. */
  lemma {:induction false} BoundedWaiting(es: seq<Event>, k: nat)
    requires After(2, es).Some? && 0 < k < |After(2, es).value.choices|
    requires Prompt(After(2, es).value.choices, k)
    ensures ServedBefore(After(2, es).value.choices, k)
  {
    P2cSafety.ShapeAlways(2, es);
    TimedAlways(2, es);
  }
}
