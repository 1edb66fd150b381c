/** Exactly when registration panics, and what stays out of the tables. */
module RegisterExact {
  import opened Options
  import opened Seqs
  import opened Names
  import opened Routes
  import opened RouteLookup

  // ----- One route

  /** Some route is for the controller, the action and the verb. */
  ghost predicate HasEntry(r: Table, controller: string, action: string, verb: Option<string>) {
    exists i :: 0 <= i < |r.entries| && IsFor(r.entries[i], controller, action, verb)
  }

  predicate IsFor(e: Entry, controller: string, action: string, verb: Option<string>) {
    e.controller == controller && e.action == action && e.verb == verb
  }

  lemma TakenHasEntry(r: Table, e: Entry)
    requires Faithful(r) && Registrable(e) && KeyOf(e) in TableFor(r, e)
    ensures HasEntry(r, e.controller, e.action, e.verb)
  {
    assert Known(r, KeyOf(e), e.verb.Some?);
    var i :| 0 <= i < |r.entries| && KeyOf(r.entries[i]) == KeyOf(e) && r.entries[i].verb.Some? == e.verb.Some?;
    assert Registrable(r.entries[i]);
    KeysDiffer(r.entries[i], e);
    assert IsFor(r.entries[i], e.controller, e.action, e.verb);
  }

  lemma EntryIsTaken(r: Table, e: Entry)
    requires Faithful(r) && HasEntry(r, e.controller, e.action, e.verb)
    ensures KeyOf(e) in TableFor(r, e)
  {
    var i :| 0 <= i < |r.entries| && IsFor(r.entries[i], e.controller, e.action, e.verb);
    assert Holds(r, r.entries[i]) && KeyOf(r.entries[i]) == KeyOf(e);
  }

  /** A route is taken in unless there is one for the same controller, action and verb. */
  lemma AddEntryExactly(r: Table, e: Entry)
    requires Faithful(r) && Registrable(e)
    ensures AddEntry(r, e).Some? <==> !HasEntry(r, e.controller, e.action, e.verb)
  {
    if KeyOf(e) in TableFor(r, e) {
      TakenHasEntry(r, e);
    } else if HasEntry(r, e.controller, e.action, e.verb) {
      EntryIsTaken(r, e);
    }
  }

  lemma EntriesMore(r: Table, u: Table, more: seq<Entry>, c: string, a: string, v: Option<string>)
    requires u.entries == r.entries + more
    ensures HasEntry(u, c, a, v)
        <==> HasEntry(r, c, a, v) || exists i :: 0 <= i < |more| && IsFor(more[i], c, a, v)
  {
    if i :| 0 <= i < |more| && IsFor(more[i], c, a, v) {
      assert u.entries[|r.entries| + i] == more[i];
    }
    if i :| 0 <= i < |r.entries| && IsFor(r.entries[i], c, a, v) {
      assert u.entries[i] == r.entries[i];
    }
  }

  /** What the entries for some actions add. */
  lemma ActionsMore(
      r: Table, u: Table, controller: string, actions: seq<string>, verb: Option<string>, target: Instance,
      c: string, a: string, v: Option<string>)
    requires u.entries == r.entries + ActionEntries(controller, actions, verb, target)
    ensures HasEntry(u, c, a, v) <==> HasEntry(r, c, a, v) || (c == controller && a in actions && v == verb)
  {
    var more := ActionEntries(controller, actions, verb, target);
    EntriesMore(r, u, more, c, a, v);
    if c == controller && a in actions && v == verb {
      var i :| 0 <= i < |actions| && actions[i] == a;
      assert IsFor(more[i], c, a, v);
    }
  }

  ghost predicate Unlike(actions: seq<string>) {
    forall i, j :: 0 <= i < j < |actions| ==> actions[i] != actions[j]
  }

  /** One action more. */
  lemma OneMoreAction(
      r: Table, u: Table, controller: string, front: seq<string>, a: string, verb: Option<string>, target: Instance)
    requires Faithful(u) && Registrable(Entry(controller, a, verb, target)) && a !in front
    requires u.entries == r.entries + ActionEntries(controller, front, verb, target)
    ensures AddEntry(u, Entry(controller, a, verb, target)).Some? <==> !HasEntry(r, controller, a, verb)
  {
    AddEntryExactly(u, Entry(controller, a, verb, target));
    ActionsMore(r, u, controller, front, verb, target, controller, a, verb);
  }

  /** None of the actions has a route yet. */
  ghost predicate NoneThere(r: Table, controller: string, actions: seq<string>, verb: Option<string>) {
    forall i :: 0 <= i < |actions| ==> !HasEntry(r, controller, actions[i], verb)
  }

  lemma NoneThereMore(r: Table, controller: string, actions: seq<string>, verb: Option<string>)
    requires actions != []
    ensures var front, a := actions[..|actions| - 1], actions[|actions| - 1];
            NoneThere(r, controller, actions, verb)
            <==> NoneThere(r, controller, front, verb) && !HasEntry(r, controller, a, verb)
  {
    var front := actions[..|actions| - 1];
    assert forall i :: 0 <= i < |front| ==> front[i] == actions[i];
  }

  ghost predicate AllRegistrable(controller: string, actions: seq<string>, verb: Option<string>, target: Instance) {
    forall i :: 0 <= i < |actions| ==> Registrable(Entry(controller, actions[i], verb, target))
  }

  lemma {:induction false} AddActionsExactly(
      r: Table, controller: string, actions: seq<string>, verb: Option<string>, target: Instance)
    requires Faithful(r) && r.first.Some? && Unlike(actions) && AllRegistrable(controller, actions, verb, target)
    ensures AddActions(r, controller, actions, verb, target).Some? <==> NoneThere(r, controller, actions, verb)
  {
    if actions != [] {
      var m := |actions| - 1;
      var front, a := actions[..m], actions[m];
      assert forall i :: 0 <= i < m ==> front[i] == actions[i];
      AddActionsExactly(r, controller, front, verb, target);
      NoneThereMore(r, controller, actions, verb);
      var before := AddActions(r, controller, front, verb, target);
      if before.Some? {
        AddActionsFaithful(r, controller, front, verb, target);
        OneMoreAction(r, before.value, controller, front, a, verb, target);
      }
    }
  }

  // ----- The methods of one controller

  /** The method serves the action by the verb, or without one. */
  predicate Gives(method_: string, action: string, verb: Option<string>) {
    method_ !in RESERVED && action in ServedBy(method_).actions && VerbOf(ServedBy(method_)) == verb
  }

  ghost predicate SomeGives(methods: seq<string>, action: string, verb: Option<string>) {
    exists j :: 0 <= j < |methods| && Gives(methods[j], action, verb)
  }

  /** Two items have p to do with one thing. */
  ghost predicate Shared<T(!new), K(!new)>(s: seq<T>, p: (T, K) -> bool) {
    exists j, k, x :: 0 <= j < k < |s| && p(s[j], x) && p(s[k], x)
  }

  function Giving(method_: string, route: (string, Option<string>)): bool { Gives(method_, route.0, route.1) }

  /** Two methods serve one action alike. */
  ghost predicate Clashing(methods: seq<string>) { Shared(methods, Giving) }

  lemma OwnActionsUnlike(name: string)
    ensures Unlike(ServedBy(name).actions)
  {
  }

  /** A method panics exactly when a route is there for one of its actions. */
  lemma AddMethodExactly(r: Table, controller: string, target: Instance)
    requires Faithful(r) && ProperController(controller) && '/' !in target.methodName
    ensures AddMethod(r, controller, target).None?
            <==> exists action, verb :: Gives(target.methodName, action, verb) && HasEntry(r, controller, action, verb)
  {
    var served := ServedBy(target.methodName);
    var verb := VerbOf(served);
    if target.methodName !in RESERVED {
      var q := r.(first := if r.first.None? then Some(target) else r.first);
      FaithfulTransfers(r, q);
      ProperActions(controller, target);
      OwnActionsUnlike(target.methodName);
      AddActionsExactly(q, controller, served.actions, verb, target);
      EntriesMore(r, q, [], controller, "", None);
      forall a ensures HasEntry(q, controller, a, verb) == HasEntry(r, controller, a, verb) {
      }
      if AddMethod(r, controller, target).None? {
        var i :| 0 <= i < |served.actions| && HasEntry(q, controller, served.actions[i], verb);
        assert Gives(target.methodName, served.actions[i], verb);
      }
    }
  }

  /** What a method adds. */
  lemma MethodMore(r: Table, controller: string, target: Instance, c: string, a: string, v: Option<string>)
    requires Faithful(r) && ProperController(controller) && '/' !in target.methodName
    requires AddMethod(r, controller, target).Some?
    ensures var u := AddMethod(r, controller, target).value;
            HasEntry(u, c, a, v) <==> HasEntry(r, c, a, v) || (c == controller && Gives(target.methodName, a, v))
  {
    var served := ServedBy(target.methodName);
    if target.methodName !in RESERVED {
      var q := r.(first := if r.first.None? then Some(target) else r.first);
      FaithfulTransfers(r, q);
      ProperActions(controller, target);
      AddActionsFaithful(q, controller, served.actions, VerbOf(served), target);
      var u := AddMethod(r, controller, target).value;
      ActionsMore(r, u, controller, served.actions, VerbOf(served), target, c, a, v);
    }
  }

  ghost predicate SomeIn<T(!new)>(s: seq<T>, p: T -> bool) { exists j :: 0 <= j < |s| && p(s[j]) }

  lemma SomeInMore<T(!new)>(s: seq<T>, p: T -> bool)
    requires s != []
    ensures SomeIn(s, p) <==> SomeIn(s[..|s| - 1], p) || p(s[|s| - 1])
  {
    var front := s[..|s| - 1];
    assert forall j :: 0 <= j < |front| ==> front[j] == s[j];
  }

  function GivingOne(action: string, verb: Option<string>): string -> bool {
    method_ => Gives(method_, action, verb)
  }

  lemma SomeGivesMore(methods: seq<string>, action: string, verb: Option<string>)
    requires methods != []
    ensures SomeGives(methods, action, verb)
        <==> SomeGives(methods[..|methods| - 1], action, verb) || Gives(methods[|methods| - 1], action, verb)
  {
    var p := GivingOne(action, verb);
    SomeInMore(methods, p);
    assert forall m: string :: p(m) == Gives(m, action, verb);
    assert SomeIn(methods, p) == SomeGives(methods, action, verb);
    assert SomeIn(methods[..|methods| - 1], p) == SomeGives(methods[..|methods| - 1], action, verb);
  }

  lemma SharedMore<T(!new), K(!new)>(s: seq<T>, p: (T, K) -> bool)
    requires s != []
    ensures var front, last := s[..|s| - 1], s[|s| - 1];
            Shared(s, p) <==> Shared(front, p) || exists x, j :: 0 <= j < |front| && p(last, x) && p(front[j], x)
  {
    var front := s[..|s| - 1];
    assert forall j :: 0 <= j < |front| ==> front[j] == s[j];
  }

  /** The last method gives what one before it does. */
  ghost predicate Repeats(methods: seq<string>, action: string, verb: Option<string>)
    requires methods != []
  {
    Gives(methods[|methods| - 1], action, verb) && SomeGives(methods[..|methods| - 1], action, verb)
  }

  lemma ClashingMore(methods: seq<string>)
    requires methods != []
    ensures Clashing(methods)
        <==> Clashing(methods[..|methods| - 1]) || exists action, verb :: Repeats(methods, action, verb)
  {
    var front, last := methods[..|methods| - 1], methods[|methods| - 1];
    SharedMore(methods, Giving);
    if x, j :| 0 <= j < |front| && Giving(last, x) && Giving(front[j], x) {
      assert Repeats(methods, x.0, x.1);
    }
    if action, verb :| Repeats(methods, action, verb) {
      var j :| 0 <= j < |front| && Gives(front[j], action, verb);
      assert Giving(last, (action, verb)) && Giving(front[j], (action, verb));
    }
  }

  /** The controller has no route yet. */
  ghost predicate Unused(r: Table, controller: string) {
    forall action, verb :: !HasEntry(r, controller, action, verb)
  }

  /** The second table has the routes of the first, and those the methods give. */
  ghost predicate Gained(r: Table, u: Table, controller: string, methods: seq<string>) {
    forall c, a, v :: HasEntry(u, c, a, v) <==> HasEntry(r, c, a, v) || (c == controller && SomeGives(methods, a, v))
  }

  lemma LastMethodPanics(r: Table, u: Table, controller: string, methods: seq<string>, target: Instance)
    requires Faithful(u) && ProperController(controller) && Unused(r, controller)
    requires methods != [] && target.methodName == methods[|methods| - 1] && '/' !in target.methodName
    requires Gained(r, u, controller, methods[..|methods| - 1])
    ensures AddMethod(u, controller, target).None? <==> exists action, verb :: Repeats(methods, action, verb)
  {
    AddMethodExactly(u, controller, target);
    if action, verb :| Gives(target.methodName, action, verb) && HasEntry(u, controller, action, verb) {
      assert Repeats(methods, action, verb);
    }
    if action, verb :| Repeats(methods, action, verb) {
      assert Gives(target.methodName, action, verb) && HasEntry(u, controller, action, verb);
    }
  }

  lemma LastMethodGains(r: Table, u: Table, w: Table, controller: string, methods: seq<string>, target: Instance)
    requires Faithful(u) && ProperController(controller) && AddMethod(u, controller, target) == Some(w)
    requires methods != [] && target.methodName == methods[|methods| - 1] && '/' !in target.methodName
    requires Gained(r, u, controller, methods[..|methods| - 1])
    ensures Gained(r, w, controller, methods)
  {
    forall c, a, v
      ensures HasEntry(w, c, a, v) <==> HasEntry(r, c, a, v) || (c == controller && SomeGives(methods, a, v))
    {
      MethodMore(u, controller, target, c, a, v);
      SomeGivesMore(methods, a, v);
    }
  }

  /** A new controller's routes are those its methods give; it panics exactly when two of them give
      the same. */
  lemma {:induction false} AddMethodsExactly(
      r: Table, controller: string, handler: nat, name: string, methods: seq<string>)
    requires Faithful(r) && ProperController(controller) && GoNames(methods) && Unused(r, controller)
    ensures AddMethods(r, controller, handler, name, methods).None? <==> Clashing(methods)
    ensures AddMethods(r, controller, handler, name, methods).Some? ==>
              Gained(r, AddMethods(r, controller, handler, name, methods).value, controller, methods)
  {
    if methods != [] {
      var m := |methods| - 1;
      AddMethodsExactly(r, controller, handler, name, methods[..m]);
      ClashingMore(methods);
      var before := AddMethods(r, controller, handler, name, methods[..m]);
      if before.Some? {
        AddMethodsFaithful(r, controller, handler, name, methods[..m]);
        var target := Instance(handler, name, methods[m]);
        LastMethodPanics(r, before.value, controller, methods, target);
        var after := AddMethod(before.value, controller, target);
        if after.Some? {
          LastMethodGains(r, before.value, after.value, controller, methods, target);
        }
      }
    }
  }

  // ----- Whole registrations

  /** Every route is of a registered controller, and the name recorded for a path is that of every
      registration of it. */
  ghost predicate Recorded(r: Table, gs: seq<Registration>, cfg: Config) {
    && Faithful(r)
    && (forall c, a, v :: HasEntry(r, c, a, v) ==> c in r.registered)
    && (forall c :: c in r.registered <==> Asked(gs, c, cfg))
    && (forall i :: 0 <= i < |gs| ==>
          CompleteURL(gs[i].pattern, cfg) in r.registered
          && r.registered[CompleteURL(gs[i].pattern, cfg)] == gs[i].name)
  }

  /** The path was registered before under another controller's name, or is new and two of the
      controller's methods give the same route. */
  ghost predicate Contradicts(gs: seq<Registration>, g: Registration, cfg: Config) {
    if Asked(gs, CompleteURL(g.pattern, cfg), cfg)
    then exists i :: 0 <= i < |gs| && CompleteURL(gs[i].pattern, cfg) == CompleteURL(g.pattern, cfg)
                     && gs[i].name != g.name
    else Clashing(g.methods)
  }

  lemma AskedMore(gs: seq<Registration>, g: Registration, c: string, cfg: Config)
    ensures Asked(gs + [g], c, cfg) <==> Asked(gs, c, cfg) || CompleteURL(g.pattern, cfg) == c
  {
    assert forall h :: h in gs + [g] <==> h in gs || h == g;
  }

  lemma NewPath(r: Table, gs: seq<Registration>, g: Registration, cfg: Config)
    requires Sensible(cfg) && Recorded(r, gs, cfg) && GoNames(g.methods)
    requires !Asked(gs, CompleteURL(g.pattern, cfg), cfg)
    ensures Register(r, g, cfg).None? <==> Clashing(g.methods)
    ensures Register(r, g, cfg).Some? ==>
              forall c, a, v :: HasEntry(Register(r, g, cfg).value, c, a, v) ==>
                HasEntry(r, c, a, v) || c == CompleteURL(g.pattern, cfg)
  {
    var controller := CompleteURL(g.pattern, cfg);
    var q := r.(registered := r.registered[controller := g.name]);
    CompleteIsProper(g.pattern, cfg);
    FaithfulTransfers(r, q);
    forall a, v ensures !HasEntry(q, controller, a, v) {
      assert HasEntry(q, controller, a, v) ==> HasEntry(r, controller, a, v);
    }
    AddMethodsExactly(q, controller, g.handler, g.name, g.methods);
    if Register(r, g, cfg).Some? {
      forall c, a, v | HasEntry(Register(r, g, cfg).value, c, a, v)
        ensures HasEntry(r, c, a, v) || c == controller
      {
        assert HasEntry(q, c, a, v) ==> HasEntry(r, c, a, v);
      }
    }
  }

  /** One registration panics exactly when it contradicts those before it. */
  lemma RegisterExactly(r: Table, gs: seq<Registration>, g: Registration, cfg: Config)
    requires Sensible(cfg) && Recorded(r, gs, cfg) && GoNames(g.methods)
    ensures Register(r, g, cfg).None? <==> Contradicts(gs, g, cfg)
  {
    var controller := CompleteURL(g.pattern, cfg);
    if Asked(gs, controller, cfg) {
      var h :| h in gs && CompleteURL(h.pattern, cfg) == controller;
      var i :| 0 <= i < |gs| && gs[i] == h;
    } else {
      NewPath(r, gs, g, cfg);
    }
  }

  lemma EntriesRecorded(r: Table, u: Table, gs: seq<Registration>, g: Registration, cfg: Config)
    requires Sensible(cfg) && Recorded(r, gs, cfg) && GoNames(g.methods) && Register(r, g, cfg) == Some(u)
    requires NamedMore(r, u, g, cfg)
    ensures forall c, a, v :: HasEntry(u, c, a, v) ==> c in u.registered
  {
    if Asked(gs, CompleteURL(g.pattern, cfg), cfg) {
      assert u == r;
    } else {
      NewPath(r, gs, g, cfg);
    }
  }

  lemma RecordedMore(r: Table, u: Table, gs: seq<Registration>, g: Registration, cfg: Config)
    requires Sensible(cfg) && Recorded(r, gs, cfg) && GoNames(g.methods) && Register(r, g, cfg) == Some(u)
    ensures Recorded(u, gs + [g], cfg)
  {
    RegisterFaithful(r, g, cfg);
    NamesMore(r, g, cfg);
    EntriesRecorded(r, u, gs, g, cfg);
    RecordedPaths(r, u, gs, g, cfg);
    RecordedNames(r, u, gs, g, cfg);
  }

  /** The paths and names registered after one more registration. */
  ghost predicate NamedMore(r: Table, u: Table, g: Registration, cfg: Config) {
    var controller := CompleteURL(g.pattern, cfg);
    && u.registered == (if controller in r.registered then r.registered else r.registered[controller := g.name])
    && (controller in r.registered ==> r.registered[controller] == g.name)
  }

  lemma RecordedPaths(r: Table, u: Table, gs: seq<Registration>, g: Registration, cfg: Config)
    requires NamedMore(r, u, g, cfg) && forall c :: c in r.registered <==> Asked(gs, c, cfg)
    ensures forall c :: c in u.registered <==> Asked(gs + [g], c, cfg)
  {
    forall c ensures c in u.registered <==> Asked(gs + [g], c, cfg) {
      AskedMore(gs, g, c, cfg);
    }
  }

  lemma RecordedNames(r: Table, u: Table, gs: seq<Registration>, g: Registration, cfg: Config)
    requires NamedMore(r, u, g, cfg)
    requires forall i :: 0 <= i < |gs| ==>
               CompleteURL(gs[i].pattern, cfg) in r.registered
               && r.registered[CompleteURL(gs[i].pattern, cfg)] == gs[i].name
    ensures forall i :: 0 <= i < |gs + [g]| ==>
              CompleteURL((gs + [g])[i].pattern, cfg) in u.registered
              && u.registered[CompleteURL((gs + [g])[i].pattern, cfg)] == (gs + [g])[i].name
  {
    forall i | 0 <= i < |gs + [g]|
      ensures CompleteURL((gs + [g])[i].pattern, cfg) in u.registered
      ensures u.registered[CompleteURL((gs + [g])[i].pattern, cfg)] == (gs + [g])[i].name
    {
      if i < |gs| {
        assert CompleteURL(gs[i].pattern, cfg) in r.registered;
      }
    }
  }

  lemma {:induction false} MethodsKeepNames(
      r: Table, controller: string, handler: nat, name: string, methods: seq<string>)
    requires AddMethods(r, controller, handler, name, methods).Some?
    ensures AddMethods(r, controller, handler, name, methods).value.registered == r.registered
  {
    if methods != [] {
      var m := |methods| - 1;
      MethodsKeepNames(r, controller, handler, name, methods[..m]);
      var before := AddMethods(r, controller, handler, name, methods[..m]).value;
      ActionsKeepNames(
        before.(first := if before.first.None? then Some(Instance(handler, name, methods[m])) else before.first),
        controller, ServedBy(methods[m]).actions, VerbOf(ServedBy(methods[m])), Instance(handler, name, methods[m]));
    }
  }

  lemma {:induction false} ActionsKeepNames(
      r: Table, controller: string, actions: seq<string>, verb: Option<string>, target: Instance)
    ensures AddActions(r, controller, actions, verb, target).Some? ==>
              AddActions(r, controller, actions, verb, target).value.registered == r.registered
  {
    if actions != [] {
      ActionsKeepNames(r, controller, actions[..|actions| - 1], verb, target);
    }
  }

  lemma NamesMore(r: Table, g: Registration, cfg: Config)
    requires Register(r, g, cfg).Some?
    ensures NamedMore(r, Register(r, g, cfg).value, g, cfg)
  {
    var controller := CompleteURL(g.pattern, cfg);
    if controller !in r.registered {
      MethodsKeepNames(
        r.(registered := r.registered[controller := g.name]), controller, g.handler, g.name, g.methods);
    }
  }

  lemma OneMoreRegistration(gs: seq<Registration>, cfg: Config)
    requires gs != []
    ensures var before := RegisterAll(gs[..|gs| - 1], cfg);
            RegisterAll(gs, cfg) == if before.None? then None else Register(before.value, gs[|gs| - 1], cfg)
  {
    var f, last := Registering(cfg), gs[|gs| - 1];
    FoldedLast(NO_ROUTES, gs, f);
    var before := RegisterAll(gs[..|gs| - 1], cfg);
    if before.Some? {
      RegisteringIs(before.value, last, cfg);
    }
  }

  lemma RegisteringIs(r: Table, g: Registration, cfg: Config)
    ensures Registering(cfg)(r, g) == Register(r, g, cfg)
  {
  }

  lemma FrontAndLast<T>(s: seq<T>)
    requires s != []
    ensures s == s[..|s| - 1] + [s[|s| - 1]] && s[|s| - 1] in s
  {
  }

  lemma NothingRecorded(cfg: Config)
    ensures RegisterAll([], cfg) == Some(NO_ROUTES) && Recorded(NO_ROUTES, [], cfg)
  {
  }

  lemma {:induction false} RecordedAlways(gs: seq<Registration>, cfg: Config)
    requires Sensible(cfg) && AllGoNames(gs) && RegisterAll(gs, cfg).Some?
    ensures Recorded(RegisterAll(gs, cfg).value, gs, cfg)
  {
    if gs == [] {
      NothingRecorded(cfg);
    } else {
      var front, last := gs[..|gs| - 1], gs[|gs| - 1];
      OneMoreRegistration(gs, cfg);
      FrontAndLast(gs);
      RecordedAlways(front, cfg);
      RecordedMore(RegisterAll(front, cfg).value, RegisterAll(gs, cfg).value, front, last, cfg);
    }
  }

  /** Some item has p to do with those before it. */
  ghost predicate SomeAfter<T(!new)>(s: seq<T>, p: (seq<T>, T) -> bool) {
    exists k :: 0 <= k < |s| && p(s[..k], s[k])
  }

  lemma SomeAfterMore<T(!new)>(s: seq<T>, p: (seq<T>, T) -> bool)
    requires s != []
    ensures SomeAfter(s, p) <==> SomeAfter(s[..|s| - 1], p) || p(s[..|s| - 1], s[|s| - 1])
  {
    var front := s[..|s| - 1];
    assert forall k :: 0 <= k < |front| ==> front[..k] == s[..k] && front[k] == s[k];
  }

  ghost function Contradicting(cfg: Config): (seq<Registration>, Registration) -> bool {
    (before, g) => Contradicts(before, g, cfg)
  }

  /** Some registrations panic if and only if one of them contradicts those before it: its path was
      registered under another controller's name, or is new and two of its controller's methods give
      one action by one verb. */
  lemma {:induction false} PanicsExactly(gs: seq<Registration>, cfg: Config)
    requires Sensible(cfg) && AllGoNames(gs)
    ensures RegisterAll(gs, cfg).None? <==> SomeAfter(gs, Contradicting(cfg))
  {
    if gs == [] {
      NothingRecorded(cfg);
    } else {
      var front, last := gs[..|gs| - 1], gs[|gs| - 1];
      OneMoreRegistration(gs, cfg);
      SomeAfterMore(gs, Contradicting(cfg));
      FrontAndLast(gs);
      PanicsExactly(front, cfg);
      if RegisterAll(front, cfg).Some? {
        RecordedAlways(front, cfg);
        RegisterExactly(RegisterAll(front, cfg).value, front, last, cfg);
      }
    }
  }

  // ----- What stays out, and what comes first

  /** The methods every controller has from the framework are never routed. */
  lemma {:induction false} FrameworkNeverRouted(gs: seq<Registration>, i: nat, cfg: Config)
    requires Sensible(cfg) && AllGoNames(gs) && RegisterAll(gs, cfg).Some? && i < |RegisterAll(gs, cfg).value.entries|
    ensures RegisterAll(gs, cfg).value.entries[i].target.methodName
            !in ["Init", "Before", "After", "Finish", "NotFound", "ServerError"]
  {
    TablesFaithful(gs, cfg);
    assert Registrable(RegisterAll(gs, cfg).value.entries[i]);
  }

  /** The default instance is that of the first route, and there is one as soon as there are
      routes. */
  predicate FirstComesFirst(r: Table) {
    if r.entries == [] then r.first == None else r.first == Some(r.entries[0].target)
  }

  lemma {:induction false} ActionsKeepFirst(
      r: Table, controller: string, actions: seq<string>, verb: Option<string>, target: Instance)
    requires AddActions(r, controller, actions, verb, target).Some?
    ensures var u := AddActions(r, controller, actions, verb, target).value;
            && u.first == r.first && r.entries <= u.entries && (actions != [] ==> u.entries != [])
            && (r.entries == [] && u.entries != [] ==> u.entries[0].target == target)
  {
    if actions != [] {
      var front := actions[..|actions| - 1];
      ActionsKeepFirst(r, controller, front, verb, target);
    }
  }

  lemma SomeAction(name: string)
    requires name != ""
    ensures ServedBy(name).actions != []
  {
  }

  lemma MethodKeepsFirst(r: Table, controller: string, target: Instance)
    requires FirstComesFirst(r) && target.methodName != "" && AddMethod(r, controller, target).Some?
    ensures FirstComesFirst(AddMethod(r, controller, target).value)
  {
    if target.methodName !in RESERVED {
      var served := ServedBy(target.methodName);
      SomeAction(target.methodName);
      ActionsKeepFirst(
        r.(first := if r.first.None? then Some(target) else r.first),
        controller, served.actions, VerbOf(served), target);
    }
  }

  lemma {:induction false} MethodsKeepFirst(
      r: Table, controller: string, handler: nat, name: string, methods: seq<string>)
    requires FirstComesFirst(r) && (forall i :: 0 <= i < |methods| ==> methods[i] != "")
    requires AddMethods(r, controller, handler, name, methods).Some?
    ensures FirstComesFirst(AddMethods(r, controller, handler, name, methods).value)
  {
    if methods != [] {
      var m := |methods| - 1;
      MethodsKeepFirst(r, controller, handler, name, methods[..m]);
      MethodKeepsFirst(
        AddMethods(r, controller, handler, name, methods[..m]).value, controller, Instance(handler, name, methods[m]));
    }
  }

  lemma {:induction false} FirstIsFirst(gs: seq<Registration>, cfg: Config)
    requires forall i, j :: 0 <= i < |gs| && 0 <= j < |gs[i].methods| ==> gs[i].methods[j] != ""
    requires RegisterAll(gs, cfg).Some?
    ensures FirstComesFirst(RegisterAll(gs, cfg).value)
  {
    if gs != [] {
      var front, last := gs[..|gs| - 1], gs[|gs| - 1];
      OneMoreRegistration(gs, cfg);
      FirstIsFirst(front, cfg);
      var r, controller := RegisterAll(front, cfg).value, CompleteURL(last.pattern, cfg);
      if controller !in r.registered {
        MethodsKeepFirst(
          r.(registered := r.registered[controller := last.name]), controller, last.handler, last.name, last.methods);
      }
    }
  }
}
