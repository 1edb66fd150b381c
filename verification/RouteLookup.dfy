/** Every registered route is found at its own path, unless a route of higher priority is
    there first. */
module RouteLookup {
  import opened Options
  import opened Seqs
  import opened Text
  import opened Names
  import opened Routes

  // ----- Keys

  lemma PlainKeyInjective(c: string, a: string, d: string, b: string)
    requires '/' !in a && '/' !in b && PlainKey(c, a) == PlainKey(d, b)
    ensures c == d && a == b
  {
    SplitLast(c, '/', a);
    SplitLast(d, '/', b);
    var s, t := Split(c, '/') + [a], Split(d, '/') + [b];
    assert s[|s| - 1] == a && t[|t| - 1] == b;
    assert PlainKey(c, a)[..|c|] == c && PlainKey(d, b)[..|d|] == d;
  }

  /** Past "for" a verb key has only capitals; the last letter of "for" is none. */
  lemma VerbKeyShape(p: string, v: string)
    requires AllCapitals(v)
    ensures var s := VerbKey(p, v);
            |s| == |p| + 3 + |v| && s[|p| + 2] == 'r' && forall k :: |p| + 3 <= k < |s| ==> IsUpper(s[k])
    ensures VerbKey(p, v)[..|p|] == p && VerbKey(p, v)[|p| + 3..] == v
  {
  }

  lemma VerbKeyInjective(p: string, v: string, q: string, w: string)
    requires AllCapitals(v) && AllCapitals(w) && VerbKey(p, v) == VerbKey(q, w)
    ensures p == q && v == w
  {
    VerbKeyShape(p, v);
    VerbKeyShape(q, w);
  }

  /** The request's method hides no route in itself, as "xforGET" would. */
  ghost predicate PlainVerb(verb: string) {
    forall x: string, v :: v in VERBS ==> verb != VerbKey(x, v)
  }

  lemma {:induction false} CapitalsArePlain(verb: string)
    requires AllCapitals(verb)
    ensures PlainVerb(verb)
  {
    forall x: string, v | v in VERBS ensures verb != VerbKey(x, v) {
      assert VerbKey(x, v)[|x|] == 'f';
    }
  }

  /** One key, one path and one verb, unless the second verb holds a route of the first. */
  lemma VerbKeySplit(p: string, v: string, q: string, w: string)
    requires AllCapitals(v) && VerbKey(p, v) == VerbKey(q, w)
    ensures (p == q && v == w) || exists x: string :: w == VerbKey(x, v)
  {
    VerbKeyShape(p, v);
    var s := VerbKey(q, w);
    assert s[..|q|] == q && s[|q| + 3..] == w;
    assert s[|q|] == 'f' && s[|q| + 1] == 'o' && s[|q| + 2] == 'r';
    assert s[|p|] == 'f';
    if |p| >= |q| + 3 {
      var x := s[|q| + 3..|p|];
      assert s == s[..|q| + 3] + (x + "for" + v);
      assert w == VerbKey(x, v);
    }
  }

  lemma VerbKeyDecides(p: string, v: string, q: string, w: string)
    requires v in VERBS && PlainVerb(w) && VerbKey(p, v) == VerbKey(q, w)
    ensures p == q && v == w
  {
    VerbsAreCapitals(v);
    VerbKeySplit(p, v, q, w);
  }

  /** What every entry is made of. */
  ghost predicate Proper(e: Entry) {
    && '/' !in e.action && Lowered(e.action)
    && Lowered(e.controller) && e.controller != "" && e.controller[0] != '/'
    && (e.verb.Some? ==> e.verb.value in VERBS)
  }

  /** What registration adds: the methods of the framework itself never become routes. */
  ghost predicate Registrable(e: Entry) { Proper(e) && e.target.methodName !in RESERVED }

  /** Routes that differ in controller, action or verb never share a key of one table. */
  lemma {:induction false} KeysDiffer(e: Entry, f: Entry)
    requires Proper(e) && Proper(f) && (e.verb.Some? <==> f.verb.Some?) && KeyOf(e) == KeyOf(f)
    ensures e.controller == f.controller && e.action == f.action && e.verb == f.verb
  {
    if e.verb.Some? {
      VerbsAreCapitals(e.verb.value);
      VerbsAreCapitals(f.verb.value);
      VerbKeyInjective(
        PlainKey(e.controller, e.action), e.verb.value, PlainKey(f.controller, f.action), f.verb.value);
    }
    PlainKeyInjective(e.controller, e.action, f.controller, f.action);
  }

  // ----- The tables are what was registered

  ghost predicate Holds(r: Table, e: Entry) {
    KeyOf(e) in TableFor(r, e) && TableFor(r, e)[KeyOf(e)] == e.target
  }

  ghost predicate Known(r: Table, key: string, verbs: bool) {
    exists i :: 0 <= i < |r.entries| && KeyOf(r.entries[i]) == key && r.entries[i].verb.Some? == verbs
  }

  /** The two routes have different keys, or lie in different tables. */
  predicate Apart(e: Entry, f: Entry) {
    e.verb.Some? != f.verb.Some? || KeyOf(e) != KeyOf(f)
  }

  ghost predicate PairwiseApart(entries: seq<Entry>) {
    forall i, j :: 0 <= i < j < |entries| ==> Apart(entries[i], entries[j])
  }

  lemma StayApart(entries: seq<Entry>, e: Entry)
    requires PairwiseApart(entries) && forall i :: 0 <= i < |entries| ==> Apart(entries[i], e)
    ensures PairwiseApart(entries + [e])
  {
  }

  ghost predicate Faithful(r: Table) {
    && (forall i :: 0 <= i < |r.entries| ==> Registrable(r.entries[i]) && Holds(r, r.entries[i]))
    && (forall key :: key in r.plain ==> Known(r, key, false))
    && (forall key :: key in r.verbs ==> Known(r, key, true))
    && PairwiseApart(r.entries)
    && (r.entries != [] ==> r.first.Some?)
  }

  lemma KnownGrows(r: Table, u: Table, key: string, verbs: bool)
    requires Known(r, key, verbs) && r.entries <= u.entries
    ensures Known(u, key, verbs)
  {
    var i :| 0 <= i < |r.entries| && KeyOf(r.entries[i]) == key && r.entries[i].verb.Some? == verbs;
    assert u.entries[i] == r.entries[i];
  }

  lemma KeysStayKnown(r: Table, u: Table, e: Entry)
    requires forall key :: key in r.plain ==> Known(r, key, false)
    requires forall key :: key in r.verbs ==> Known(r, key, true)
    requires AddEntry(r, e) == Some(u)
    ensures forall key :: key in u.plain ==> Known(u, key, false)
    ensures forall key :: key in u.verbs ==> Known(u, key, true)
  {
    assert u.entries[|r.entries|] == e;
    forall key | key in u.plain ensures Known(u, key, false) {
      if key in r.plain { KnownGrows(r, u, key, false); }
    }
    forall key | key in u.verbs ensures Known(u, key, true) {
      if key in r.verbs { KnownGrows(r, u, key, true); }
    }
  }

  lemma EntriesStayHeld(r: Table, u: Table, e: Entry)
    requires forall i :: 0 <= i < |r.entries| ==> Registrable(r.entries[i]) && Holds(r, r.entries[i])
    requires Registrable(e) && AddEntry(r, e) == Some(u)
    ensures forall i :: 0 <= i < |u.entries| ==> Registrable(u.entries[i]) && Holds(u, u.entries[i])
    ensures forall i :: 0 <= i < |r.entries| ==> Apart(r.entries[i], e)
  {
    forall i | 0 <= i < |u.entries| ensures Registrable(u.entries[i]) && Holds(u, u.entries[i]) {
      if i < |r.entries| {
        assert u.entries[i] == r.entries[i] && Registrable(r.entries[i]) && Holds(r, r.entries[i]);
      }
    }
    forall i | 0 <= i < |r.entries| ensures Apart(r.entries[i], e) {
      assert Holds(r, r.entries[i]);
    }
  }

  lemma AddEntryFaithful(r: Table, e: Entry)
    requires Faithful(r) && Registrable(e) && r.first.Some? && AddEntry(r, e).Some?
    ensures Faithful(AddEntry(r, e).value) && AddEntry(r, e).value.entries == r.entries + [e]
    ensures AddEntry(r, e).value.first == r.first
  {
    var u := AddEntry(r, e).value;
    KeysStayKnown(r, u, e);
    EntriesStayHeld(r, u, e);
    StayApart(r.entries, e);
  }

  function ActionEntries(controller: string, actions: seq<string>, verb: Option<string>, target: Instance)
      : (es: seq<Entry>)
    ensures |es| == |actions|
    ensures forall i :: 0 <= i < |actions| ==> es[i] == Entry(controller, actions[i], verb, target)
  {
    if actions == [] then []
    else
      ActionEntries(controller, actions[..|actions| - 1], verb, target)
      + [Entry(controller, actions[|actions| - 1], verb, target)]
  }

  lemma {:induction false} AddActionsFaithful(
      r: Table, controller: string, actions: seq<string>, verb: Option<string>, target: Instance)
    requires Faithful(r) && r.first.Some? && AddActions(r, controller, actions, verb, target).Some?
    requires forall i :: 0 <= i < |actions| ==> Registrable(Entry(controller, actions[i], verb, target))
    ensures var u := AddActions(r, controller, actions, verb, target).value;
            Faithful(u) && u.first == r.first && u.registered == r.registered
            && u.entries == r.entries + ActionEntries(controller, actions, verb, target)
  {
    if actions != [] {
      var m := |actions| - 1;
      var front := actions[..m];
      assert forall i :: 0 <= i < m ==> front[i] == actions[i];
      AddActionsFaithful(r, controller, front, verb, target);
      AddEntryFaithful(
        AddActions(r, controller, front, verb, target).value, Entry(controller, actions[m], verb, target));
    }
  }

  ghost predicate ProperController(c: string) { Lowered(c) && c != "" && c[0] != '/' }

  lemma ProperActions(controller: string, target: Instance)
    requires ProperController(controller) && '/' !in target.methodName && target.methodName !in RESERVED
    ensures var served := ServedBy(target.methodName);
            forall i :: 0 <= i < |served.actions| ==>
              Registrable(Entry(controller, served.actions[i], VerbOf(served), target))
  {
    ActionsPlain(target.methodName);
    if target.methodName != "" {
      VerbReported(target.methodName);
    }
    var served := ServedBy(target.methodName);
    forall i | 0 <= i < |served.actions|
      ensures Registrable(Entry(controller, served.actions[i], VerbOf(served), target))
    {
      assert served.actions[i] in served.actions;
    }
  }

  /** Every action of the method is an entry. */
  ghost predicate Covers(r: Table, controller: string, target: Instance) {
    var served := ServedBy(target.methodName);
    target.methodName !in RESERVED ==>
      forall a :: a in served.actions ==> Entry(controller, a, VerbOf(served), target) in r.entries
  }

  lemma CoversGrows(r: Table, u: Table, controller: string, target: Instance)
    requires Covers(r, controller, target) && r.entries <= u.entries
    ensures Covers(u, controller, target)
  {
    assert forall e :: e in r.entries ==> e in u.entries;
  }

  /** Faithfulness is about the routes alone. */
  lemma FaithfulTransfers(r: Table, q: Table)
    requires Faithful(r) && q.plain == r.plain && q.verbs == r.verbs && q.entries == r.entries
    requires r.first.Some? ==> q.first.Some?
    ensures Faithful(q)
  {
    forall i | 0 <= i < |q.entries| ensures Registrable(q.entries[i]) && Holds(q, q.entries[i]) {
      assert Registrable(r.entries[i]) && Holds(r, r.entries[i]);
    }
    forall key | key in q.plain ensures Known(q, key, false) {
      KnownGrows(r, q, key, false);
    }
    forall key | key in q.verbs ensures Known(q, key, true) {
      KnownGrows(r, q, key, true);
    }
  }

  lemma ActionsCovered(r: Table, u: Table, controller: string, target: Instance)
    requires u.entries
             == r.entries + ActionEntries(controller, ServedBy(target.methodName).actions,
                                          VerbOf(ServedBy(target.methodName)), target)
    ensures Covers(u, controller, target)
  {
    var served := ServedBy(target.methodName);
    forall a | a in served.actions ensures Entry(controller, a, VerbOf(served), target) in u.entries {
      var i :| 0 <= i < |served.actions| && served.actions[i] == a;
      assert u.entries[|r.entries| + i] == Entry(controller, a, VerbOf(served), target);
    }
  }

  lemma AddMethodFaithful(r: Table, controller: string, target: Instance)
    requires Faithful(r) && ProperController(controller) && '/' !in target.methodName
    requires AddMethod(r, controller, target).Some?
    ensures var u := AddMethod(r, controller, target).value;
            Faithful(u) && r.entries <= u.entries && Covers(u, controller, target)
            && u.registered == r.registered
  {
    if target.methodName !in RESERVED {
      var served := ServedBy(target.methodName);
      var q := r.(first := if r.first.None? then Some(target) else r.first);
      FaithfulTransfers(r, q);
      ProperActions(controller, target);
      AddActionsFaithful(q, controller, served.actions, VerbOf(served), target);
      ActionsCovered(r, AddMethod(r, controller, target).value, controller, target);
    }
  }

  ghost predicate GoNames(methods: seq<string>) {
    forall i :: 0 <= i < |methods| ==> '/' !in methods[i]
  }

  ghost predicate CoversAll(r: Table, controller: string, handler: nat, name: string, methods: seq<string>) {
    methods == []
    || (&& CoversAll(r, controller, handler, name, methods[..|methods| - 1])
        && Covers(r, controller, Instance(handler, name, methods[|methods| - 1])))
  }

  lemma {:induction false} CoversAt(
      r: Table, controller: string, handler: nat, name: string, methods: seq<string>, i: nat)
    requires CoversAll(r, controller, handler, name, methods) && i < |methods|
    ensures Covers(r, controller, Instance(handler, name, methods[i]))
  {
    var front := methods[..|methods| - 1];
    if i < |front| {
      CoversAt(r, controller, handler, name, front, i);
      assert front[i] == methods[i];
    }
  }

  lemma {:induction false} CoversAllGrows(
      r: Table, u: Table, controller: string, handler: nat, name: string, methods: seq<string>)
    requires CoversAll(r, controller, handler, name, methods) && r.entries <= u.entries
    ensures CoversAll(u, controller, handler, name, methods)
  {
    if methods != [] {
      CoversAllGrows(r, u, controller, handler, name, methods[..|methods| - 1]);
      CoversGrows(r, u, controller, Instance(handler, name, methods[|methods| - 1]));
    }
  }

  lemma {:induction false} AddMethodsFaithful(
      r: Table, controller: string, handler: nat, name: string, methods: seq<string>)
    requires Faithful(r) && ProperController(controller) && GoNames(methods)
    requires AddMethods(r, controller, handler, name, methods).Some?
    ensures var u := AddMethods(r, controller, handler, name, methods).value;
            Faithful(u) && r.entries <= u.entries && CoversAll(u, controller, handler, name, methods)
            && u.registered == r.registered
  {
    if methods != [] {
      var m := |methods| - 1;
      AddMethodsFaithful(r, controller, handler, name, methods[..m]);
      var before := AddMethods(r, controller, handler, name, methods[..m]).value;
      AddMethodFaithful(before, controller, Instance(handler, name, methods[m]));
      CoversAllGrows(
        before, AddMethods(r, controller, handler, name, methods).value, controller, handler, name, methods[..m]);
    }
  }

  lemma TrimLowered(s: string)
    requires Lowered(s)
    ensures Lowered(Trim(s, '/'))
  {
    var trimmed := Trim(s, '/');
    forall i | 0 <= i < |trimmed| ensures !IsUpper(trimmed[i]) {
      assert trimmed[i] in s;
    }
  }

  lemma CompleteIsProper(url: string, cfg: Config)
    requires Sensible(cfg)
    ensures ProperController(CompleteURL(url, cfg))
  {
    TrimLowered(ToLower(url));
  }

  lemma RegisterFaithful(r: Table, g: Registration, cfg: Config)
    requires Faithful(r) && Sensible(cfg) && GoNames(g.methods) && Register(r, g, cfg).Some?
    ensures var u := Register(r, g, cfg).value;
            var controller := CompleteURL(g.pattern, cfg);
            && Faithful(u) && r.entries <= u.entries
            && u.registered.Keys == r.registered.Keys + {controller}
            && (controller !in r.registered ==> CoversAll(u, controller, g.handler, g.name, g.methods))
  {
    var controller := CompleteURL(g.pattern, cfg);
    CompleteIsProper(g.pattern, cfg);
    if controller !in r.registered {
      var q := r.(registered := r.registered[controller := g.name]);
      assert q.registered.Keys == r.registered.Keys + {controller};
      FaithfulTransfers(r, q);
      AddMethodsFaithful(q, controller, g.handler, g.name, g.methods);
    }
  }

  ghost predicate AllGoNames(gs: seq<Registration>) {
    forall g :: g in gs ==> GoNames(g.methods)
  }

  /** After any registrations without a panic the tables hold exactly the routes registered, no
      two of them under one key. */
  lemma {:induction false} TablesFaithful(gs: seq<Registration>, cfg: Config)
    requires Sensible(cfg) && AllGoNames(gs) && RegisterAll(gs, cfg).Some?
    ensures Faithful(RegisterAll(gs, cfg).value)
  {
    forall r, g | Faithful(r) && g in gs && Registering(cfg)(r, g).Some?
      ensures Faithful(Registering(cfg)(r, g).value)
    {
      RegisterFaithful(r, g, cfg);
    }
    assert gs[..0] == [];
    FoldedKeeps(NO_ROUTES, gs, Registering(cfg), r => Faithful(r), 0);
  }

  /** The path is that of some registration. */
  ghost predicate Asked(gs: seq<Registration>, c: string, cfg: Config) {
    exists g :: g in gs && CompleteURL(g.pattern, cfg) == c
  }

  ghost predicate OnlyAsked(r: Table, gs: seq<Registration>, cfg: Config) {
    Faithful(r) && forall c :: c in r.registered.Keys ==> Asked(gs, c, cfg)
  }

  /** Only paths asked for are registered. */
  lemma {:induction false} RegisteredPaths(gs: seq<Registration>, cfg: Config)
    requires Sensible(cfg) && AllGoNames(gs) && RegisterAll(gs, cfg).Some?
    ensures OnlyAsked(RegisterAll(gs, cfg).value, gs, cfg)
  {
    forall r, g | OnlyAsked(r, gs, cfg) && g in gs && Registering(cfg)(r, g).Some?
      ensures OnlyAsked(Registering(cfg)(r, g).value, gs, cfg)
    {
      RegisterFaithful(r, g, cfg);
    }
    assert gs[..0] == [];
    FoldedKeeps(NO_ROUTES, gs, Registering(cfg), r => OnlyAsked(r, gs, cfg), 0);
  }

  ghost predicate Routed(r: Table, g: Registration, cfg: Config) {
    Faithful(r) && CoversAll(r, CompleteURL(g.pattern, cfg), g.handler, g.name, g.methods)
  }

  /** A path nobody asked for before is registered with all its routes. */
  lemma NewPathIsRouted(front: seq<Registration>, g: Registration, cfg: Config)
    requires Sensible(cfg) && AllGoNames(front) && GoNames(g.methods) && RegisterAll(front, cfg).Some?
    requires Register(RegisterAll(front, cfg).value, g, cfg).Some?
    requires !Asked(front, CompleteURL(g.pattern, cfg), cfg)
    ensures Routed(Register(RegisterAll(front, cfg).value, g, cfg).value, g, cfg)
  {
    RegisteredPaths(front, cfg);
    assert CompleteURL(g.pattern, cfg) !in RegisterAll(front, cfg).value.registered.Keys;
    RegisterFaithful(RegisterAll(front, cfg).value, g, cfg);
  }

  lemma StaysRouted(r: Table, g: Registration, next: Registration, cfg: Config)
    requires Routed(r, g, cfg) && Sensible(cfg) && GoNames(next.methods) && Register(r, next, cfg).Some?
    ensures Routed(Register(r, next, cfg).value, g, cfg)
  {
    RegisterFaithful(r, next, cfg);
    CoversAllGrows(r, Register(r, next, cfg).value, CompleteURL(g.pattern, cfg), g.handler, g.name, g.methods);
  }

  lemma OneMoreRegistered(gs: seq<Registration>, k: nat, cfg: Config)
    requires k < |gs| && RegisterAll(gs, cfg).Some?
    ensures RegisterAll(gs[..k], cfg).Some?
    ensures RegisterAll(gs[..k + 1], cfg) == Register(RegisterAll(gs[..k], cfg).value, gs[k], cfg)
    ensures RegisterAll(gs[..k + 1], cfg).Some?
  {
    FoldedPrefix(NO_ROUTES, gs, Registering(cfg), k);
    FoldedPrefix(NO_ROUTES, gs, Registering(cfg), k + 1);
    assert gs[..k + 1][..k] == gs[..k];
  }

  /** Every action of every method of the first controller registered at a path is a route, and
      stays one. */
  lemma {:induction false} RegisteredIsRouted(gs: seq<Registration>, k: nat, cfg: Config)
    requires Sensible(cfg) && AllGoNames(gs) && RegisterAll(gs, cfg).Some? && k < |gs|
    requires !Asked(gs[..k], CompleteURL(gs[k].pattern, cfg), cfg)
    ensures Routed(RegisterAll(gs, cfg).value, gs[k], cfg)
  {
    OneMoreRegistered(gs, k, cfg);
    NewPathIsRouted(gs[..k], gs[k], cfg);
    forall r, g | Routed(r, gs[k], cfg) && g in gs && Registering(cfg)(r, g).Some?
      ensures Routed(Registering(cfg)(r, g).value, gs[k], cfg)
    {
      StaysRouted(r, gs[k], g, cfg);
    }
    FoldedKeeps(NO_ROUTES, gs, Registering(cfg), r => Routed(r, gs[k], cfg), k + 1);
  }

  // ----- Lookup

  /** The path is that of the route, whatever the letter case and the slashes around it. */
  ghost predicate Addresses(url: string, e: Entry) {
    exists pre, middle, post :: url == pre + middle + post && AllAre(pre, '/') && AllAre(post, '/')
      && ToLower(middle) == PlainKey(e.controller, e.action)
  }

  lemma SlashesLower(s: string)
    requires AllAre(s, '/')
    ensures ToLower(s) == s
  {
  }

  lemma CompletesToOwn(url: string, e: Entry, cfg: Config)
    requires Proper(e) && e.action != "" && Addresses(url, e)
    ensures CompleteURL(url, cfg) == PlainKey(e.controller, e.action)
  {
    var pre, middle, post :| url == pre + middle + post && AllAre(pre, '/') && AllAre(post, '/')
      && ToLower(middle) == PlainKey(e.controller, e.action);
    SlashesLower(pre);
    SlashesLower(post);
    ToLowerConcat(pre + middle, post);
    ToLowerConcat(pre, middle);
    var key := PlainKey(e.controller, e.action);
    assert key[|key| - 1] == e.action[|e.action| - 1] && e.action[|e.action| - 1] in e.action;
    TrimWrapped(pre, key, post, '/');
  }

  lemma OwnPathIsSelf(e: Entry)
    requires Proper(e)
    ensures OwnPath(PlainKey(e.controller, e.action)) == PlainKey(e.controller, e.action)
  {
    SplitLast(e.controller, '/', e.action);
    var parts := Split(PlainKey(e.controller, e.action), '/');
    assert parts[..|parts| - 1] == Split(e.controller, '/');
  }

  /** A route is found at its own path, in any letter case and between any slashes, by a request
      with its verb, or any verb when it names none; first come only a route registered for the
      default action at that longer path, and for a route without a verb the one with the
      request's verb. */
  lemma {:induction false} FoundAtOwnPath(r: Table, i: nat, url: string, verb: string, cfg: Config)
    requires Faithful(r) && i < |r.entries| && r.entries[i].action != "" && Addresses(url, r.entries[i])
    requires r.entries[i].verb == None || r.entries[i].verb == Some(verb)
    ensures var e := r.entries[i];
            var path := PlainKey(e.controller, e.action);
            var target := Find(r, url, verb, cfg).target;
            if TryPath(r, PlainKey(path, cfg.defaultAction), verb).Some? then
              target == TryPath(r, PlainKey(path, cfg.defaultAction), verb)
            else if e.verb == None && VerbKey(path, verb) in r.verbs then
              target == Some(r.verbs[VerbKey(path, verb)])
            else target == Some(e.target)
  {
    var e := r.entries[i];
    assert Proper(e) && Holds(r, e);
    CompletesToOwn(url, e, cfg);
    OwnPathIsSelf(e);
  }

  lemma FormIsServed(name: string, base: string, verb: Option<string>, action: string)
    requires name != "" && Spells(name, base, verb) && (action == ToLower(base) || action == SnakeOf(base))
    ensures action in ServedBy(name).actions && VerbOf(ServedBy(name)) == verb
  {
    ActionsExactly(name, base, verb);
    assert action in multiset(ServedBy(name).actions);
  }

  /** From registration to lookup: each method of the first controller registered at a path is found
      at the lower-case and at the snake form of its own name, which is without its verb, unless a
      route of higher priority is there first. */
  lemma {:induction false} RegisteredIsFound(
      gs: seq<Registration>, k: nat, j: nat, base: string, own: Option<string>, action: string, url: string,
      verb: string, cfg: Config)
    requires Sensible(cfg) && AllGoNames(gs) && RegisterAll(gs, cfg).Some?
    requires k < |gs| && j < |gs[k].methods| && gs[k].methods[j] !in RESERVED
    requires !Asked(gs[..k], CompleteURL(gs[k].pattern, cfg), cfg)
    requires base != "" && Spells(gs[k].methods[j], base, own) && (action == ToLower(base) || action == SnakeOf(base))
    requires own.Some? ==> verb == own.value
    requires Addresses(url, Entry(CompleteURL(gs[k].pattern, cfg), action, own,
                                  Instance(gs[k].handler, gs[k].name, gs[k].methods[j])))
    ensures var r := RegisterAll(gs, cfg).value;
            var path := PlainKey(CompleteURL(gs[k].pattern, cfg), action);
            var target := Find(r, url, verb, cfg).target;
            if TryPath(r, PlainKey(path, cfg.defaultAction), verb).Some? then
              target == TryPath(r, PlainKey(path, cfg.defaultAction), verb)
            else if own == None && VerbKey(path, verb) in r.verbs then
              target == Some(r.verbs[VerbKey(path, verb)])
            else target == Some(Instance(gs[k].handler, gs[k].name, gs[k].methods[j]))
  {
    var name := gs[k].methods[j];
    FormIsServed(name, base, own, action);
    SnakeLength(base);
    TablesFaithful(gs, cfg);
    RegisteredIsRouted(gs, k, cfg);
    var r := RegisterAll(gs, cfg).value;
    var e := Entry(CompleteURL(gs[k].pattern, cfg), action, own, Instance(gs[k].handler, gs[k].name, name));
    CoversAt(r, CompleteURL(gs[k].pattern, cfg), gs[k].handler, gs[k].name, gs[k].methods, j);
    var i :| 0 <= i < |r.entries| && r.entries[i] == e;
    FoundAtOwnPath(r, i, url, verb, cfg);
  }

  /** The entry's key is one of the two a request with the verb tries at the path. */
  ghost predicate Serves(e: Entry, path: string, verb: string) {
    KeyOf(e) == if e.verb.Some? then VerbKey(path, verb) else path
  }

  ghost predicate HasRoute(r: Table, path: string, verb: string) {
    exists i :: 0 <= i < |r.entries| && Serves(r.entries[i], path, verb)
  }

  /** For a method that hides no route in itself: the entry is registered at the path, without a
      verb or with the request's. */
  lemma {:induction false} ServesOwnPath(e: Entry, path: string, verb: string)
    requires Proper(e) && PlainVerb(verb)
    ensures Serves(e, path, verb)
        <==> PlainKey(e.controller, e.action) == path && (e.verb == None || e.verb == Some(verb))
  {
    if e.verb.Some? && Serves(e, path, verb) {
      VerbKeyDecides(PlainKey(e.controller, e.action), e.verb.value, path, verb);
    }
  }

  /** What a path gives is the target of a route that serves it, one with a verb if there is one. */
  lemma TriedIsServed(r: Table, path: string, verb: string) returns (i: nat)
    requires Faithful(r) && TryPath(r, path, verb).Some?
    ensures i < |r.entries| && Serves(r.entries[i], path, verb)
    ensures TryPath(r, path, verb) == Some(r.entries[i].target)
    ensures VerbKey(path, verb) in r.verbs ==> r.entries[i].verb.Some?
  {
    var verbs := VerbKey(path, verb) in r.verbs;
    var key := if verbs then VerbKey(path, verb) else path;
    assert Known(r, key, verbs);
    i :| 0 <= i < |r.entries| && KeyOf(r.entries[i]) == key && r.entries[i].verb.Some? == verbs;
    assert Holds(r, r.entries[i]);
  }

  /** A path is in the tables if and only if some registered route has one of the two keys that
      are tried. */
  lemma {:induction false} TriedExactly(r: Table, path: string, verb: string)
    requires Faithful(r)
    ensures TryPath(r, path, verb).Some? <==> HasRoute(r, path, verb)
  {
    if TryPath(r, path, verb).Some? {
      var i := TriedIsServed(r, path, verb);
    }
    if HasRoute(r, path, verb) {
      var i :| 0 <= i < |r.entries| && Serves(r.entries[i], path, verb);
      assert Holds(r, r.entries[i]);
    }
  }

  /** The paths a request is looked up at. */
  function LongerPath(input: string, cfg: Config): string { PlainKey(CompleteURL(input, cfg), cfg.defaultAction) }

  function PathItself(input: string, cfg: Config): string { OwnPath(CompleteURL(input, cfg)) }

  lemma TargetNamed(r: Table, path: string, verb: string)
    requires Faithful(r) && TryPath(r, path, verb).Some?
    ensures TryPath(r, path, verb).value.methodName != "NotFound"
  {
    var i := TriedIsServed(r, path, verb);
    assert Registrable(r.entries[i]) && RESERVED[4] == "NotFound";
  }

  /** A lookup ends in NotFound if and only if no registered route has a key that is tried at
      either of the two paths. */
  lemma {:induction false} NotFoundExactly(r: Table, input: string, verb: string, cfg: Config)
    requires Faithful(r)
    ensures Find(r, input, verb, cfg).action == "NotFound"
            <==> !HasRoute(r, LongerPath(input, cfg), verb) && !HasRoute(r, PathItself(input, cfg), verb)
    ensures Find(r, input, verb, cfg).action == "NotFound" ==> Find(r, input, verb, cfg).target == r.first
  {
    var longer, itself := LongerPath(input, cfg), PathItself(input, cfg);
    TriedExactly(r, longer, verb);
    TriedExactly(r, itself, verb);
    if TryPath(r, longer, verb).Some? {
      TargetNamed(r, longer, verb);
    } else if TryPath(r, itself, verb).Some? {
      TargetNamed(r, itself, verb);
    }
  }

  /** The route that comes first at the longer path has one of the keys tried there; for a method
      that hides no route in itself it is a default action registered there. */
  lemma {:induction false} ShadowIsDefaultAction(r: Table, path: string, verb: string, cfg: Config)
    requires Faithful(r) && '/' !in cfg.defaultAction
    requires TryPath(r, PlainKey(path, cfg.defaultAction), verb).Some?
    ensures exists i :: 0 <= i < |r.entries| && Serves(r.entries[i], PlainKey(path, cfg.defaultAction), verb)
              && TryPath(r, PlainKey(path, cfg.defaultAction), verb) == Some(r.entries[i].target)
              && (PlainVerb(verb) ==>
                    r.entries[i].controller == path && r.entries[i].action == cfg.defaultAction
                    && (r.entries[i].verb == None || r.entries[i].verb == Some(verb)))
  {
    var i := TriedIsServed(r, PlainKey(path, cfg.defaultAction), verb);
    var e := r.entries[i];
    assert Proper(e);
    if PlainVerb(verb) {
      ServesOwnPath(e, PlainKey(path, cfg.defaultAction), verb);
      PlainKeyInjective(e.controller, e.action, path, cfg.defaultAction);
    }
  }

  /** The route with a verb that comes before a route without one has the key tried for the
      request's verb; for a method that hides no route in itself it is a route of the same
      controller and action, with that verb. */
  lemma {:induction false} ShadowIsVerbRoute(r: Table, e: Entry, verb: string)
    requires Faithful(r) && Proper(e)
    requires VerbKey(PlainKey(e.controller, e.action), verb) in r.verbs
    ensures exists i :: 0 <= i < |r.entries|
              && r.entries[i].verb.Some? && Serves(r.entries[i], PlainKey(e.controller, e.action), verb)
              && r.verbs[VerbKey(PlainKey(e.controller, e.action), verb)] == r.entries[i].target
              && (PlainVerb(verb) ==>
                    r.entries[i].controller == e.controller && r.entries[i].action == e.action
                    && r.entries[i].verb == Some(verb))
  {
    var i := TriedIsServed(r, PlainKey(e.controller, e.action), verb);
    var f := r.entries[i];
    assert Proper(f);
    if PlainVerb(verb) {
      ServesOwnPath(f, PlainKey(e.controller, e.action), verb);
      PlainKeyInjective(f.controller, f.action, e.controller, e.action);
    }
  }

  /** A path of slashes alone finds the default action of the default controller. */
  lemma {:induction false} RootFindsDefault(r: Table, i: nat, url: string, verb: string, cfg: Config)
    requires Faithful(r) && i < |r.entries| && AllAre(url, '/')
    requires r.entries[i].controller == cfg.defaultController && r.entries[i].action == cfg.defaultAction
    requires r.entries[i].verb == Some(verb)
             || (r.entries[i].verb == None
                 && VerbKey(PlainKey(cfg.defaultController, cfg.defaultAction), verb) !in r.verbs)
    ensures Find(r, url, verb, cfg).target == Some(r.entries[i].target)
  {
    assert Holds(r, r.entries[i]);
    SlashesLower(url);
    assert url + "" + "" == url;
    TrimWrapped(url, "", "", '/');
  }

  // ----- Dispatching

  /** The path DispatchRoute gives the lookup. */
  function DispatchPath(controller: string, action: string): string {
    "C:" + (controller + " M:" + action)
  }

  lemma DispatchCompletes(controller: string, action: string, cfg: Config)
    ensures "c:" <= CompleteURL(DispatchPath(controller, action), cfg)
  {
    var lower := ToLower(DispatchPath(controller, action));
    assert lower[0] == 'c' && lower[1] == ':';
    var trimmed := TrimRight(lower, '/');
    TrimRightKeeps(lower, '/');
    assert Trim(lower, '/') == trimmed;
    assert |trimmed| >= 2;
  }

  /** What DispatchRoute asks for ends in the default instance's NotFound if and only if no route
      is registered at the paths it makes up, which begin with "c:". */
  lemma {:induction false} DispatchExactly(r: Table, controller: string, action: string, verb: string, cfg: Config)
    requires Faithful(r)
    ensures var input := DispatchPath(controller, action);
            && (Find(r, input, verb, cfg).action == "NotFound"
                <==> !HasRoute(r, LongerPath(input, cfg), verb) && !HasRoute(r, PathItself(input, cfg), verb))
            && "c:" <= LongerPath(input, cfg)
            && ("c:" <= PathItself(input, cfg) || '/' == PathItself(input, cfg)[0])
  {
    var input := DispatchPath(controller, action);
    NotFoundExactly(r, input, verb, cfg);
    DispatchCompletes(controller, action, cfg);
    OwnPathBegins(CompleteURL(input, cfg));
  }

  /** A verb is in capitals and holds no "for". */
  lemma LongerVerbKey(p: string, v: string, path: string, w: string)
    requires AllCapitals(v) && |path| > |p|
    ensures VerbKey(p, v) != VerbKey(path, w)
  {
    VerbKeyShape(p, v);
    assert VerbKey(path, w)[|path|] == 'f';
    assert |VerbKey(p, v)| > |path| ==> VerbKey(p, v)[|path|] != 'f';
  }

  /** A key tried at a path longer than the entry's own is not the entry's. */
  lemma LongerNotServed(e: Entry, path: string, verb: string)
    requires Proper(e) && |path| > |PlainKey(e.controller, e.action)|
    ensures !Serves(e, path, verb)
  {
    if e.verb.Some? {
      VerbsAreCapitals(e.verb.value);
      LongerVerbKey(PlainKey(e.controller, e.action), e.verb.value, path, verb);
    }
  }

  lemma OwnPathLength(complete: string)
    ensures |OwnPath(complete)| >= |complete|
  {
    if '/' in complete {
      var j := LastSlash(complete);
      SplitLast(complete[..j], '/', complete[j + 1..]);
      assert complete == complete[..j] + ['/'] + complete[j + 1..];
      var parts := Split(complete, '/');
      assert parts[..|parts| - 1] == Split(complete[..j], '/');
    } else {
      SplitWhole(complete, '/');
    }
  }

  /** Without a slash in the action all of what is dispatched is kept. */
  lemma DispatchLength(controller: string, action: string, cfg: Config)
    requires '/' !in action
    ensures |CompleteURL(DispatchPath(controller, action), cfg)| == |controller| + |action| + 5
  {
    var input := DispatchPath(controller, action);
    var lower := ToLower(input);
    assert lower[0] == 'c';
    assert input[|controller| + 4] == ':';
    assert lower[|lower| - 1] == LowerChar(input[|input| - 1]) != '/';
  }

  /** A route is never found by dispatching its own controller and action, in any letter case and
      by any method. */
  lemma {:induction false} DispatchMisses(
      r: Table, i: nat, controller: string, action: string, verb: string, cfg: Config)
    requires Faithful(r) && i < |r.entries|
    requires ToLower(controller) == r.entries[i].controller && ToLower(action) == r.entries[i].action
    ensures !Serves(r.entries[i], LongerPath(DispatchPath(controller, action), cfg), verb)
    ensures !Serves(r.entries[i], PathItself(DispatchPath(controller, action), cfg), verb)
  {
    var e, input := r.entries[i], DispatchPath(controller, action);
    assert Registrable(e);
    assert forall k :: 0 <= k < |action| ==> e.action[k] == LowerChar(action[k]);
    DispatchLength(controller, action, cfg);
    OwnPathLength(CompleteURL(input, cfg));
    LongerNotServed(e, LongerPath(input, cfg), verb);
    LongerNotServed(e, PathItself(input, cfg), verb);
  }

  /** A key begins with its controller and a slash. */
  lemma KeyBegins(e: Entry)
    requires Proper(e)
    ensures |KeyOf(e)| > |e.controller| && KeyOf(e)[..|e.controller|] == e.controller
    ensures KeyOf(e)[|e.controller|] == '/'
  {
  }

  /** A controller that does not begin with "c:" has no key that does. */
  lemma NotItsKey(e: Entry, key: string)
    requires Proper(e) && !("c:" <= e.controller) && |key| >= 2 && (key[0] == '/' || "c:" <= key)
    ensures KeyOf(e) != key
  {
    KeyBegins(e);
    var c := e.controller;
    assert KeyOf(e)[0] == c[0];
    assert |c| == 1 ==> KeyOf(e)[1] == '/';
    assert |c| >= 2 ==> KeyOf(e)[..2] == c[..2];
    assert "c:" <= key ==> key[..2] == "c:" && key[0] == 'c' && key[1] == ':';
  }

  lemma NotAKey(r: Table, key: string, verbs: bool)
    requires Faithful(r) && |key| >= 2 && (key[0] == '/' || "c:" <= key)
    requires forall i :: 0 <= i < |r.entries| ==> !("c:" <= r.entries[i].controller)
    ensures !Known(r, key, verbs)
  {
    forall i | 0 <= i < |r.entries| ensures KeyOf(r.entries[i]) != key {
      assert Registrable(r.entries[i]);
      NotItsKey(r.entries[i], key);
    }
  }

  lemma NotOnPath(r: Table, path: string, verb: string)
    requires Faithful(r) && |path| >= 2 && (path[0] == '/' || "c:" <= path)
    requires forall i :: 0 <= i < |r.entries| ==> !("c:" <= r.entries[i].controller)
    ensures TryPath(r, path, verb) == None
  {
    NotAKey(r, path, false);
    NotAKey(r, VerbKey(path, verb), true);
  }

  /** So it is never found, by any method, while no controller's own path begins with "c:". */
  lemma {:induction false} DispatchNeverFinds(r: Table, controller: string, action: string, verb: string, cfg: Config)
    requires Faithful(r) && forall i :: 0 <= i < |r.entries| ==> !("c:" <= r.entries[i].controller)
    ensures Find(r, DispatchPath(controller, action), verb, cfg).target == r.first
    ensures Find(r, DispatchPath(controller, action), verb, cfg).action == "NotFound"
  {
    var complete := CompleteURL(DispatchPath(controller, action), cfg);
    DispatchCompletes(controller, action, cfg);
    NotOnPath(r, PlainKey(complete, cfg.defaultAction), verb);
    OwnPathBegins(complete);
    NotOnPath(r, OwnPath(complete), verb);
  }

  lemma OwnPathBegins(complete: string)
    requires "c:" <= complete
    ensures |OwnPath(complete)| >= 2 && (OwnPath(complete)[0] == '/' || "c:" <= OwnPath(complete))
  {
    if '/' in complete {
      var j := LastSlash(complete);
      SplitLast(complete[..j], '/', complete[j + 1..]);
      assert complete == complete[..j] + ['/'] + complete[j + 1..];
      var parts := Split(complete, '/');
      assert parts[..|parts| - 1] == Split(complete[..j], '/');
    } else {
      SplitWhole(complete, '/');
      assert [complete][..0] == [];
    }
  }

  lemma {:induction false} LastSlash(s: string) returns (j: nat)
    requires '/' in s
    ensures j < |s| && s[j] == '/' && '/' !in s[j + 1..]
  {
    var m := |s| - 1;
    if s[m] == '/' {
      j := m;
    } else {
      assert '/' in s[..m];
      j := LastSlash(s[..m]);
      assert s[j + 1..] == s[..m][j + 1..] + [s[m]];
    }
  }
}
