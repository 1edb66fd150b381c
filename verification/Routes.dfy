/** Routing: registration builds two tables from the method names of controllers, lookup
    splits a path against them in a fixed order of priority. */
module Routes {
  import opened Text
  import opened Names
  import opened Options
  import opened Seqs

  /** What a route leads to: a controller value, its type's name and one of its methods. */
  datatype Instance = Instance(handler: nat, controllerName: string, methodName: string)

  /** One route, as registered. */
  datatype Entry = Entry(controller: string, action: string, verb: Option<string>, target: Instance)

  /** The tables; entries records the routes in the order they were added. */
  datatype Table = Table(
    plain: map<string, Instance>,
    verbs: map<string, Instance>,
    registered: map<string, string>,
    first: Option<Instance>,
    entries: seq<Entry>)

  const NO_ROUTES := Table(map[], map[], map[], None, [])

  datatype Config = Config(defaultController: string, defaultAction: string)

  /** The configured defaults are lower-cased and never empty when they are loaded; the
      controller is also taken not to begin with a slash. */
  ghost predicate Sensible(cfg: Config) {
    && Lowered(cfg.defaultController) && cfg.defaultController != "" && cfg.defaultController[0] != '/'
    && Lowered(cfg.defaultAction) && cfg.defaultAction != ""
  }

  const RESERVED := ["Init", "Before", "After", "Finish", "NotFound", "ServerError"]

  function CompleteURL(url: string, cfg: Config): string {
    var trimmed := Trim(ToLower(url), '/');
    if trimmed == "" then cfg.defaultController else trimmed
  }

  function PlainKey(controller: string, action: string): string { controller + ['/'] + action }

  function VerbKey(path: string, verb: string): string { path + "for" + verb }

  function KeyOf(e: Entry): string {
    var path := PlainKey(e.controller, e.action);
    if e.verb.Some? then VerbKey(path, e.verb.value) else path
  }

  function TableFor(r: Table, e: Entry): map<string, Instance> {
    if e.verb.Some? then r.verbs else r.plain
  }

  // ----- Registration; a panic gives None

  function AddEntry(r: Table, e: Entry): Option<Table> {
    var key := KeyOf(e);
    if key in TableFor(r, e) then None
    else if e.verb.Some? then Some(r.(verbs := r.verbs[key := e.target], entries := r.entries + [e]))
    else Some(r.(plain := r.plain[key := e.target], entries := r.entries + [e]))
  }

  function AddActions(r: Table, controller: string, actions: seq<string>, verb: Option<string>, target: Instance)
      : Option<Table>
  {
    if actions == [] then Some(r)
    else
      var before := AddActions(r, controller, actions[..|actions| - 1], verb, target);
      if before.None? then None
      else AddEntry(before.value, Entry(controller, actions[|actions| - 1], verb, target))
  }

  function VerbOf(served: Served): Option<string> {
    if served.isVerb then Some(served.verb) else None
  }

  function AddMethod(r: Table, controller: string, target: Instance): Option<Table> {
    var served := ServedBy(target.methodName);
    if target.methodName in RESERVED then Some(r)
    else
      AddActions(
        r.(first := if r.first.None? then Some(target) else r.first),
        controller, served.actions, VerbOf(served), target)
  }

  function AddMethods(r: Table, controller: string, handler: nat, name: string, methods: seq<string>)
      : Option<Table>
  {
    if methods == [] then Some(r)
    else
      var before := AddMethods(r, controller, handler, name, methods[..|methods| - 1]);
      if before.None? then None
      else AddMethod(before.value, controller, Instance(handler, name, methods[|methods| - 1]))
  }

  /** One call of Handler: a pattern, a controller value, its type's name and its methods. */
  datatype Registration = Registration(pattern: string, handler: nat, name: string, methods: seq<string>)

  function Register(r: Table, g: Registration, cfg: Config): Option<Table> {
    var controller := CompleteURL(g.pattern, cfg);
    if controller in r.registered then
      (if r.registered[controller] != g.name then None else Some(r))
    else
      AddMethods(
        r.(registered := r.registered[controller := g.name]), controller, g.handler, g.name, g.methods)
  }

  function Registering(cfg: Config): (Table, Registration) -> Option<Table> {
    (r, g) => Register(r, g, cfg)
  }

  function RegisterAll(gs: seq<Registration>, cfg: Config): Option<Table> {
    Folded(NO_ROUTES, gs, Registering(cfg))
  }

  // ----- Lookup

  /** What lookup leaves in the request: the path it settled on, the action, the controller's
      name, and the instance to call. */
  datatype Found = Found(path: string, action: string, target: Option<Instance>)

  /** The tables tried on one path: the verb's own route first. */
  function TryPath(r: Table, path: string, verb: string): Option<Instance> {
    if VerbKey(path, verb) in r.verbs then Some(r.verbs[VerbKey(path, verb)])
    else if path in r.plain then Some(r.plain[path])
    else None
  }

  /** The path whose last part is taken for an action. */
  function OwnPath(complete: string): string {
    var parts := Split(complete, '/');
    PlainKey(Join(parts[..|parts| - 1], ['/']), parts[|parts| - 1])
  }

  function Find(r: Table, input: string, verb: string, cfg: Config): Found {
    var complete := CompleteURL(input, cfg);
    var asController := PlainKey(complete, cfg.defaultAction);
    if TryPath(r, asController, verb).Some? then
      var target := TryPath(r, asController, verb).value;
      Found(asController, target.methodName, Some(target))
    else if TryPath(r, OwnPath(complete), verb).Some? then
      var target := TryPath(r, OwnPath(complete), verb).value;
      Found(OwnPath(complete), target.methodName, Some(target))
    else Found(OwnPath(complete), "NotFound", r.first)
  }

  // ----- The router as an object

  class Request {
    const urlPath: string
    const verb: string
    var path: string
    var action: string
    var controller: string

    constructor (urlPath: string, verb: string)
      ensures this.urlPath == urlPath && this.verb == verb && path == ""
    {
      this.urlPath, this.verb := urlPath, verb;
      path, action, controller := "", "", "";
    }
  }

  class Router {
    const cfg: Config
    var routeMap: map<string, Instance>
    var routeMapMethod: map<string, Instance>
    var routeMapRegister: map<string, string>
    var defaultInstance: Option<Instance>
    ghost var entries: seq<Entry>

    constructor (cfg: Config)
      ensures this.cfg == cfg && View() == NO_ROUTES
    {
      this.cfg := cfg;
      routeMap, routeMapMethod, routeMapRegister, defaultInstance := map[], map[], map[], None;
      entries := [];
    }

    ghost function View(): Table
      reads this
    {
      Table(routeMap, routeMapMethod, routeMapRegister, defaultInstance, entries)
    }

    method AddAction(controller: string, action: string, verb: string, isVerb: bool, value: Instance)
        returns (ok: bool)
      modifies this
      ensures var e := Entry(controller, action, if isVerb then Some(verb) else None, value);
              if ok then AddEntry(old(View()), e) == Some(View()) else AddEntry(old(View()), e) == None
    {
      var path := controller + ['/'] + action;
      if isVerb {
        path := path + "for" + verb;
        if path in routeMapMethod {
          return false;
        }
        routeMapMethod := routeMapMethod[path := value];
      } else {
        if path in routeMap {
          return false;
        }
        routeMap := routeMap[path := value];
      }
      entries := entries + [Entry(controller, action, if isVerb then Some(verb) else None, value)];
      ok := true;
    }

    /** The route of the next action in turn. */
    method NextAction(
        ghost begin: Table, controller: string, actions: seq<string>, i: nat, verb: string, isVerb: bool,
        value: Instance)
        returns (ok: bool)
      requires i < |actions|
      requires AddActions(begin, controller, actions[..i], if isVerb then Some(verb) else None, value) == Some(View())
      modifies this
      ensures var served := if isVerb then Some(verb) else None;
              if ok then AddActions(begin, controller, actions[..i + 1], served, value) == Some(View())
              else AddActions(begin, controller, actions, served, value) == None
    {
      assert actions[..i + 1][..i] == actions[..i];
      ok := AddAction(controller, actions[i], verb, isVerb, value);
      if !ok {
        PanicStays(begin, controller, actions, i + 1, if isVerb then Some(verb) else None, value);
      }
    }

    /** The routes of one method; false stands for the panic on a taken path. */
    method AddMethodRoutes(controller: string, value: Instance) returns (ok: bool)
      modifies this
      ensures if ok then AddMethod(old(View()), controller, value) == Some(View())
              else AddMethod(old(View()), controller, value) == None
    {
      if value.methodName in RESERVED {
        return true;
      }
      var actions, verb, isVerb := GetActionsAndMethod(value.methodName);
      if defaultInstance.None? {
        defaultInstance := Some(value);
      }
      ghost var begin := View();
      ghost var served := if isVerb then Some(verb) else None;
      var i := 0;
      while i < |actions|
        invariant i <= |actions|
        invariant AddActions(begin, controller, actions[..i], served, value) == Some(View())
      {
        ok := NextAction(begin, controller, actions, i, verb, isVerb, value);
        if !ok {
          return;
        }
        i := i + 1;
      }
      assert actions[..i] == actions;
      ok := true;
    }

    /** The routes of the next method in turn. */
    method NextMethod(
        ghost begin: Table, controller: string, handler: nat, name: string, methods: seq<string>, i: nat)
        returns (ok: bool)
      requires i < |methods| && AddMethods(begin, controller, handler, name, methods[..i]) == Some(View())
      modifies this
      ensures if ok then AddMethods(begin, controller, handler, name, methods[..i + 1]) == Some(View())
              else AddMethods(begin, controller, handler, name, methods) == None
    {
      assert methods[..i + 1][..i] == methods[..i];
      ok := AddMethodRoutes(controller, Instance(handler, name, methods[i]));
      if !ok {
        MethodPanicStays(begin, controller, handler, name, methods, i + 1);
      }
    }

    /** The routes of every method of a controller. */
    method AddAllMethods(controller: string, handler: nat, name: string, methods: seq<string>) returns (ok: bool)
      modifies this
      ensures if ok then AddMethods(old(View()), controller, handler, name, methods) == Some(View())
              else AddMethods(old(View()), controller, handler, name, methods) == None
    {
      ghost var begin := View();
      var i := 0;
      while i < |methods|
        invariant i <= |methods|
        invariant AddMethods(begin, controller, handler, name, methods[..i]) == Some(View())
      {
        ok := NextMethod(begin, controller, handler, name, methods, i);
        if !ok {
          return;
        }
        i := i + 1;
      }
      assert methods[..i] == methods;
      ok := true;
    }

    /** Handler. After a panic the tables are not described. */
    method Handler(pattern: string, handler: nat, name: string, methods: seq<string>) returns (ok: bool)
      modifies this
      ensures if ok then Register(old(View()), Registration(pattern, handler, name, methods), cfg) == Some(View())
              else Register(old(View()), Registration(pattern, handler, name, methods), cfg) == None
    {
      var controller := CompleteURL(pattern, cfg);
      if controller in routeMapRegister {
        return routeMapRegister[controller] == name;
      }
      routeMapRegister := routeMapRegister[controller := name];
      ok := AddAllMethods(controller, handler, name, methods);
    }

    /** The two tables tried on one path; the default instance when neither has it. */
    method LookUp(path: string, verb: string) returns (ok: bool, found: Instance)
      requires defaultInstance.Some?
      ensures ok <==> TryPath(View(), path, verb).Some?
      ensures found == if ok then TryPath(View(), path, verb).value else defaultInstance.value
    {
      if path + "for" + verb in routeMapMethod {
        return true, routeMapMethod[path + "for" + verb];
      }
      if path in routeMap {
        return true, routeMap[path];
      }
      return false, defaultInstance.value;
    }

    /** Lookup on the path whose last part is taken for an action. */
    method FindByOwnPath(req: Request, controllerPath: string) returns (ok: bool, found: Instance)
      requires defaultInstance.Some?
      modifies req
      ensures req.path == OwnPath(controllerPath)
      ensures ok <==> TryPath(View(), req.path, req.verb).Some?
      ensures found == if ok then TryPath(View(), req.path, req.verb).value else defaultInstance.value
    {
      var tmp := Split(controllerPath, '/');
      req.action := tmp[|tmp| - 1];
      req.path := Join(tmp[..|tmp| - 1], ['/']) + ['/'] + req.action;
      ok, found := LookUp(req.path, req.verb);
    }

    /** Lookup; the router is called only when some instance is registered. */
    method FindInstanceByPath(req: Request) returns (found: Instance, action: string)
      requires defaultInstance.Some?
      modifies req
      ensures var f := Find(View(), if old(req.path) == "" then req.urlPath else old(req.path), req.verb, cfg);
              && f.target == Some(found) && f.action == action && req.path == f.path
              && req.action == action && req.controller == found.controllerName
    {
      var input := if req.path == "" then req.urlPath else req.path;
      var controllerPath := CompleteURL(input, cfg);
      req.action := cfg.defaultAction;
      req.path := controllerPath + ['/'] + req.action;
      var ok;
      ok, found := LookUp(req.path, req.verb);
      if !ok {
        ok, found := FindByOwnPath(req, controllerPath);
      }
      action := if ok then found.methodName else "NotFound";
      req.controller, req.action := found.controllerName, action;
    }
  }

  lemma {:induction false} PanicStays(
      r: Table, controller: string, actions: seq<string>, n: nat, verb: Option<string>, target: Instance)
    requires n <= |actions| && AddActions(r, controller, actions[..n], verb, target).None?
    ensures AddActions(r, controller, actions, verb, target).None?
  {
    if n == |actions| {
      assert actions[..n] == actions;
    } else {
      var front := actions[..|actions| - 1];
      assert front[..n] == actions[..n];
      PanicStays(r, controller, front, n, verb, target);
    }
  }

  lemma {:induction false} MethodPanicStays(
      r: Table, controller: string, handler: nat, name: string, methods: seq<string>, n: nat)
    requires n <= |methods| && AddMethods(r, controller, handler, name, methods[..n]).None?
    ensures AddMethods(r, controller, handler, name, methods).None?
  {
    if n == |methods| {
      assert methods[..n] == methods;
    } else {
      var front := methods[..|methods| - 1];
      assert front[..n] == methods[..n];
      MethodPanicStays(r, controller, handler, name, front, n);
    }
  }
}
