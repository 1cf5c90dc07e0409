/** `MultiUpstreamRouter`: upstream routes by name, and the index from tools to the routes that list them. */
module Router {
  import opened Texts

  type Name = string

  datatype Route = Route(name: Name, url: string, toolNames: seq<Name>, requestCount: nat, blockCount: nat)

  /** A route of the configuration; None stands for a `tools` that is not a list of non-empty strings. */
  datatype RouteDef = RouteDef(name: Name, url: string, tools: Option<seq<Name>>)

  datatype Fields = Fields(routes: map<Name, Route>, toolToServer: map<Name, Name>)

  // ----- What one call makes of the fields

  /** A listed tool already belongs to another server. */
  predicate Conflict(f: Fields, server: Name, tools: seq<Name>) {
    exists i :: 0 <= i < |tools| && tools[i] in f.toolToServer && f.toolToServer[tools[i]] != server
  }

  function Mapped(index: map<Name, Name>, server: Name, tools: seq<Name>): map<Name, Name>
    decreases |tools|
  {
    if tools == [] then index else Mapped(index[tools[0] := server], server, tools[1..])
  }

  function WithTools(routes: map<Name, Route>, server: Name, tools: seq<Name>): map<Name, Route> {
    if server in routes then routes[server := routes[server].(toolNames := tools)] else routes
  }

  /** The fields after `register_tool_mapping`, or None for its ValueError. */
  function Registered(f: Fields, server: Name, tools: seq<Name>): Option<Fields> {
    if Conflict(f, server, tools) then None
    else Some(Fields(WithTools(f.routes, server, tools), Mapped(f.toolToServer, server, tools)))
  }

  function NewRoute(f: Fields, d: RouteDef): Fields { f.(routes := f.routes[d.name := Route(d.name, d.url, [], 0, 0)]) }

  /** The fields after one route of the configuration. */
  function WithRoute(f: Fields, d: RouteDef): Option<Fields> {
    var g := NewRoute(f, d);
    if d.tools.None? then None
    else if d.tools.value == [] then Some(g)
    else Registered(g, d.name, d.tools.value)
  }

  function Loaded(f: Fields, config: seq<RouteDef>): Option<Fields>
    decreases |config|
  {
    if config == [] then Some(f)
    else
      var g := WithRoute(f, config[0]);
      if g.None? then None else Loaded(g.value, config[1..])
  }

  /** One request counted for a known route. */
  function Resolved(f: Fields, server: Name): Fields {
    if server !in f.routes then f
    else f.(routes := f.routes[server := f.routes[server].(requestCount := f.routes[server].requestCount + 1)])
  }

  /** One block counted for a known route. */
  function BlockRecorded(f: Fields, server: Name): Fields {
    if server !in f.routes then f
    else f.(routes := f.routes[server := f.routes[server].(blockCount := f.routes[server].blockCount + 1)])
  }

  /** The fields after the routes before the one that is refused, and that one without its tools. */
  function AfterLoad(f: Fields, config: seq<RouteDef>): Fields
    decreases |config|
  {
    if config == [] then f
    else
      var g := WithRoute(f, config[0]);
      if g.Some? then AfterLoad(g.value, config[1..]) else NewRoute(f, config[0])
  }

  /** A load that succeeds leaves what it loaded. */
  lemma {:induction false} AfterLoadIsLoaded(f: Fields, config: seq<RouteDef>)
    ensures Loaded(f, config).Some? ==> AfterLoad(f, config) == Loaded(f, config).value
    decreases |config|
  {
    if config != [] && WithRoute(f, config[0]).Some? { AfterLoadIsLoaded(WithRoute(f, config[0]).value, config[1..]); }
  }

  class MultiUpstreamRouter {
    var routes: map<Name, Route>
    var toolToServer: map<Name, Name>

    ghost function Now(): Fields
      reads this
    {
      Fields(routes, toolToServer)
    }

    constructor ()
      ensures Now() == Fields(map[], map[])
    {
      routes, toolToServer := map[], map[];
    }

    /** A refused registration changes nothing. */
    method RegisterToolMapping(server: Name, tools: seq<Name>) returns (ok: bool)
      modifies this
      ensures ok <==> !Conflict(old(Now()), server, tools)
      ensures ok ==> Some(Now()) == Registered(old(Now()), server, tools)
      ensures !ok ==> Now() == old(Now())
      ensures forall n :: n in old(routes) ==> n in routes && routes[n].requestCount == old(routes)[n].requestCount
    {
      for i := 0 to |tools|
        invariant Now() == old(Now())
        invariant forall k :: 0 <= k < i ==> tools[k] in toolToServer ==> toolToServer[tools[k]] == server
      {
        if tools[i] in toolToServer && toolToServer[tools[i]] != server { return false; }
      }
      for i := 0 to |tools|
        invariant routes == old(routes)
        invariant Mapped(toolToServer, server, tools[i..]) == Mapped(old(toolToServer), server, tools)
      {
        assert tools[i..][1..] == tools[i + 1..];
        toolToServer := toolToServer[tools[i] := server];
      }
      assert tools[|tools|..] == [];
      if server in routes { routes := routes[server := routes[server].(toolNames := tools)]; }
      ok := true;
    }

    /** The routes of `load_config`; a ValueError leaves those before it loaded. */
    method LoadRoutes(config: seq<RouteDef>) returns (ok: bool)
      modifies this
      ensures ok <==> Loaded(old(Now()), config).Some?
      ensures Now() == AfterLoad(old(Now()), config)
      ensures ok ==> Some(Now()) == Loaded(old(Now()), config)
    {
      AfterLoadIsLoaded(Now(), config);
      for i := 0 to |config|
        invariant Loaded(Now(), config[i..]) == Loaded(old(Now()), config)
        invariant AfterLoad(Now(), config[i..]) == AfterLoad(old(Now()), config)
      {
        assert config[i..][1..] == config[i + 1..];
        var d := config[i];
        routes := routes[d.name := Route(d.name, d.url, [], 0, 0)];
        if d.tools.None? { return false; }
        if d.tools.value != [] {
          var registered := RegisterToolMapping(d.name, d.tools.value);
          if !registered { return false; }
        }
      }
      ok := true;
    }

    method Resolve(server: Name) returns (route: Option<Route>)
      modifies this`routes
      ensures Now() == Resolved(old(Now()), server)
      ensures route == if server in routes then Some(routes[server]) else None
    {
      if server !in routes { return None; }
      routes := routes[server := routes[server].(requestCount := routes[server].requestCount + 1)];
      route := Some(routes[server]);
    }

    method RecordBlock(server: Name)
      modifies this`routes
      ensures Now() == BlockRecorded(old(Now()), server)
    {
      if server in routes { routes := routes[server := routes[server].(blockCount := routes[server].blockCount + 1)]; }
    }

    method ResolveByTool(tool: Name) returns (route: Option<Route>)
      ensures route == ToolRoute(Now(), tool)
    {
      if tool !in toolToServer { return None; }
      var server := toolToServer[tool];
      if server == "" || server !in routes { return None; }
      route := Some(routes[server]);
    }
  }

  /** The answer of `resolve_by_tool`: an empty server name counts as none. */
  function ToolRoute(f: Fields, tool: Name): Option<Route> {
    if tool in f.toolToServer && f.toolToServer[tool] != "" && f.toolToServer[tool] in f.routes
    then Some(f.routes[f.toolToServer[tool]]) else None
  }

  // ----- What loading a configuration gives

  /** A scan of the routes: the route `n` lists `tool`. */
  predicate Lists(f: Fields, n: Name, tool: Name) { n in f.routes && tool in f.routes[n].toolNames }

  /** The index agrees with a scan of the routes' tool names, and each route has its own name. */
  ghost predicate Agrees(f: Fields) {
    && (forall tool :: tool in f.toolToServer ==> Lists(f, f.toolToServer[tool], tool))
    && (forall n, tool :: Lists(f, n, tool) ==> tool in f.toolToServer && f.toolToServer[tool] == n)
    && (forall n :: n in f.routes ==> f.routes[n].name == n)
  }

  lemma {:induction false} MappedAt(index: map<Name, Name>, server: Name, tools: seq<Name>, tool: Name)
    ensures tool in Mapped(index, server, tools) <==> tool in index || tool in tools
    ensures tool in Mapped(index, server, tools)
      ==> Mapped(index, server, tools)[tool] == if tool in tools then server else index[tool]
    decreases |tools|
  {
    if tools != [] {
      MappedAt(index[tools[0] := server], server, tools[1..], tool);
      assert tools == [tools[0]] + tools[1..];
    }
  }

  function ToolsOf(d: RouteDef): seq<Name> { if d.tools.Some? then d.tools.value else [] }

  /** A tool of `d` is already mapped. */
  predicate Taken(f: Fields, d: RouteDef) { exists i :: 0 <= i < |ToolsOf(d)| && ToolsOf(d)[i] in f.toolToServer }

  /** A route with a new name is loaded exactly when none of its tools is mapped yet. */
  lemma RouteLoads(f: Fields, d: RouteDef)
    requires Agrees(f) && d.name !in f.routes && d.tools.Some?
    ensures WithRoute(f, d).Some? <==> !Taken(f, d)
    ensures WithRoute(f, d).Some? ==> Agrees(WithRoute(f, d).value)
    ensures WithRoute(f, d).Some? ==> WithRoute(f, d).value.routes.Keys == f.routes.Keys + {d.name}
    ensures WithRoute(f, d).Some? ==>
      forall tool :: tool in WithRoute(f, d).value.toolToServer <==> tool in f.toolToServer || tool in ToolsOf(d)
  {
    var tools := d.tools.value;
    var g := f.(routes := f.routes[d.name := Route(d.name, d.url, [], 0, 0)]);
    forall tool | tool in f.toolToServer ensures f.toolToServer[tool] != d.name {
      assert Lists(f, f.toolToServer[tool], tool);
    }
    if i :| 0 <= i < |tools| && tools[i] in f.toolToServer {
      assert ToolsOf(d)[i] in f.toolToServer && g.toolToServer[tools[i]] != d.name;
    }
    if !Taken(f, d) {
      RouteAgrees(f, d);
      var h := WithRoute(f, d).value;
      forall tool ensures tool in h.toolToServer <==> tool in f.toolToServer || tool in tools {
        MappedAt(f.toolToServer, d.name, tools, tool);
      }
    }
  }

  lemma NotListed(f: Fields, d: RouteDef, tool: Name)
    requires !Taken(f, d) && tool in f.toolToServer
    ensures tool !in ToolsOf(d)
  {}

  lemma RouteAgrees(f: Fields, d: RouteDef)
    requires Agrees(f) && d.name !in f.routes && d.tools.Some? && !Taken(f, d) && WithRoute(f, d).Some?
    ensures Agrees(WithRoute(f, d).value)
  {
    var h, tools := WithRoute(f, d).value, d.tools.value;
    assert h.routes == f.routes[d.name := Route(d.name, d.url, tools, 0, 0)];
    forall tool | tool in h.toolToServer ensures Lists(h, h.toolToServer[tool], tool) {
      MappedAt(f.toolToServer, d.name, tools, tool);
      if tool !in tools { assert Lists(f, f.toolToServer[tool], tool); }
    }
    forall n, tool | Lists(h, n, tool) ensures tool in h.toolToServer && h.toolToServer[tool] == n {
      MappedAt(f.toolToServer, d.name, tools, tool);
      if n != d.name {
        assert Lists(f, n, tool);
        NotListed(f, d, tool);
      }
    }
  }

  predicate DistinctNames(config: seq<RouteDef>) {
    forall i, j :: 0 <= i < j < |config| ==> config[i].name != config[j].name
  }

  predicate WellFormed(config: seq<RouteDef>) { forall i :: 0 <= i < |config| ==> config[i].tools.Some? }

  /** Two routes list the same tool. */
  predicate Share(a: RouteDef, b: RouteDef) { exists i :: 0 <= i < |ToolsOf(a)| && ToolsOf(a)[i] in ToolsOf(b) }

  ghost predicate NoSharedTool(config: seq<RouteDef>) {
    forall i, j :: 0 <= i < j < |config| ==> !Share(config[i], config[j])
  }

  ghost predicate NoneTaken(f: Fields, config: seq<RouteDef>) { forall i :: 0 <= i < |config| ==> !Taken(f, config[i]) }

  ghost predicate NewNames(f: Fields, config: seq<RouteDef>) {
    forall i :: 0 <= i < |config| ==> config[i].name !in f.routes
  }

  lemma {:induction false} LoadsIffDisjoint(f: Fields, config: seq<RouteDef>)
    requires Agrees(f) && DistinctNames(config) && WellFormed(config) && NewNames(f, config)
    ensures Loaded(f, config).Some? <==> NoSharedTool(config) && NoneTaken(f, config)
    ensures Loaded(f, config).Some? ==> Agrees(Loaded(f, config).value)
    decreases |config|
  {
    if config != [] {
      var d, rest := config[0], config[1..];
      RouteLoads(f, d);
      if WithRoute(f, d).Some? {
        var g := WithRoute(f, d).value;
        LoadsIffDisjoint(g, rest);
        FirstShared(f, g, config);
      }
    }
  }

  /** Tools of the first route are taken for the others exactly when they share one with it. */
  lemma FirstShared(f: Fields, g: Fields, config: seq<RouteDef>)
    requires config != [] && !Taken(f, config[0])
    requires forall tool :: tool in g.toolToServer <==> tool in f.toolToServer || tool in ToolsOf(config[0])
    ensures NoSharedTool(config[1..]) && NoneTaken(g, config[1..]) <==> NoSharedTool(config) && NoneTaken(f, config)
  {
    var d, rest := config[0], config[1..];
    forall j | 0 <= j < |rest| ensures Taken(g, rest[j]) <==> Taken(f, rest[j]) || Share(d, rest[j]) {
      TakenShared(f, g, d, rest[j]);
    }
    if NoSharedTool(rest) && NoneTaken(g, rest) {
      forall i, j | 0 <= i < j < |config| ensures !Share(config[i], config[j]) {
        assert config[j] == rest[j - 1];
        if i > 0 { assert config[i] == rest[i - 1]; }
      }
      forall i | 0 <= i < |config| ensures !Taken(f, config[i]) { if i > 0 { assert config[i] == rest[i - 1]; } }
    }
    if NoSharedTool(config) && NoneTaken(f, config) {
      forall i, j | 0 <= i < j < |rest| ensures !Share(rest[i], rest[j]) {
        assert rest[i] == config[i + 1] && rest[j] == config[j + 1];
      }
      forall j | 0 <= j < |rest| ensures !Taken(g, rest[j]) { assert rest[j] == config[j + 1]; }
    }
  }

  lemma TakenShared(f: Fields, g: Fields, d: RouteDef, e: RouteDef)
    requires forall tool :: tool in g.toolToServer <==> tool in f.toolToServer || tool in ToolsOf(d)
    ensures Taken(g, e) <==> Taken(f, e) || Share(d, e)
  {
    if Taken(g, e) && !Taken(f, e) {
      var i :| 0 <= i < |ToolsOf(e)| && ToolsOf(e)[i] in g.toolToServer;
      var k :| 0 <= k < |ToolsOf(d)| && ToolsOf(d)[k] == ToolsOf(e)[i];
    }
    if Share(d, e) {
      var i :| 0 <= i < |ToolsOf(d)| && ToolsOf(d)[i] in ToolsOf(e);
      var k :| 0 <= k < |ToolsOf(e)| && ToolsOf(e)[k] == ToolsOf(d)[i];
    }
  }

  const FRESH := Fields(map[], map[])

  // ----- Main results

  /** Loading into a fresh router succeeds exactly when no tool is listed by two routes; the index then
      agrees with a scan of the routes. */
  lemma FreshLoad(config: seq<RouteDef>)
    requires DistinctNames(config) && WellFormed(config)
    ensures Loaded(FRESH, config).Some? <==> NoSharedTool(config)
    ensures Loaded(FRESH, config).Some? ==> Agrees(Loaded(FRESH, config).value)
  {
    LoadsIffDisjoint(FRESH, config);
  }

  /** A route with one of these definitions. */
  ghost predicate Defines(config: seq<RouteDef>, route: Route) {
    exists i :: 0 <= i < |config| && route == Route(config[i].name, config[i].url, ToolsOf(config[i]), 0, 0)
  }

  lemma {:induction false} RoutesLoaded(f: Fields, config: seq<RouteDef>, n: Name)
    requires WellFormed(config) && DistinctNames(config) && NewNames(f, config) && Loaded(f, config).Some?
    ensures var h := Loaded(f, config).value;
            && (n in f.routes ==> n in h.routes && h.routes[n] == f.routes[n])
            && (n in h.routes && n !in f.routes ==> Defines(config, h.routes[n]) && h.routes[n].name == n)
    decreases |config|
  {
    if config != [] {
      var d, rest := config[0], config[1..];
      var g := WithRoute(f, d).value;
      assert g.routes == f.routes[d.name := Route(d.name, d.url, ToolsOf(d), 0, 0)];
      RoutesLoaded(g, rest, n);
      var h := Loaded(f, config).value;
      if n in h.routes && n !in g.routes {
        var i :| 0 <= i < |rest| && h.routes[n] == Route(rest[i].name, rest[i].url, ToolsOf(rest[i]), 0, 0);
        assert rest[i] == config[i + 1];
      }
    }
  }

  lemma {:induction false} AllLoaded(f: Fields, config: seq<RouteDef>, i: nat)
    requires WellFormed(config) && DistinctNames(config) && NewNames(f, config) && Loaded(f, config).Some?
      && i < |config|
    ensures var h := Loaded(f, config).value;
            config[i].name in h.routes
              && h.routes[config[i].name] == Route(config[i].name, config[i].url, ToolsOf(config[i]), 0, 0)
    decreases |config|
  {
    var d, rest := config[0], config[1..];
    var g := WithRoute(f, d).value;
    assert g.routes == f.routes[d.name := Route(d.name, d.url, ToolsOf(d), 0, 0)];
    if i == 0 { RoutesLoaded(g, rest, d.name); } else { AllLoaded(g, rest, i - 1); }
  }

  /** Some definition of the configuration lists the tool under this name. */
  ghost predicate Listed(config: seq<RouteDef>, n: Name, tool: Name) {
    exists i :: 0 <= i < |config| && config[i].name == n && tool in ToolsOf(config[i])
  }

  /** The index is what the configuration lists. */
  lemma IndexIsConfig(config: seq<RouteDef>, n: Name, tool: Name)
    requires DistinctNames(config) && WellFormed(config) && Loaded(FRESH, config).Some?
    ensures var f := Loaded(FRESH, config).value;
            tool in f.toolToServer && f.toolToServer[tool] == n <==> Listed(config, n, tool)
  {
    var f := Loaded(FRESH, config).value;
    FreshLoad(config);
    if tool in f.toolToServer && f.toolToServer[tool] == n {
      assert Lists(f, n, tool);
      RoutesLoaded(FRESH, config, n);
      var i :| 0 <= i < |config| && f.routes[n] == Route(config[i].name, config[i].url, ToolsOf(config[i]), 0, 0);
    }
    if i :| 0 <= i < |config| && config[i].name == n && tool in ToolsOf(config[i]) {
      AllLoaded(FRESH, config, i);
      assert Lists(f, n, tool);
    }
  }

  /** The order of the routes does not matter: not to the success, and not to the index. */
  lemma LoadOrderIrrelevant(a: seq<RouteDef>, b: seq<RouteDef>)
    requires DistinctNames(a) && WellFormed(a) && DistinctNames(b) && WellFormed(b)
    requires forall d :: d in a <==> d in b
    ensures Loaded(FRESH, a).Some? <==> Loaded(FRESH, b).Some?
    ensures Loaded(FRESH, a).Some? ==> Loaded(FRESH, a).value.toolToServer == Loaded(FRESH, b).value.toolToServer
  {
    FreshLoad(a);
    FreshLoad(b);
    if NoSharedTool(b) { SharedEitherWay(a, b); }
    if NoSharedTool(a) { SharedEitherWay(b, a); }
    if Loaded(FRESH, a).Some? {
      var x, y := Loaded(FRESH, a).value.toolToServer, Loaded(FRESH, b).value.toolToServer;
      forall tool | tool in x ensures tool in y && y[tool] == x[tool] { IndexFollows(a, b, tool); }
      forall tool | tool in y ensures tool in x { IndexFollows(b, a, tool); }
    }
  }

  lemma IndexFollows(a: seq<RouteDef>, b: seq<RouteDef>, tool: Name)
    requires DistinctNames(a) && WellFormed(a) && DistinctNames(b) && WellFormed(b) && (forall d :: d in a ==> d in b)
    requires Loaded(FRESH, a).Some? && Loaded(FRESH, b).Some? && tool in Loaded(FRESH, a).value.toolToServer
    ensures var y := Loaded(FRESH, b).value.toolToServer;
            tool in y && y[tool] == Loaded(FRESH, a).value.toolToServer[tool]
  {
    var n := Loaded(FRESH, a).value.toolToServer[tool];
    IndexIsConfig(a, n, tool);
    IndexIsConfig(b, n, tool);
    var i :| 0 <= i < |a| && a[i].name == n && tool in ToolsOf(a[i]);
    assert a[i] in b;
  }

  lemma SharedEitherWay(a: seq<RouteDef>, b: seq<RouteDef>)
    requires DistinctNames(a) && DistinctNames(b) && (forall d :: d in a ==> d in b) && NoSharedTool(b)
    ensures NoSharedTool(a)
  {
    forall i, j | 0 <= i < j < |a| ensures !Share(a[i], a[j]) {
      assert a[i] in b && a[j] in b;
      var k :| 0 <= k < |b| && b[k] == a[i];
      var l :| 0 <= l < |b| && b[l] == a[j];
      ShareSymmetric(b[k], b[l]);
      assert k != l;
    }
  }

  lemma ShareSymmetric(a: RouteDef, b: RouteDef)
    ensures Share(a, b) <==> Share(b, a)
  {
    if Share(a, b) {
      var i :| 0 <= i < |ToolsOf(a)| && ToolsOf(a)[i] in ToolsOf(b);
      var k :| 0 <= k < |ToolsOf(b)| && ToolsOf(b)[k] == ToolsOf(a)[i];
    }
    if Share(b, a) {
      var i :| 0 <= i < |ToolsOf(b)| && ToolsOf(b)[i] in ToolsOf(a);
      var k :| 0 <= k < |ToolsOf(a)| && ToolsOf(a)[k] == ToolsOf(b)[i];
    }
  }

  /** After a load, a tool resolves to the route that lists it, and to none when no route does or the
      route is named "". */
  lemma ToolResolves(config: seq<RouteDef>, tool: Name)
    requires DistinctNames(config) && WellFormed(config) && Loaded(FRESH, config).Some?
    ensures var f := Loaded(FRESH, config).value;
            && (ToolRoute(f, tool).Some? <==> exists n :: Lists(f, n, tool) && n != "")
            && (ToolRoute(f, tool).Some? ==> Lists(f, ToolRoute(f, tool).value.name, tool))
  {
    FreshLoad(config);
    var f := Loaded(FRESH, config).value;
    if tool in f.toolToServer { assert Lists(f, f.toolToServer[tool], tool); }
  }

  /** A route named "" lists a tool that resolves to no route. */
  lemma UnnamedRouteExample()
    ensures var loaded := Loaded(FRESH, [RouteDef("", "", Some(["t"]))]);
            loaded.Some? && Lists(loaded.value, "", "t") && ToolRoute(loaded.value, "t") == None
  {
    var config := [RouteDef("", "", Some(["t"]))];
    assert config[1..] == [] && ["t"][1..] == [];
    FreshLoad(config);
    AllLoaded(FRESH, config, 0);
    IndexIsConfig(config, "", "t");
  }

  // ----- What a request counter counts

  /** A call of the router that changes its fields. */
  datatype Call =
    | Load(config: seq<RouteDef>)
    | Register(server: Name, tools: seq<Name>)
    | Resolve(server: Name)
    | RecordBlock(server: Name)

  function Called(f: Fields, call: Call): Fields {
    match call
    case Load(config) => AfterLoad(f, config)
    case Register(server, tools) => if Registered(f, server, tools).Some? then Registered(f, server, tools).value else f
    case Resolve(server) => Resolved(f, server)
    case RecordBlock(server) => BlockRecorded(f, server)
  }

  function AfterCalls(calls: seq<Call>): Fields {
    if calls == [] then FRESH else Called(AfterCalls(calls[..|calls| - 1]), calls[|calls| - 1])
  }

  /** The load puts in a route of this name, before a definition that is refused or in it. */
  predicate Reloads(f: Fields, config: seq<RouteDef>, n: Name)
    decreases |config|
  {
    config != []
      && (config[0].name == n
        || (WithRoute(f, config[0]).Some? && Reloads(WithRoute(f, config[0]).value, config[1..], n)))
  }

  /** The resolves of a route since it was last loaded, and the blocks recorded for it since then. */
  function Since(calls: seq<Call>, n: Name): (nat, nat) {
    if calls == [] then (0, 0)
    else
      var before, last := calls[..|calls| - 1], calls[|calls| - 1];
      var (resolves, blocks) := Since(before, n);
      if last.Load? && Reloads(AfterCalls(before), last.config, n) then (0, 0)
      else if last == Resolve(n) && n in AfterCalls(before).routes then (resolves + 1, blocks)
      else if last == RecordBlock(n) && n in AfterCalls(before).routes then (resolves, blocks + 1)
      else (resolves, blocks)
  }

  /** A load starts the counters of the routes it puts in, and leaves those of the others. */
  lemma {:induction false} LoadCounters(f: Fields, config: seq<RouteDef>, n: Name)
    ensures var g := AfterLoad(f, config);
            && (n in g.routes <==> n in f.routes || Reloads(f, config, n))
            && (Reloads(f, config, n) ==> g.routes[n].requestCount == 0 && g.routes[n].blockCount == 0)
            && (!Reloads(f, config, n) && n in f.routes ==>
                  g.routes[n].requestCount == f.routes[n].requestCount
                    && g.routes[n].blockCount == f.routes[n].blockCount)
    decreases |config|
  {
    if config != [] && WithRoute(f, config[0]).Some? { LoadCounters(WithRoute(f, config[0]).value, config[1..], n); }
  }

  /** After any calls, a route's request counter is the number of its resolves since it was last loaded,
      and its block counter that of its blocks: no other call advances them. */
  lemma {:induction false} CountersAreCalls(calls: seq<Call>, n: Name)
    ensures var f := AfterCalls(calls);
            n in f.routes ==>
              f.routes[n].requestCount == Since(calls, n).0 && f.routes[n].blockCount == Since(calls, n).1
    ensures n !in AfterCalls(calls).routes ==> Since(calls, n) == (0, 0)
  {
    if calls != [] {
      var before, last := calls[..|calls| - 1], calls[|calls| - 1];
      CountersAreCalls(before, n);
      if last.Load? { LoadCounters(AfterCalls(before), last.config, n); }
    }
  }
}
