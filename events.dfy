/** Route resolution in `createRoutes`: one inspected container becomes at most one route, and the
    routes of all containers are entered, in turn, into a fresh table. */
module Events {
  import opened Wrappers
  import opened Strings
  import opened Docker
  import opened Routing

  /** The configured fallback ports: the `ports` flag split on commas. */
  function Candidates(portsFlag: string): (candidates: seq<string>)
  {
    Split(portsFlag, ',')
  }

  /** A candidate port counts as exposed when its TCP key is in the port map, bindings or not. */
  predicate Exposed(ports: PortMap, candidate: string): (b: bool)
  {
    PortKey(candidate) in ports
  }

  /** The source's literal test for a host binding worth using: its host address is not the string
      "0.0.0.0". An empty host address passes it, and so does any other spelling of a wildcard. */
  predicate NotWildcard(b: PortBinding): (r: bool)
  {
    b.hostIP != Wildcard
  }

  predicate NonEmpty(ip: string): (r: bool)
  {
    ip != ""
  }

  // ---------------------------------------------------------------------------------------------
  // Stages of the resolution, as functions

  /** The port: the builder's own, else the first candidate whose key is in the port map, else "". */
  function ChoosePort(explicit: string, candidates: seq<string>, ports: PortMap): (port: string)
  {
    if explicit != "" then explicit
    else match FirstIndex(candidates, c => Exposed(ports, c))
      case Some(i) => candidates[i]
      case None => ""
  }

  /** The first non-wildcard binding of the upstream's port overrides both its address and its port. */
  function ApplyBindings(up: Upstream, ports: PortMap): (bound: Upstream)
  {
    var bindings := BindingsFor(ports, up.port);
    match FirstIndex(bindings, NotWildcard)
    case Some(k) => up.(ip := bindings[k].hostIP, port := bindings[k].hostPort)
    case None => up
  }

  /** A local container's own address: its bridge address, else the first non-empty network address. */
  function ContainerAddress(c: Container): (ip: string)
    ensures c.ipAddress != "" ==> ip == c.ipAddress
    ensures c.ipAddress == "" ==> (ip == "" <==> forall n :: 0 <= n < |c.networks| ==> c.networks[n] == "")
    ensures c.ipAddress == "" && ip != "" ==>
      exists n :: 0 <= n < |c.networks| && ip == c.networks[n] && forall m :: 0 <= m < n ==> c.networks[m] == ""
  {
    if c.ipAddress != "" then c.ipAddress
    else match FirstIndex(c.networks, NonEmpty)
      case Some(n) => c.networks[n]
      case None => ""
  }

  /** The address fallback: only a local container with no address yet takes its own address. */
  function FallbackAddress(ip: string, c: Container): (address: string)
  {
    if c.isLocal && ip == "" then ContainerAddress(c) else ip
  }

  /** The whole resolution of one container from the route the builder parsed out of its environment;
      `None` when the container is skipped for want of a port or an address. */
  function Resolve(c: Container, candidates: seq<string>, parsed: Route): (r: Option<Route>)
  {
    var port := ChoosePort(parsed.upstream.port, candidates, c.ports);
    if port == "" then None
    else
      var bound := ApplyBindings(parsed.upstream.(port := port, container := c.name), c.ports);
      var ip := FallbackAddress(bound.ip, c);
      if ip == "" then None else Some(parsed.(upstream := bound.(ip := ip)))
  }

  /** What one container contributes: its resolved route, if it resolves and passes the validity check. */
  function Admit(c: Container, candidates: seq<string>, build: seq<string> -> Route, isValid: Route -> bool): (r: Option<Route>)
  {
    var r := Resolve(c, candidates, build(c.env));
    if r.Some? && isValid(r.value) then r else None
  }

  function Contribution(r: Option<Route>): (rs: seq<Route>)
  {
    if r.Some? then [r.value] else []
  }

  /** The routes entered into the table, in the order the containers are visited. */
  function Admitted(cs: seq<Container>, candidates: seq<string>, build: seq<string> -> Route, isValid: Route -> bool): (rs: seq<Route>)
    decreases |cs|
  {
    if cs == [] then []
    else Admitted(cs[..|cs| - 1], candidates, build, isValid) + Contribution(Admit(cs[|cs| - 1], candidates, build, isValid))
  }

  /** The table obtained by entering `rs`, in order, into an empty table with `add`. */
  function Table(add: (Routes, Route) -> Routes, rs: seq<Route>): (table: Routes)
    decreases |rs|
  {
    if rs == [] then map[] else add(Table(add, rs[..|rs| - 1]), rs[|rs| - 1])
  }

  // ---------------------------------------------------------------------------------------------
  // The imperative procedure

  /** The loop body of `createRoutes` for one container, after the builder ran: fills in the port,
      the container name and the address step by step, or skips the container. */
  method ResolveRoute(c: Container, candidates: seq<string>, parsed: Route) returns (r: Option<Route>)
    ensures r == Resolve(c, candidates, parsed)
  {
    var route := parsed;

    // Try the candidate ports when the builder gave none.
    if route.upstream.port == "" {
      var i := 0;
      while i < |candidates|
        invariant 0 <= i <= |candidates|
        invariant route == parsed
        invariant forall j :: 0 <= j < i ==> !Exposed(c.ports, candidates[j])
      {
        if PortKey(candidates[i]) in c.ports {
          route := route.(upstream := route.upstream.(port := candidates[i]));
          FirstIndexAt(candidates, x => Exposed(c.ports, x), i);
          break;
        }
        i := i + 1;
      }
    }
    assert route.upstream.port == ChoosePort(parsed.upstream.port, candidates, c.ports);

    if route.upstream.port == "" {
      return None;
    }

    route := route.(upstream := route.upstream.(container := c.name));
    ghost var named := route.upstream;

    // Prefer a binding on a specific host address.
    var bindings := BindingsFor(c.ports, route.upstream.port);
    var k := 0;
    while k < |bindings|
      invariant 0 <= k <= |bindings|
      invariant route.upstream == named && route.host == parsed.host
      invariant forall j :: 0 <= j < k ==> !NotWildcard(bindings[j])
    {
      if bindings[k].hostIP != Wildcard {
        route := route.(upstream := route.upstream.(ip := bindings[k].hostIP, port := bindings[k].hostPort));
        FirstIndexAt(bindings, NotWildcard, k);
        break;
      }
      k := k + 1;
    }
    assert route.upstream == ApplyBindings(named, c.ports);

    // A local container falls back on its bridge address ...
    if c.isLocal && route.upstream.ip == "" {
      route := route.(upstream := route.upstream.(ip := c.ipAddress));
    }

    // ... and then on the first non-empty address among its networks.
    if c.isLocal && route.upstream.ip == "" {
      ghost var before := route;
      var n := 0;
      while n < |c.networks|
        invariant 0 <= n <= |c.networks|
        invariant route == before
        invariant forall m :: 0 <= m < n ==> !NonEmpty(c.networks[m])
      {
        if c.networks[n] != "" {
          route := route.(upstream := route.upstream.(ip := c.networks[n]));
          FirstIndexAt(c.networks, NonEmpty, n);
          break;
        }
        n := n + 1;
      }
    }
    assert route.upstream.ip == FallbackAddress(ApplyBindings(named, c.ports).ip, c);

    if route.upstream.ip == "" {
      return None;
    }
    return Some(route);
  }

  /** `createRoutes` over the containers that were listed and inspected (in the order their inspections
      came back): a listing failure is returned as it is; otherwise each container's route, if it has
      one and it is valid, is entered into a table that starts empty. */
  method CreateRoutes(
    listing: Result<seq<Container>>,
    portsFlag: string,
    build: seq<string> -> Route,
    isValid: Route -> bool,
    add: (Routes, Route) -> Routes)
    returns (result: Result<Routes>)
    ensures listing.Failure? ==> result == Failure(listing.error)
    ensures listing.Success? ==>
      result == Success(Table(add, Admitted(listing.value, Candidates(portsFlag), build, isValid)))
  {
    if listing.Failure? {
      return Failure(listing.error);
    }
    var containers := listing.value;
    var candidates := Candidates(portsFlag);
    var routes: Routes := map[];
    ghost var admitted: seq<Route> := [];
    for i := 0 to |containers|
      invariant admitted == Admitted(containers[..i], candidates, build, isValid)
      invariant routes == Table(add, admitted)
    {
      var c := containers[i];
      var r := ResolveRoute(c, candidates, build(c.env));
      assert containers[..i + 1][..i] == containers[..i];
      if r.Some? && isValid(r.value) {
        routes := add(routes, r.value);
        assert (admitted + [r.value])[..|admitted|] == admitted;
        admitted := admitted + [r.value];
      }
    }
    assert containers[..|containers|] == containers;
    return Success(routes);
  }
}
