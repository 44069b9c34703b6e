/** What route resolution promises, proved about the functions of module Events. */
module EventsProperties {
  import opened Wrappers
  import opened Strings
  import opened Docker
  import opened Routing
  import opened Events

  // ---------------------------------------------------------------------------------------------
  // Port resolution

  /** A port the builder already set is kept; the candidate list is not consulted. */
  lemma ExplicitPortKept(explicit: string, candidates: seq<string>, ports: PortMap)
    requires explicit != ""
    ensures ChoosePort(explicit, candidates, ports) == explicit
  {
  }

  /** Without an explicit port, the port is the first candidate, in list order, whose key is in the
      port map. */
  lemma CandidatePortIsFirstExposed(candidates: seq<string>, ports: PortMap, i: nat)
    requires i < |candidates| && PortKey(candidates[i]) in ports
    requires forall j :: 0 <= j < i ==> PortKey(candidates[j]) !in ports
    ensures ChoosePort("", candidates, ports) == candidates[i]
  {
    FirstIndexAt(candidates, c => Exposed(ports, c), i);
  }

  /** Without an explicit port and with no candidate key in the port map, no port resolves. */
  lemma NoExposedCandidate(candidates: seq<string>, ports: PortMap)
    requires forall j :: 0 <= j < |candidates| ==> PortKey(candidates[j]) !in ports
    ensures ChoosePort("", candidates, ports) == ""
  {
  }

  /** The port chosen depends only on which keys the port map has, not on their binding lists. */
  lemma BindingListIrrelevant(explicit: string, candidates: seq<string>, ports: PortMap, key: string, bs: seq<PortBinding>)
    requires key in ports
    ensures ChoosePort(explicit, candidates, ports[key := bs]) == ChoosePort(explicit, candidates, ports)
  {
    var ports' := ports[key := bs];
    assert ports'.Keys == ports.Keys;
    FirstIndexCongruent(candidates, c => Exposed(ports', c), c => Exposed(ports, c));
  }

  /** Every piece of the `ports` flag is a candidate free of commas, and the pieces join back into
      the flag. */
  lemma CandidatesOfFlag(portsFlag: string)
    ensures |Candidates(portsFlag)| >= 1
    ensures Join(Candidates(portsFlag), ',') == portsFlag
    ensures forall i :: 0 <= i < |Candidates(portsFlag)| ==> ',' !in Candidates(portsFlag)[i]
  {
    JoinSplit(portsFlag, ',');
    SplitOmitsSeparator(portsFlag, ',');
  }

  // ---------------------------------------------------------------------------------------------
  // Address resolution

  /** A container whose port does not resolve is skipped. */
  lemma NoPortNoRoute(c: Container, candidates: seq<string>, parsed: Route)
    requires ChoosePort(parsed.upstream.port, candidates, c.ports) == ""
    ensures Resolve(c, candidates, parsed) == None
  {
  }

  /** The first binding of the resolved port whose host address is neither the wildcard nor empty
      gives the route its address and its port; later bindings are ignored. */
  lemma NonWildcardBindingWins(c: Container, candidates: seq<string>, parsed: Route, k: nat)
    requires ChoosePort(parsed.upstream.port, candidates, c.ports) != ""
    requires var bs := BindingsFor(c.ports, ChoosePort(parsed.upstream.port, candidates, c.ports));
      && k < |bs| && bs[k].hostIP != Wildcard && bs[k].hostIP != ""
      && forall j :: 0 <= j < k ==> bs[j].hostIP == Wildcard
    ensures var b := BindingsFor(c.ports, ChoosePort(parsed.upstream.port, candidates, c.ports))[k];
      Resolve(c, candidates, parsed) == Some(parsed.(upstream := Upstream(b.hostIP, b.hostPort, c.name)))
  {
    var bs := BindingsFor(c.ports, ChoosePort(parsed.upstream.port, candidates, c.ports));
    FirstIndexAt(bs, NotWildcard, k);
  }

  /** A binding with an empty host address is not the wildcard, so it is selected: the port becomes
      its host port while the address is left empty. A local container then takes its own address;
      a remote one is skipped, even when the builder had an address. */
  lemma EmptyHostIPBinding(c: Container, candidates: seq<string>, parsed: Route, k: nat)
    requires ChoosePort(parsed.upstream.port, candidates, c.ports) != ""
    requires var bs := BindingsFor(c.ports, ChoosePort(parsed.upstream.port, candidates, c.ports));
      && k < |bs| && bs[k].hostIP == ""
      && forall j :: 0 <= j < k ==> bs[j].hostIP == Wildcard
    ensures var b := BindingsFor(c.ports, ChoosePort(parsed.upstream.port, candidates, c.ports))[k];
      c.isLocal ==> (Resolve(c, candidates, parsed) ==
        if ContainerAddress(c) == "" then None
        else Some(parsed.(upstream := Upstream(ContainerAddress(c), b.hostPort, c.name))))
    ensures !c.isLocal ==> Resolve(c, candidates, parsed) == None
  {
    var bs := BindingsFor(c.ports, ChoosePort(parsed.upstream.port, candidates, c.ports));
    FirstIndexAt(bs, NotWildcard, k);
  }

  /** With no non-wildcard binding, the port stays the resolved one. A remote container keeps only the
      builder's address and is skipped without one; a local one without an address from the builder
      takes its bridge address, else its first non-empty network address. */
  lemma OnlyWildcardBindings(c: Container, candidates: seq<string>, parsed: Route)
    requires ChoosePort(parsed.upstream.port, candidates, c.ports) != ""
    requires var bs := BindingsFor(c.ports, ChoosePort(parsed.upstream.port, candidates, c.ports));
      forall j :: 0 <= j < |bs| ==> bs[j].hostIP == Wildcard
    ensures var port := ChoosePort(parsed.upstream.port, candidates, c.ports);
      !c.isLocal ==> (Resolve(c, candidates, parsed) ==
        if parsed.upstream.ip == "" then None
        else Some(parsed.(upstream := Upstream(parsed.upstream.ip, port, c.name))))
    ensures var port := ChoosePort(parsed.upstream.port, candidates, c.ports);
      var ip := if parsed.upstream.ip != "" then parsed.upstream.ip else ContainerAddress(c);
      c.isLocal ==> (Resolve(c, candidates, parsed) ==
        if ip == "" then None else Some(parsed.(upstream := Upstream(ip, port, c.name))))
  {
  }

  /** Every resolved route keeps the builder's host key, names its container and has an address.
      Its address comes from a non-wildcard binding, the builder or, for a local container only, the
      container itself; its port is the resolved port or a non-wildcard binding's host port. */
  lemma ResolvedRouteShape(c: Container, candidates: seq<string>, parsed: Route)
    ensures var r := Resolve(c, candidates, parsed);
      r.Some? ==>
        && ChoosePort(parsed.upstream.port, candidates, c.ports) != ""
        && r.value.host == parsed.host
        && r.value.upstream.container == c.name
        && r.value.upstream.ip != ""
    ensures var r := Resolve(c, candidates, parsed);
      var port := ChoosePort(parsed.upstream.port, candidates, c.ports);
      var bs := BindingsFor(c.ports, port);
      r.Some? ==>
        || (r.value.upstream.port == port
            && (r.value.upstream.ip == parsed.upstream.ip
                || (c.isLocal && r.value.upstream.ip == ContainerAddress(c))))
        || exists j :: 0 <= j < |bs| && NotWildcard(bs[j])
                      && r.value.upstream.port == bs[j].hostPort
                      && (r.value.upstream.ip == bs[j].hostIP
                          || (c.isLocal && r.value.upstream.ip == ContainerAddress(c)))
  {
    var port := ChoosePort(parsed.upstream.port, candidates, c.ports);
    if port != "" {
      var bs := BindingsFor(c.ports, port);
      var k := FirstIndex(bs, NotWildcard);
      if k.Some? {
        assert NotWildcard(bs[k.value]);
      }
    }
  }

  // ---------------------------------------------------------------------------------------------
  // The table

  /** The routes entered for two runs of containers, one after the other, are those of each run. */
  lemma {:induction false} AdmittedConcat(a: seq<Container>, b: seq<Container>, candidates: seq<string>, build: seq<string> -> Route, isValid: Route -> bool)
    ensures Admitted(a + b, candidates, build, isValid) == Admitted(a, candidates, build, isValid) + Admitted(b, candidates, build, isValid)
    decreases |b|
  {
    if b == [] {
      assert a + b == a;
    } else {
      var b' := b[..|b| - 1];
      AdmittedConcat(a, b', candidates, build, isValid);
      assert (a + b)[..|a + b| - 1] == a + b';
      assert (a + b)[|a + b| - 1] == b[|b| - 1];
    }
  }

  /** A container that is skipped leaves the routes entered for the others as they are. */
  lemma SkippedContainer(before: seq<Container>, c: Container, after: seq<Container>, candidates: seq<string>, build: seq<string> -> Route, isValid: Route -> bool)
    requires Admit(c, candidates, build, isValid) == None
    ensures Admitted(before + [c] + after, candidates, build, isValid) == Admitted(before + after, candidates, build, isValid)
  {
    var withC := before + [c];
    assert withC[..|withC| - 1] == before;
    assert withC[|withC| - 1] == c;
    assert Admitted(withC, candidates, build, isValid) == Admitted(before, candidates, build, isValid);
    AdmittedConcat(withC, after, candidates, build, isValid);
    AdmittedConcat(before, after, candidates, build, isValid);
  }

  /** A route is entered exactly when some container's resolution yields it and it is valid. */
  lemma {:induction false} AdmittedMembership(cs: seq<Container>, candidates: seq<string>, build: seq<string> -> Route, isValid: Route -> bool)
    ensures forall r :: r in Admitted(cs, candidates, build, isValid) <==>
      exists i :: 0 <= i < |cs| && Admit(cs[i], candidates, build, isValid) == Some(r)
    decreases |cs|
  {
    if cs != [] {
      var init := cs[..|cs| - 1];
      AdmittedMembership(init, candidates, build, isValid);
      forall r | r in Admitted(cs, candidates, build, isValid)
        ensures exists i :: 0 <= i < |cs| && Admit(cs[i], candidates, build, isValid) == Some(r)
      {
        if r in Admitted(init, candidates, build, isValid) {
          var i :| 0 <= i < |init| && Admit(init[i], candidates, build, isValid) == Some(r);
          assert cs[i] == init[i];
        } else {
          assert Admit(cs[|cs| - 1], candidates, build, isValid) == Some(r);
        }
      }
      forall r | exists i :: 0 <= i < |cs| && Admit(cs[i], candidates, build, isValid) == Some(r)
        ensures r in Admitted(cs, candidates, build, isValid)
      {
        var i :| 0 <= i < |cs| && Admit(cs[i], candidates, build, isValid) == Some(r);
        if i < |cs| - 1 {
          assert init[i] == cs[i];
        }
      }
    }
  }

  /** Which routes are entered does not depend on the order the containers are delivered in: two
      deliveries of the same containers enter the same routes (as a set; the table built from them may
      still differ, since nothing is known of how `add` treats a repeated host key). */
  lemma AdmittedOrderIndependent(a: seq<Container>, b: seq<Container>, candidates: seq<string>, build: seq<string> -> Route, isValid: Route -> bool)
    requires forall c :: c in a <==> c in b
    ensures forall r :: r in Admitted(a, candidates, build, isValid) <==> r in Admitted(b, candidates, build, isValid)
  {
    AdmittedMembership(a, candidates, build, isValid);
    AdmittedMembership(b, candidates, build, isValid);
    forall r | r in Admitted(a, candidates, build, isValid)
      ensures r in Admitted(b, candidates, build, isValid)
    {
      var i :| 0 <= i < |a| && Admit(a[i], candidates, build, isValid) == Some(r);
      assert a[i] in b;
      var j :| 0 <= j < |b| && b[j] == a[i];
    }
    forall r | r in Admitted(b, candidates, build, isValid)
      ensures r in Admitted(a, candidates, build, isValid)
    {
      var j :| 0 <= j < |b| && Admit(b[j], candidates, build, isValid) == Some(r);
      assert b[j] in a;
      var i :| 0 <= i < |a| && a[i] == b[j];
    }
  }

  /** Every route entered into the table is valid, has an address and names one of the containers. */
  lemma AdmittedRoutesComplete(cs: seq<Container>, candidates: seq<string>, build: seq<string> -> Route, isValid: Route -> bool)
    ensures forall r :: r in Admitted(cs, candidates, build, isValid) ==>
      && isValid(r)
      && r.upstream.ip != ""
      && exists i :: 0 <= i < |cs| && r.upstream.container == cs[i].name
                     && r.host == build(cs[i].env).host
  {
    AdmittedMembership(cs, candidates, build, isValid);
    forall r | r in Admitted(cs, candidates, build, isValid)
      ensures isValid(r) && r.upstream.ip != ""
      ensures exists i :: 0 <= i < |cs| && r.upstream.container == cs[i].name && r.host == build(cs[i].env).host
    {
      var i :| 0 <= i < |cs| && Admit(cs[i], candidates, build, isValid) == Some(r);
      ResolvedRouteShape(cs[i], candidates, build(cs[i].env));
    }
  }

  /** When validity demands a port, as the route's own check is meant to, every route entered has
      one. (A non-wildcard binding with an empty host port would otherwise leave the port empty.) */
  lemma AdmittedPortsNonEmpty(cs: seq<Container>, candidates: seq<string>, build: seq<string> -> Route, isValid: Route -> bool)
    requires forall r :: isValid(r) ==> r.upstream.port != ""
    ensures forall r :: r in Admitted(cs, candidates, build, isValid) ==> r.upstream.port != ""
  {
    AdmittedRoutesComplete(cs, candidates, build, isValid);
  }

  /** No route entered names a container none of whose namesakes has a port that resolves. */
  lemma UnroutableContainerAbsent(cs: seq<Container>, candidates: seq<string>, build: seq<string> -> Route, isValid: Route -> bool, name: string)
    requires forall i :: 0 <= i < |cs| && cs[i].name == name ==>
      ChoosePort(build(cs[i].env).upstream.port, candidates, cs[i].ports) == ""
    ensures forall r :: r in Admitted(cs, candidates, build, isValid) ==> r.upstream.container != name
  {
    AdmittedMembership(cs, candidates, build, isValid);
    forall r | r in Admitted(cs, candidates, build, isValid)
      ensures r.upstream.container != name
    {
      var i :| 0 <= i < |cs| && Admit(cs[i], candidates, build, isValid) == Some(r);
      ResolvedRouteShape(cs[i], candidates, build(cs[i].env));
    }
  }

  // ---------------------------------------------------------------------------------------------
  // Worked scenarios: a container exposing 8080/tcp with bridge address 172.17.0.2, the builder
  // having parsed only the host key, and the `ports` flag "80,8080".

  function ScenarioContainer(name: string, bindings: seq<PortBinding>): Container
  {
    Container(name, ["VIRTUAL_HOST=foo.example.com"], map["8080/tcp" := bindings], true, "172.17.0.2", [])
  }

  const ScenarioParsed: Route := Route("foo.example.com", Upstream("", "", ""))

  lemma ScenarioKeys()
    ensures PortKey("8080") == "8080/tcp"
    ensures PortKey("80") != "8080/tcp"
  {
    assert |PortKey("80")| == 6;
  }

  lemma ScenarioCandidates()
    ensures Candidates("80,8080") == ["80", "8080"]
  {
    assert "80,8080" == "80" + [','] + "8080";
    SplitFirstPiece("80", ',', "8080");
    SplitWithoutSeparator("8080", ',');
  }

  /** No host binding: the route uses the bridge address and the container port. */
  lemma BridgeScenario(name: string)
    ensures Resolve(ScenarioContainer(name, []), Candidates("80,8080"), ScenarioParsed)
      == Some(Route("foo.example.com", Upstream("172.17.0.2", "8080", name)))
  {
    ScenarioCandidates();
    ScenarioKeys();
    CandidatePortIsFirstExposed(["80", "8080"], ScenarioContainer(name, []).ports, 1);
  }

  /** A binding on the wildcard address is passed over: same route as without it. */
  lemma WildcardBindingScenario(name: string)
    ensures Resolve(ScenarioContainer(name, [PortBinding("0.0.0.0", "32768")]), Candidates("80,8080"), ScenarioParsed)
      == Some(Route("foo.example.com", Upstream("172.17.0.2", "8080", name)))
  {
    var c := ScenarioContainer(name, [PortBinding("0.0.0.0", "32768")]);
    ScenarioCandidates();
    ScenarioKeys();
    CandidatePortIsFirstExposed(["80", "8080"], c.ports, 1);
    OnlyWildcardBindings(c, ["80", "8080"], ScenarioParsed);
  }

  /** A binding on a specific host address gives the route that address and the host port. */
  lemma HostBindingScenario(name: string)
    ensures Resolve(ScenarioContainer(name, [PortBinding("10.0.0.5", "32768")]), Candidates("80,8080"), ScenarioParsed)
      == Some(Route("foo.example.com", Upstream("10.0.0.5", "32768", name)))
  {
    var c := ScenarioContainer(name, [PortBinding("10.0.0.5", "32768")]);
    ScenarioCandidates();
    ScenarioKeys();
    CandidatePortIsFirstExposed(["80", "8080"], c.ports, 1);
    NonWildcardBindingWins(c, ["80", "8080"], ScenarioParsed, 0);
  }
}
