# Route resolution of auto-proxy's `createRoutes`, in Dafny

auto-proxy builds its routing table from the containers running on a Docker host. Each enumeration
pass lists the containers, inspects them, runs the route builder over each container's environment,
and then decides, container by container, which port and which address the route should point at.
A container for which no port or no address can be found is skipped. A route that fails the route's
own validity check is skipped too. Every other route is entered into a table that starts empty.
This project models that decision procedure (`createRoutes`, `events.go` lines 17-115) and proves
what it promises.

Files and modules:

- `wrappers.dfy` (`Wrappers`): `Option`, `Result` (a Go value/error pair), and `FirstIndex`, the
  "first element that passes, then `break`" search that the three loops of `createRoutes` perform.
- `strings.dfy` (`Strings`): Go's `strings.Split` with a one-character separator, `strings.Join`,
  and the two round trips between them. The `ports` flag is split with it into the candidate ports.
- `docker.dfy` (`Docker`): the inspected container: name, environment, port map (`"<port>/tcp"` keys
  mapped to host bindings), local/remote flag (`Node == nil`), bridge address, network addresses.
- `routing.dfy` (`Routing`): `Upstream`, `Route` and the `Routes` table.
- `events.dfy` (`Events`): each stage of the resolution as a function (`ChoosePort`,
  `ApplyBindings`, `ContainerAddress`, `FallbackAddress`, `Resolve`, `Admit`), and the folding of the
  admitted routes into a table (`Admitted`, `Table`). Next to them are the imperative procedure: the
  method `ResolveRoute` has the three loops with `break`, and the method `CreateRoutes` has the loop
  over containers that grows the table. Both are proved equal to those functions.
- `properties.dfy` (`EventsProperties`): lemmas about those functions, and the three worked
  scenarios of a container exposing `8080/tcp`.

Collaborators whose code is not part of this model are parameters. They are never given a body:

- `build: seq<string> -> Route` stands for `NewRouteBuilder()` followed by `ParseAll(env...)`.
- `isValid: Route -> bool` stands for `route.isValid()`.
- `add: (Routes, Route) -> Routes` stands for `routes.Add(route)`.
- The outcome of `ListContainers` plus the successful `InspectContainer` calls is a
  `Result<seq<Container>>`. A `Failure` is the listing error. A `Success` holds the inspected
  containers, in the order the channel delivered them.
- The `ports` command-line flag is the string parameter `portsFlag`.

Go ranges over `NetworkSettings.Networks`, a map, so the order of network addresses is unspecified.
The model takes that order as given by the `networks` sequence.

`CreateRoutes` is proved equal to a function of its inputs. So two passes over the same containers,
delivered in the same order, give the same table. The delivery order depends on goroutine timing.
Another order enters the same set of routes (`AdmittedOrderIndependent`). The table itself can
still differ when two routes share a host key, because nothing is assumed about `Routes.Add`.

## Model

| member | source | states |
|---|---|---|
| `Events.CreateRoutes` | events.go:17-115 | A listing failure is returned unchanged, and no table is built. Otherwise the result is the empty table with `add` applied, in container order, to exactly the routes that resolve and pass `isValid`. |
| `Events.ResolveRoute` | events.go:48-104 | The loop body, with its three early-exit loops, computes exactly `Resolve`: port choice, container name, binding override, local address fallback, and the skips for a missing port or address. |
| `Events.ContainerAddress` | events.go:85-98 | A local container's own address is its bridge address when that is non-empty. Otherwise it is the first non-empty network address, and it is empty exactly when every network address is empty. |
| `EventsProperties.ExplicitPortKept` | events.go:52-60 | A port the builder set is kept, whatever the candidates and the port map. |
| `EventsProperties.CandidatePortIsFirstExposed` | events.go:53-58 | Without an explicit port, the port is the first candidate in list order whose `"<c>/tcp"` key is in the port map. |
| `EventsProperties.NoExposedCandidate` | events.go:53-60 | Without an explicit port, and with no candidate key present, the port stays empty. |
| `EventsProperties.BindingListIrrelevant` | events.go:55 | The choice depends only on which keys are present: replacing a key's binding list (by an empty one, say) changes nothing. |
| `EventsProperties.CandidatesOfFlag` | events.go:53 | The candidates are the comma-free pieces of the `ports` flag, and they join back into the flag. There is at least one piece. |
| `Strings.JoinSplit` | events.go:53 | `Join(Split(s, sep), sep) == s`. |
| `Strings.SplitJoin` | events.go:53 | Splitting undoes joining a non-empty list of pieces that contain no separator (an empty list joins into `""`, which splits into one empty piece). |
| `Strings.SplitOmitsSeparator` | events.go:53 | No piece of a split contains the separator. |
| `EventsProperties.NoPortNoRoute` | events.go:62-67 | A container whose port does not resolve is skipped. |
| `EventsProperties.NonWildcardBindingWins` | events.go:72-82 | If the first binding whose host IP is not `0.0.0.0` has a non-empty host IP, the route is exactly that binding's host IP and host port. Earlier wildcard bindings and all later bindings play no part. |
| `EventsProperties.EmptyHostIPBinding` | events.go:76-104 | A binding with an empty host IP is selected and overwrites the port with its host port. A local container then takes its bridge or network address. A remote container is skipped, even when the builder had an address. |
| `EventsProperties.OnlyWildcardBindings` | events.go:84-104 | With only wildcard bindings, or none, the port stays the resolved one. A remote container keeps the builder's address and is skipped without one. A local container uses the builder's address, else its bridge address, else its first non-empty network address. |
| `EventsProperties.ResolvedRouteShape` | events.go:69-104 | A resolved route had a resolved port. It keeps the builder's host key, names its container, and has a non-empty address. That address is the builder's or a non-wildcard binding's, or the container's own when the container is local. Its port is the resolved port or a non-wildcard binding's host port. |
| `EventsProperties.AdmittedConcat` | events.go:47-113 | Containers are handled independently: the routes entered for `a + b` are those for `a` followed by those for `b`. |
| `EventsProperties.SkippedContainer` | events.go:63-108 | A container that is skipped, for any reason, leaves the routes entered for the others unchanged. |
| `EventsProperties.AdmittedMembership` | events.go:106-112 | A route is entered if and only if some container resolves to it and it passes `isValid`. |
| `EventsProperties.AdmittedOrderIndependent` | events.go:25-47 | Two deliveries of the same containers, in any order, enter the same set of routes. |
| `EventsProperties.AdmittedRoutesComplete` | events.go:100-112 | Every entered route passes `isValid` and has a non-empty address. It names one of the containers and carries the host key that the builder parsed from that container. |
| `EventsProperties.AdmittedPortsNonEmpty` | events.go:63-112 | If validity requires a port, every entered route has a non-empty port. |
| `EventsProperties.UnroutableContainerAbsent` | events.go:63-67 | No entered route names a container that has no resolvable port. |
| `EventsProperties.BridgeScenario` | events.go:52-88 | Flag `80,8080`, key `8080/tcp` with no bindings, bridge `172.17.0.2`: the route is `172.17.0.2:8080`. |
| `EventsProperties.WildcardBindingScenario` | events.go:76-88 | The same container with a binding `0.0.0.0:32768` gives the same route: the wildcard binding is passed over. |
| `EventsProperties.HostBindingScenario` | events.go:76-82 | The same container with a binding `10.0.0.5:32768` gives the route `10.0.0.5:32768`. |

## Left out

- `watchEvents` (events.go:118-199): the reconnect and event-listening loop. Its behaviour is ping,
  event subscription, sleeps and timeouts, so it is I/O and timing.
- The inspection fan-out with goroutines, the `WaitGroup` and the channel (events.go:24-43) is
  concurrency. The model takes its outcome as a finite sequence of successfully inspected containers,
  in arbitrary order. A failed inspection only drops that container, so it is absent from the sequence.
- `ListContainers` and `InspectContainer` are Docker API calls. A listing failure is an error input.
- Logging with logrus is left out. This includes `container.ID[0:7]` (events.go:64, 101, 110), which
  would panic for an ID shorter than seven characters; the container ID is not modelled.
- The route builder, `isValid` and `Routes.Add` are defined in files that are not part of this
  model. They are parameters, so nothing is assumed about how `Add` treats a host key that is
  already present. For that reason the table is stated only as the fold of `add` over the admitted
  routes in visiting order.
- A nil `Config` (events.go:49) or a nil `NetworkSettings` (events.go:55, 73, 87, 92) would make the
  Go code panic. The model assumes every inspected container has both.
- `AdmittedPortsNonEmpty`: proved only when `isValid` rejects an empty port. A non-wildcard binding
  whose host port is empty overwrites the resolved port with `""`, and the port is not checked again
  before `isValid`.
