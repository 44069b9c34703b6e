/** The parts of an inspected Docker container that route resolution reads. */
module Docker {

  /** One host binding of a published container port (`docker.PortBinding`). */
  datatype PortBinding = PortBinding(hostIP: string, hostPort: string)

  /** `NetworkSettings.Ports`: port keys such as "8080/tcp" mapped to their host bindings. */
  type PortMap = map<string, seq<PortBinding>>

  /** An inspected container: its name, its environment (`Config.Env`), its port map, whether it
      runs on the local daemon (`Node == nil`), its bridge address (`NetworkSettings.IPAddress`)
      and the addresses it has on its other networks, in the order they are visited. */
  datatype Container = Container(
    name: string,
    env: seq<string>,
    ports: PortMap,
    isLocal: bool,
    ipAddress: string,
    networks: seq<string>)

  /** The host address Docker writes for a binding on every interface. */
  const Wildcard: string := "0.0.0.0"

  /** The port-map key of a TCP port, `fmt.Sprintf("%s/tcp", port)`. */
  function PortKey(port: string): (key: string)
  {
    port + "/tcp"
  }

  /** The bindings listed for a TCP port; an absent key reads as no bindings, as a Go map does. */
  function BindingsFor(ports: PortMap, port: string): (bindings: seq<PortBinding>)
  {
    if PortKey(port) in ports then ports[PortKey(port)] else []
  }
}
