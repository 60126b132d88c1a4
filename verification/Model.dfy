/** The records the daemon keeps, and the control-plane state they form. */
module Model {

  datatype Option<+T> = None | Some(value: T)

  /** The errors store operations return. */
  datatype Error =
    | DomainIdRequired | DomainExists | DomainNotFound | DomainRequired
    | NodeIdAndTokenRequired | DifferentToken
    | NodeIdRequired | NodeNotFound | RoleRequired | InterfaceRequired

  datatype Result<+T> = Ok(value: T) | Err(error: Error)

  datatype Natter = Natter(
    managed: bool, configured: bool, command: seq<string>, timeoutSeconds: int,
    stopWireGuard: bool, wireGuardControl: string, restartDelaySeconds: int)

  const NO_NATTER := Natter(false, false, [], 0, false, "", 0)

  /** Node-level configuration of older state files; only migration reads it. */
  datatype LegacyConfig = LegacyConfig(
    role: string, domainID: string, nodeType: string, iface: string,
    configType: string, reloadMethod: string, natter: Natter)

  const NO_LEGACY := LegacyConfig("", "", "", "", "", "", NO_NATTER)

  datatype Presence = Presence(status: string, platform: string, agentVersion: string, lastSeenAt: string)

  const UNSEEN := Presence("", "", "", "")

  /** Tokens are opaque: a node stores the token's digest, here the token itself. */
  datatype Node = Node(
    id: string, name: string, token: string, approved: bool,
    legacy: LegacyConfig, presence: Presence)

  datatype Domain = Domain(id: string, name: string, joinCode: string, createdAt: string, description: string)

  datatype DomainMember = DomainMember(
    domainID: string, nodeID: string, role: string, nodeType: string, iface: string,
    configType: string, reloadMethod: string, natter: Natter, updatedAt: string)

  const NO_MEMBER := DomainMember("", "", "", "", "", "", "", NO_NATTER, "")

  datatype Binding = Binding(
    id: string, domainID: string, auto: bool,
    serverNode: string, serverIface: string, clientNode: string, clientIface: string,
    peerKey: string, configType: string, configPath: string, reloadMethod: string,
    endpointHost: string, endpointPort: int, enabled: bool)

  datatype WGInterface = WGInterface(
    nodeID: string, name: string, publicKey: string, listenPort: int, peers: seq<string>,
    configType: string, configPath: string, updatedAt: string)

  datatype Lease = Lease(
    serverNode: string, serverIface: string, localIP: string, localPort: int,
    publicIP: string, publicPort: int, createdAt: string)

  datatype Endpoint = Endpoint(host: string, port: int, updatedAt: string)

  datatype Command =
    | NatterRun(id: string, serverIface: string)
    | EndpointApply(id: string, bindingID: string, iface: string, peerKey: string, configType: string,
                    configPath: string, reloadMethod: string, host: string, port: int)

  datatype Status = Pending | Delivered | Completed

  datatype QueuedCommand = QueuedCommand(command: Command, status: Status, result: Option<string>, createdAt: string)

  /** Everything the store holds in memory. */
  datatype State = State(
    nodes: map<string, Node>,
    domains: map<string, Domain>,
    members: map<string, DomainMember>,
    bindings: map<string, Binding>,
    presence: map<string, Presence>,
    pendingDomain: map<string, string>,
    inventory: map<string, WGInterface>,
    leases: seq<Lease>,
    endpoints: map<string, Endpoint>,
    commands: map<string, seq<QueuedCommand>>)

  const EMPTY := State(map[], map[], map[], map[], map[], map[], map[], [], map[], map[])

  function FirstNonEmpty(a: string, b: string): string {
    if a != "" then a else b
  }

  function DefaultBindingFields(b: Binding): Binding {
    b.(configType := FirstNonEmpty(b.configType, "openwrt_uci"),
       reloadMethod := FirstNonEmpty(b.reloadMethod, "none"))
  }

  function DefaultMemberFields(m: DomainMember): DomainMember {
    if m.nodeType == "openwrt" then
      m.(configType := FirstNonEmpty(m.configType, "openwrt_uci"),
         reloadMethod := FirstNonEmpty(m.reloadMethod, "ifup"))
    else if m.nodeType == "linux" then
      m.(configType := FirstNonEmpty(m.configType, "wg_conf"),
         reloadMethod := FirstNonEmpty(m.reloadMethod, "wg-quick-restart"))
    else m
  }

  function ClearNode(n: Node): Node {
    n.(legacy := NO_LEGACY, presence := UNSEEN)
  }

  function ClearEndpoint(b: Binding): Binding {
    b.(endpointHost := "", endpointPort := 0)
  }
}
