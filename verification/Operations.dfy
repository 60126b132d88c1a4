/** What each store operation does to the control-plane state, as functions of that state.
    The store's methods are proved against these. */
module Operations {
  import opened Model
  import Names
  import CommandQueue

  datatype Meta = Meta(platform: string, agentVersion: string)

  function Seen(p: Presence, status: string, meta: Option<Meta>, now: string): Presence {
    var q := p.(status := status, lastSeenAt := now);
    match meta
    case None => q
    case Some(m) => q.(platform := m.platform, agentVersion := m.agentVersion)
  }

  function PresenceOf(s: State, id: string): Presence {
    if id in s.presence then s.presence[id] else UNSEEN
  }

  function QueueOf(s: State, node: string): seq<QueuedCommand> {
    if node in s.commands then s.commands[node] else []
  }

  // ---------- Nodes and domains ----------

  function CreateNode(s: State, id: string, name: string, token: string): State {
    s.(nodes := s.nodes[id := Node(id, name, token, true, NO_LEGACY, UNSEEN)],
       presence := s.presence[id := Presence("offline", "", "", "")])
  }

  function MarkSeen(s: State, id: string, meta: Option<Meta>, now: string): State {
    var status := if id in s.nodes && s.nodes[id].approved then "online" else "pending";
    s.(presence := s.presence[id := Seen(PresenceOf(s, id), status, meta, now)])
  }

  function CreateDomainError(s: State, id: string): Option<Error> {
    if id == "" then Some(DomainIdRequired)
    else if id in s.domains then Some(DomainExists)
    else None
  }

  function CreateDomain(s: State, id: string, name: string, joinCode: string, description: string, now: string): State {
    if CreateDomainError(s, id).Some? then s
    else s.(domains := s.domains[id := Domain(id, FirstNonEmpty(name, id), joinCode, now, description)])
  }

  function IdentityError(s: State, node: string, token: string): Option<Error> {
    if node == "" || token == "" then Some(NodeIdAndTokenRequired)
    else if node in s.nodes && s.nodes[node].token != token then Some(DifferentToken)
    else None
  }

  function JoinError(s: State, domain: string, node: string, token: string): Option<Error> {
    if node == "" || token == "" then Some(NodeIdAndTokenRequired)
    else if domain !in s.domains then Some(DomainNotFound)
    else IdentityError(s, node, token)
  }

  function NewNode(node: string, name: string, token: string): Node {
    Node(node, FirstNonEmpty(name, node), token, false, NO_LEGACY, UNSEEN)
  }

  /** A known node keeps its record and its presence; an unknown one starts unapproved. */
  function PendingPresence(s: State, node: string, meta: Option<Meta>, now: string): Presence {
    Seen(if node in s.nodes then PresenceOf(s, node) else UNSEEN, "pending", meta, now)
  }

  function JoinedNodes(nodes: map<string, Node>, node: string, name: string, token: string): map<string, Node> {
    if node in nodes then nodes else nodes[node := NewNode(node, name, token)]
  }

  function Join(s: State, domain: string, node: string, name: string, token: string, meta: Option<Meta>,
                now: string): State
  {
    if JoinError(s, domain, node, token).Some? then s
    else
      s.(nodes := JoinedNodes(s.nodes, node, name, token),
         presence := s.presence[node := PendingPresence(s, node, meta, now)],
         pendingDomain := s.pendingDomain[node := domain])
  }

  function RegisteredNodes(nodes: map<string, Node>, node: string, name: string, token: string): map<string, Node> {
    if node in nodes then nodes[node := nodes[node].(name := FirstNonEmpty(nodes[node].name, name))]
    else nodes[node := NewNode(node, name, token)]
  }

  function Register(s: State, node: string, name: string, token: string, meta: Option<Meta>, now: string): State {
    if IdentityError(s, node, token).Some? then s
    else
      s.(nodes := RegisteredNodes(s.nodes, node, name, token),
         presence := s.presence[node := PendingPresence(s, node, meta, now)])
  }

  // ---------- Memberships ----------

  datatype Approval = Approval(
    domainID: string, role: string, nodeType: string, iface: string,
    configType: string, reloadMethod: string, natter: Natter, name: string)

  ghost predicate MemberOf(s: State, k: string, node: string) {
    k in s.members && s.members[k].nodeID == node
  }

  /** `domain` is the only domain of the node's memberships, or empty when there is none or no single
      one. A membership without a domain never settles the choice, so it allows both outcomes. */
  ghost predicate SingleDomain(s: State, node: string, domain: string) {
    if domain == "" then
      || (forall k :: MemberOf(s, k, node) ==> s.members[k].domainID == "")
      || (exists k, l :: MemberOf(s, k, node) && MemberOf(s, l, node) && s.members[k].domainID != s.members[l].domainID)
    else
      && (exists k :: MemberOf(s, k, node) && s.members[k].domainID == domain)
      && (forall k :: MemberOf(s, k, node) ==> s.members[k].domainID == domain || s.members[k].domainID == "")
  }

  function ApprovalDomain(s: State, node: string, a: Approval, single: string): string {
    var pending := if node in s.pendingDomain then s.pendingDomain[node] else "";
    FirstNonEmpty(a.domainID, FirstNonEmpty(pending, single))
  }

  function MergeNatter(known: Natter, a: Natter): Natter {
    if !a.managed then known
    else if a.configured then a
    else NO_NATTER.(managed := true)
  }

  function ApprovedMember(s: State, node: string, a: Approval, domain: string, now: string): DomainMember {
    var key := Names.MemberKey(domain, node);
    var m := if key in s.members then s.members[key] else NO_MEMBER;
    DefaultMemberFields(DomainMember(
      domain, node, FirstNonEmpty(a.role, m.role), FirstNonEmpty(a.nodeType, m.nodeType),
      FirstNonEmpty(a.iface, m.iface), FirstNonEmpty(a.configType, m.configType),
      FirstNonEmpty(a.reloadMethod, m.reloadMethod), MergeNatter(m.natter, a.natter), now))
  }

  function ApproveError(s: State, node: string, a: Approval, single: string): Option<Error> {
    var domain := ApprovalDomain(s, node, a, single);
    if node !in s.nodes then Some(NodeNotFound)
    else if domain == "" then Some(DomainRequired)
    else if domain !in s.domains then Some(DomainNotFound)
    else
      var m := ApprovedMember(s, node, a, domain, "");
      if m.role == "" then Some(RoleRequired)
      else if m.iface == "" then Some(InterfaceRequired)
      else None
  }

  function Approve(s: State, node: string, a: Approval, single: string, now: string): State {
    if ApproveError(s, node, a, single).Some? then s
    else
      var domain := ApprovalDomain(s, node, a, single);
      var seen := PresenceOf(s, node);
      var status := if seen.status == "pending" || seen.status == "" then "offline" else seen.status;
      s.(members := s.members[Names.MemberKey(domain, node) := ApprovedMember(s, node, a, domain, now)],
         nodes := s.nodes[node := ClearNode(s.nodes[node]).(
                            name := FirstNonEmpty(a.name, s.nodes[node].name), approved := true)],
         pendingDomain := s.pendingDomain - {node},
         presence := s.presence[node := seen.(status := status)])
  }

  // ---------- Bindings, deletion, inventory ----------

  predicate GivesEndpoint(b: Binding) {
    b.endpointHost != "" && b.endpointPort > 0
  }

  function AddBinding(s: State, b: Binding, now: string): State {
    var stored := ClearEndpoint(DefaultBindingFields(b)).(enabled := true);
    s.(bindings := s.bindings[b.id := stored],
       endpoints := if GivesEndpoint(b)
                    then s.endpoints[b.id := Endpoint(b.endpointHost, b.endpointPort, now)]
                    else s.endpoints)
  }

  /** What the command line's add-binding is given. */
  datatype BindingFlags = BindingFlags(
    id: string, serverNode: string, serverIface: string, clientNode: string, clientIface: string,
    peerKey: string, configType: string, configPath: string, reloadMethod: string)

  /** The binding it builds: not automatic, of no domain, and without an endpoint. */
  function FromFlags(f: BindingFlags): Binding {
    Binding(f.id, "", false, f.serverNode, f.serverIface, f.clientNode, f.clientIface, f.peerKey,
            f.configType, f.configPath, f.reloadMethod, "", 0, false)
  }

  predicate Touches(b: Binding, node: string) {
    b.serverNode == node || b.clientNode == node
  }

  function LeasesWithout(leases: seq<Lease>, node: string): seq<Lease> {
    if leases == [] then []
    else
      var init, last := leases[..|leases| - 1], leases[|leases| - 1];
      LeasesWithout(init, node) + if last.serverNode != node then [last] else []
  }

  function MembersWithout(members: map<string, DomainMember>, node: string): map<string, DomainMember> {
    map k | k in members && members[k].nodeID != node :: members[k]
  }

  function RowsWithout(rows: map<string, WGInterface>, node: string): map<string, WGInterface> {
    map k | k in rows && rows[k].nodeID != node :: rows[k]
  }

  function BindingsWithout(bindings: map<string, Binding>, node: string): map<string, Binding> {
    map k | k in bindings && !Touches(bindings[k], node) :: bindings[k]
  }

  function EndpointsWithout(endpoints: map<string, Endpoint>, bindings: map<string, Binding>,
                            node: string): map<string, Endpoint>
  {
    map k | k in endpoints && !(k in bindings && Touches(bindings[k], node)) :: endpoints[k]
  }

  function DeleteNode(s: State, node: string): State {
    if node == "" || node !in s.nodes then s
    else
      s.(nodes := s.nodes - {node},
         presence := s.presence - {node},
         commands := s.commands - {node},
         members := MembersWithout(s.members, node),
         inventory := RowsWithout(s.inventory, node),
         bindings := BindingsWithout(s.bindings, node),
         endpoints := EndpointsWithout(s.endpoints, s.bindings, node),
         leases := LeasesWithout(s.leases, node))
  }

  /** Stores the reported rows in order: a later row of the same key wins, nameless rows are skipped. */
  function PutRows(rows: map<string, WGInterface>, node: string, items: seq<WGInterface>,
                   now: string): map<string, WGInterface>
  {
    if items == [] then rows
    else
      var rest, item := PutRows(rows, node, items[..|items| - 1], now), items[|items| - 1];
      if item.name == "" then rest
      else rest[Names.InterfaceKey(node, item.name) := item.(nodeID := node, updatedAt := now)]
  }

  function UpdateInventory(s: State, node: string, items: seq<WGInterface>, now: string): State {
    if node == "" || items == [] then s
    else s.(inventory := PutRows(RowsWithout(s.inventory, node), node, items, now))
  }

  // ---------- Commands and endpoints ----------

  function Queue(s: State, node: string, cmd: Command, now: string): State {
    s.(commands := s.commands[node := CommandQueue.Push(QueueOf(s, node), cmd, now)])
  }

  function NextCommand(s: State, node: string): Option<Command> {
    var q := QueueOf(s, node);
    var i := CommandQueue.FirstPending(q, 0);
    if i < |q| then Some(q[i].command) else None
  }

  function Deliver(s: State, node: string): State {
    if NextCommand(s, node).None? then s
    else s.(commands := s.commands[node := CommandQueue.Deliver(QueueOf(s, node))])
  }

  function Complete(s: State, node: string, id: string, result: string): State {
    s.(commands := s.commands[node := CommandQueue.Complete(QueueOf(s, node), id, result)])
  }

  /** The bindings a lease of `node` on `iface` speaks for. */
  predicate Serves(bindings: map<string, Binding>, k: string, node: string, iface: string) {
    && k in bindings && bindings[k].enabled
    && bindings[k].serverNode == node && bindings[k].serverIface == iface
  }

  function ServedEndpoints(endpoints: map<string, Endpoint>, bindings: map<string, Binding>, node: string, lease: Lease,
                           now: string): map<string, Endpoint>
  {
    map k | k in endpoints.Keys + bindings.Keys && (k in endpoints || Serves(bindings, k, node, lease.serverIface)) ::
      if Serves(bindings, k, node, lease.serverIface) then Endpoint(lease.publicIP, lease.publicPort, now)
      else endpoints[k]
  }

  function SaveLease(s: State, node: string, lease: Lease, now: string): State {
    s.(leases := s.leases + [lease.(serverNode := node, createdAt := now)],
       endpoints := ServedEndpoints(s.endpoints, s.bindings, node, lease, now))
  }

  function ApplyCommand(id: string, b: Binding, lease: Lease): Command {
    EndpointApply(id, b.id, b.clientIface, b.peerKey, b.configType, b.configPath, b.reloadMethod, lease.publicIP,
                  lease.publicPort)
  }

  function WithEndpoint(b: Binding, lease: Lease): Binding {
    b.(endpointHost := lease.publicIP, endpointPort := lease.publicPort)
  }

  /** `matched` lists the bindings the lease of `node` speaks for, once each, with their new endpoint. */
  ghost predicate Matches(bindings: map<string, Binding>, node: string, lease: Lease, matched: seq<Binding>) {
    && (forall i, j :: 0 <= i < j < |matched| ==> matched[i].id != matched[j].id)
    && (forall i :: 0 <= i < |matched| ==>
          Serves(bindings, matched[i].id, node, lease.serverIface) &&
          matched[i] == WithEndpoint(bindings[matched[i].id], lease))
    && (forall k :: Serves(bindings, k, node, lease.serverIface) ==>
          exists i :: 0 <= i < |matched| && matched[i].id == k)
  }
}
