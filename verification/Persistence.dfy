/** The two saved files, and what opening them again yields. */
module Persistence {
  import opened Model
  import Names

  /** The configuration file. The legacy tables are read for migration and never written again. */
  datatype DataFile = DataFile(
    nodes: map<string, Node>,
    domains: map<string, Domain>,
    members: map<string, DomainMember>,
    bindings: map<string, Binding>,
    legacyInventory: map<string, WGInterface>,
    legacyLeases: seq<Lease>,
    legacyCommands: map<string, seq<QueuedCommand>>)

  datatype RuntimeFile = RuntimeFile(
    presence: map<string, Presence>,
    pendingDomain: map<string, string>,
    inventory: map<string, WGInterface>,
    leases: seq<Lease>,
    endpoints: map<string, Endpoint>,
    commands: map<string, seq<QueuedCommand>>)

  const NO_DATA := DataFile(map[], map[], map[], map[], map[], [], map[])

  const NO_RUNTIME := RuntimeFile(map[], map[], map[], [], map[], map[])

  function ClearedNodes(nodes: map<string, Node>): map<string, Node> {
    map k | k in nodes :: ClearNode(nodes[k])
  }

  function ClearedBindings(bindings: map<string, Binding>): map<string, Binding> {
    map k | k in bindings :: ClearEndpoint(bindings[k])
  }

  function SavedData(s: State): DataFile {
    DataFile(ClearedNodes(s.nodes), s.domains, s.members, ClearedBindings(s.bindings), map[], [], map[])
  }

  function SavedRuntime(s: State): RuntimeFile {
    RuntimeFile(s.presence, s.pendingDomain, s.inventory, s.leases, s.endpoints, s.commands)
  }

  // ---------- Migration ----------

  predicate HasLegacyMembership(n: Node) {
    n.legacy.domainID != "" && n.legacy.iface != "" && n.legacy.role != ""
  }

  function LegacyKey(n: Node): string {
    Names.MemberKey(n.legacy.domainID, n.id)
  }

  function LegacyMember(n: Node): DomainMember {
    DefaultMemberFields(DomainMember(
      n.legacy.domainID, n.id, n.legacy.role, n.legacy.nodeType, n.legacy.iface,
      n.legacy.configType, n.legacy.reloadMethod, n.legacy.natter, n.presence.lastSeenAt))
  }

  predicate HasPresence(n: Node) {
    n.presence.status != "" || n.presence.lastSeenAt != "" || n.presence.platform != "" || n.presence.agentVersion != ""
  }

  function LegacyPresence(n: Node): Presence {
    n.presence.(status := FirstNonEmpty(n.presence.status, "offline"))
  }

  predicate HasInlineEndpoint(b: Binding) {
    b.endpointHost != "" && b.endpointPort > 0
  }

  predicate FromLegacy(nodes: map<string, Node>, n: string, k: string, m: DomainMember) {
    n in nodes && HasLegacyMembership(nodes[n]) && k == LegacyKey(nodes[n]) && m == LegacyMember(nodes[n])
  }

  /** Memberships after migration: known ones are never overwritten, each new one comes from a node
      that had one, and no such node is left without. */
  ghost predicate MigratedMembers(nodes: map<string, Node>, known: map<string, DomainMember>,
                                  members: map<string, DomainMember>)
  {
    && known.Keys <= members.Keys
    && (forall k :: k in known ==> members[k] == known[k])
    && (forall k :: k in members && k !in known ==> exists n :: FromLegacy(nodes, n, k, members[k]))
    && (forall n :: n in nodes && HasLegacyMembership(nodes[n]) ==> LegacyKey(nodes[n]) in members)
  }

  function MigratedPresence(nodes: map<string, Node>, known: map<string, Presence>): map<string, Presence> {
    known + map k | k in nodes && HasPresence(nodes[k]) :: LegacyPresence(nodes[k])
  }

  function MigratedEndpoints(bindings: map<string, Binding>, known: map<string, Endpoint>,
                             now: string): map<string, Endpoint>
  {
    known + map k | k in bindings && HasInlineEndpoint(bindings[k]) ::
      Endpoint(bindings[k].endpointHost, bindings[k].endpointPort, now)
  }

  function MigratedBindings(bindings: map<string, Binding>): map<string, Binding> {
    map k | k in bindings :: if HasInlineEndpoint(bindings[k]) then ClearEndpoint(bindings[k]) else bindings[k]
  }

  /** What opening the files can leave in memory: everything but the order in which nodes claim a
      shared membership key is determined. */
  ghost predicate Opened(d: DataFile, r: RuntimeFile, now: string, s: State) {
    && s.nodes == ClearedNodes(d.nodes)
    && s.domains == d.domains
    && MigratedMembers(d.nodes, d.members, s.members)
    && s.bindings == MigratedBindings(d.bindings)
    && s.presence == MigratedPresence(d.nodes, r.presence)
    && s.pendingDomain == r.pendingDomain
    && s.inventory == r.inventory + d.legacyInventory
    && s.leases == (if d.legacyLeases != [] then d.legacyLeases else r.leases)
    && s.endpoints == MigratedEndpoints(d.bindings, r.endpoints, now)
    && s.commands == r.commands + d.legacyCommands
  }

  // ---------- Migrating record by record ----------

  /** Node records outside `todo` have been migrated. */
  ghost predicate NodesSoFar(was: map<string, Node>, seen: map<string, Presence>,
                             nodes: map<string, Node>, presence: map<string, Presence>, todo: set<string>) {
    && nodes.Keys == was.Keys
    && (forall k :: k in was ==> nodes[k] == if k in todo then was[k] else ClearNode(was[k]))
    && (forall k :: k in presence <==> k in seen || (k in was && k !in todo && HasPresence(was[k])))
    && (forall k :: k in presence ==>
          presence[k] == if k in was && k !in todo && HasPresence(was[k]) then LegacyPresence(was[k]) else seen[k])
  }

  lemma NodesStart(was: map<string, Node>, seen: map<string, Presence>)
    ensures NodesSoFar(was, seen, was, seen, was.Keys)
  {
  }

  lemma NodesStep(was: map<string, Node>, seen: map<string, Presence>,
                  nodes: map<string, Node>, presence: map<string, Presence>, rest: set<string>, k: string)
    requires k in was && k !in rest && NodesSoFar(was, seen, nodes, presence, rest + {k})
    ensures k in nodes
    ensures NodesSoFar(was, seen, nodes[k := ClearNode(nodes[k])],
                       if HasPresence(nodes[k]) then presence[k := LegacyPresence(nodes[k])] else presence, rest)
  {
  }

  lemma NodesDone(was: map<string, Node>, seen: map<string, Presence>, nodes: map<string, Node>,
                  presence: map<string, Presence>)
    requires NodesSoFar(was, seen, nodes, presence, {})
    ensures nodes == ClearedNodes(was) && presence == MigratedPresence(was, seen)
  {
  }

  /** Binding records outside `todo` have been migrated. */
  ghost predicate BindingsSoFar(was: map<string, Binding>, ends: map<string, Endpoint>, now: string,
                                bindings: map<string, Binding>, endpoints: map<string, Endpoint>, todo: set<string>) {
    && bindings.Keys == was.Keys
    && (forall k :: k in was ==>
          bindings[k] == if k !in todo && HasInlineEndpoint(was[k]) then ClearEndpoint(was[k]) else was[k])
    && (forall k :: k in endpoints <==> k in ends || (k in was && k !in todo && HasInlineEndpoint(was[k])))
    && (forall k :: k in endpoints ==>
          endpoints[k] == if k in was && k !in todo && HasInlineEndpoint(was[k])
                          then Endpoint(was[k].endpointHost, was[k].endpointPort, now) else ends[k])
  }

  lemma BindingsStart(was: map<string, Binding>, ends: map<string, Endpoint>, now: string)
    ensures BindingsSoFar(was, ends, now, was, ends, was.Keys)
  {
  }

  lemma BindingsStep(was: map<string, Binding>, ends: map<string, Endpoint>, now: string,
                     bindings: map<string, Binding>, endpoints: map<string, Endpoint>, rest: set<string>, k: string)
    requires k in was && k !in rest && BindingsSoFar(was, ends, now, bindings, endpoints, rest + {k})
    ensures k in bindings
    ensures var b := bindings[k];
            BindingsSoFar(was, ends, now,
                          if HasInlineEndpoint(b) then bindings[k := ClearEndpoint(b)] else bindings,
                          if HasInlineEndpoint(b) then endpoints[k := Endpoint(b.endpointHost, b.endpointPort, now)]
                          else endpoints,
                          rest)
  {
  }

  lemma BindingsDone(was: map<string, Binding>, ends: map<string, Endpoint>, now: string,
                     bindings: map<string, Binding>, endpoints: map<string, Endpoint>)
    requires BindingsSoFar(was, ends, now, bindings, endpoints, {})
    ensures bindings == MigratedBindings(was) && endpoints == MigratedEndpoints(was, ends, now)
  {
  }

  // ---------- Reopening ----------

  predicate CleanNodes(nodes: map<string, Node>) {
    forall k :: k in nodes ==> ClearNode(nodes[k]) == nodes[k]
  }

  predicate CleanBindings(bindings: map<string, Binding>) {
    forall k :: k in bindings ==> ClearEndpoint(bindings[k]) == bindings[k]
  }

  lemma NothingToMigrate(nodes: map<string, Node>, members: map<string, DomainMember>, t: map<string, DomainMember>)
    requires CleanNodes(nodes) && MigratedMembers(nodes, members, t)
    ensures t == members
  {
    forall n | n in nodes ensures !HasLegacyMembership(nodes[n]) {
      assert ClearNode(nodes[n]).legacy == NO_LEGACY;
    }
    assert t.Keys <= members.Keys;
  }

  lemma CleanTablesStay(nodes: map<string, Node>, presence: map<string, Presence>,
                        bindings: map<string, Binding>, endpoints: map<string, Endpoint>, now: string)
    requires CleanNodes(nodes)
    requires forall k :: k in bindings ==> !HasInlineEndpoint(bindings[k])
    ensures ClearedNodes(nodes) == nodes
    ensures MigratedPresence(nodes, presence) == presence
    ensures MigratedBindings(bindings) == bindings
    ensures MigratedEndpoints(bindings, endpoints, now) == endpoints
  {
    forall k | k in nodes ensures !HasPresence(nodes[k]) {
      assert ClearNode(nodes[k]).presence == UNSEEN;
    }
  }

  /** Reopening what was saved yields the state itself with node and binding records cleared. */
  lemma Reopened(s: State, now: string, t: State)
    requires Opened(SavedData(s), SavedRuntime(s), now, t)
    ensures t == s.(nodes := ClearedNodes(s.nodes), bindings := ClearedBindings(s.bindings))
  {
    var nodes, bindings := ClearedNodes(s.nodes), ClearedBindings(s.bindings);
    ClearedIsClean(s.nodes, s.bindings);
    hide ClearedNodes, ClearedBindings, MigratedBindings, MigratedPresence, MigratedEndpoints, CleanNodes;
    hide HasInlineEndpoint, MigratedMembers;
    NothingToMigrate(nodes, s.members, t.members);
    CleanTablesStay(nodes, s.presence, bindings, s.endpoints, now);
    NothingAdded(s.inventory);
    NothingAdded(s.commands);
  }

  lemma ClearedIsClean(nodes: map<string, Node>, bindings: map<string, Binding>)
    ensures CleanNodes(ClearedNodes(nodes))
    ensures forall k :: k in ClearedBindings(bindings) ==> !HasInlineEndpoint(ClearedBindings(bindings)[k])
  {
  }

  lemma ClearedIffClean(nodes: map<string, Node>, bindings: map<string, Binding>)
    ensures ClearedNodes(nodes) == nodes <==> CleanNodes(nodes)
    ensures ClearedBindings(bindings) == bindings <==> CleanBindings(bindings)
  {
    assert forall k :: k in nodes ==> ClearedNodes(nodes)[k] == ClearNode(nodes[k]);
    assert forall k :: k in bindings ==> ClearedBindings(bindings)[k] == ClearEndpoint(bindings[k]);
  }

  /** A restart is invisible exactly when no node or binding record carries legacy fields. */
  lemma RestartTransparentIff(s: State, now: string, t: State)
    requires Opened(SavedData(s), SavedRuntime(s), now, t)
    ensures t == s <==> CleanNodes(s.nodes) && CleanBindings(s.bindings)
  {
    Reopened(s, now, t);
    hide Opened, ClearedNodes, ClearedBindings;
    ClearedIffClean(s.nodes, s.bindings);
  }

  lemma MigratedTables(nodes: map<string, Node>, bindings: map<string, Binding>)
    ensures CleanNodes(ClearedNodes(nodes))
    ensures forall k :: k in MigratedBindings(bindings) ==> !HasInlineEndpoint(MigratedBindings(bindings)[k])
  {
  }

  function Remembered(s: State): DataFile {
    DataFile(s.nodes, s.domains, s.members, s.bindings, map[], [], map[])
  }

  lemma MigratedIsFixed(s: State, now: string, t: State)
    requires CleanNodes(s.nodes) && forall k :: k in s.bindings ==> !HasInlineEndpoint(s.bindings[k])
    requires Opened(Remembered(s), SavedRuntime(s), now, t)
    ensures t == s
  {
    hide ClearedNodes, MigratedBindings, MigratedPresence, MigratedEndpoints, CleanNodes, HasInlineEndpoint;
    hide MigratedMembers;
    NothingToMigrate(s.nodes, s.members, t.members);
    CleanTablesStay(s.nodes, s.presence, s.bindings, s.endpoints, now);
    NothingAdded(s.inventory);
    NothingAdded(s.commands);
  }

  lemma NothingAdded<V>(table: map<string, V>)
    ensures table + map[] == table
  {
  }

  /** Migrating what migration left in memory changes nothing, from any legacy state and in any order. */
  lemma MigrationIdempotent(d: DataFile, r: RuntimeFile, now: string, s: State, now': string, t: State)
    requires Opened(d, r, now, s) && Opened(Remembered(s), SavedRuntime(s), now', t)
    ensures t == s
  {
    MigratedTables(d.nodes, d.bindings);
    assert s.nodes == ClearedNodes(d.nodes) && s.bindings == MigratedBindings(d.bindings);
    hide Opened, CleanNodes, ClearedNodes, MigratedBindings, HasInlineEndpoint;
    MigratedIsFixed(s, now', t);
  }

  lemma MigratedBindingsClean(bindings: map<string, Binding>)
    ensures CleanBindings(MigratedBindings(bindings)) <==>
            forall k :: k in bindings ==> HasInlineEndpoint(bindings[k]) || ClearEndpoint(bindings[k]) == bindings[k]
  {
    var m := MigratedBindings(bindings);
    assert forall k :: k in bindings ==>
      m[k] == if HasInlineEndpoint(bindings[k]) then ClearEndpoint(bindings[k]) else bindings[k];
  }

  /** Saving and reopening a migrated state is invisible exactly when no legacy binding had one half of
      an endpoint: a port without a host, or a host with a port that is not positive. */
  lemma MigratedRestartIff(d: DataFile, r: RuntimeFile, now: string, s: State, now': string, t: State)
    requires Opened(d, r, now, s) && Opened(SavedData(s), SavedRuntime(s), now', t)
    ensures t == s <==> forall k :: k in d.bindings ==>
                          HasInlineEndpoint(d.bindings[k]) || ClearEndpoint(d.bindings[k]) == d.bindings[k]
  {
    RestartTransparentIff(s, now', t);
    MigratedTables(d.nodes, d.bindings);
    MigratedBindingsClean(d.bindings);
    hide MigratedMembers, ClearedNodes, MigratedBindings, MigratedPresence, MigratedEndpoints, CleanNodes;
    hide CleanBindings;
  }

  lemma NothingOpens(now: string, s: State)
    requires Opened(NO_DATA, NO_RUNTIME, now, s)
    ensures s == EMPTY
  {
    NothingToMigrate(map[], map[], s.members);
    CleanTablesStay(map[], map[], map[], map[], now);
  }
}
