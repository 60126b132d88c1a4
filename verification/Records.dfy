/** What approvals, inventories and migration leave in the tables, field by field. */
module Records {
  import opened Model
  import opened Runs
  import Names
  import Op = Operations
  import Disk = Persistence
  import Identity

  // ---------- Introductions ----------

  /** The node is known afterwards: as before, perhaps under a name, or as a newcomer awaiting approval. */
  predicate Introduced(s: State, node: string, name: string, token: string, t: State) {
    && node in t.nodes && t.nodes - {node} == s.nodes - {node}
    && (node in s.nodes ==> t.nodes[node] == s.nodes[node].(name := t.nodes[node].name))
    && (node !in s.nodes ==>
          t.nodes[node] == Node(node, if name != "" then name else node, token, false, NO_LEGACY, UNSEEN))
  }

  predicate Heard(s: State, node: string, status: string, meta: Option<Op.Meta>, now: string, t: State) {
    var known := if node in s.nodes && node in s.presence then s.presence[node] else UNSEEN;
    t.presence == s.presence[node := Identity.Contacted(known, status, meta, now)]
  }

  lemma RegisterIntroduces(s: State, node: string, name: string, token: string, meta: Option<Op.Meta>, now: string)
    requires Op.IdentityError(s, node, token).None?
    ensures var t := Op.Register(s, node, name, token, meta, now);
            && t == s.(nodes := t.nodes, presence := t.presence)
            && Introduced(s, node, name, token, t) && Heard(s, node, "pending", meta, now, t)
            && (node in s.nodes ==> t.nodes[node].name == if s.nodes[node].name != "" then s.nodes[node].name else name)
  {
  }

  lemma JoinIntroduces(s: State, domain: string, node: string, name: string, token: string, meta: Option<Op.Meta>,
                       now: string)
    requires Op.JoinError(s, domain, node, token).None?
    ensures var t := Op.Join(s, domain, node, name, token, meta, now);
            && t == s.(nodes := t.nodes, presence := t.presence, pendingDomain := s.pendingDomain[node := domain])
            && Introduced(s, node, name, token, t) && Heard(s, node, "pending", meta, now, t)
            && (node in s.nodes ==> t.nodes[node].name == s.nodes[node].name)
  {
  }

  // ---------- Approvals ----------

  /** The domain an approval is about: the one it names, the one the node asked to join, or its only one. */
  function DomainOf(s: State, node: string, a: Op.Approval, single: string): string {
    if a.domainID != "" then a.domainID
    else if node in s.pendingDomain && s.pendingDomain[node] != "" then s.pendingDomain[node]
    else single
  }

  function Known(s: State, domain: string, node: string): DomainMember {
    if domain + "/" + node in s.members then s.members[domain + "/" + node] else NO_MEMBER
  }

  function Given(field: string, known: string): string {
    if field != "" then field else known
  }

  function Default(nodeType: string, field: string, openwrt: string, linux: string): string {
    if field != "" then field else if nodeType == "openwrt" then openwrt else if nodeType == "linux" then linux else ""
  }

  /** Refused without a known node, an existing domain, a role and an interface. */
  lemma ApprovalRefusedIff(s: State, node: string, a: Op.Approval, single: string)
    ensures var domain := DomainOf(s, node, a, single);
            Op.ApproveError(s, node, a, single).Some? <==>
              || node !in s.nodes || domain == "" || domain !in s.domains
              || Given(a.role, Known(s, domain, node).role) == "" || Given(a.iface, Known(s, domain, node).iface) == ""
  {
  }

  /** The membership has what is given, else what it had, and what is still missing of how a client applies
      endpoints follows from the node's type. */
  predicate Merged(domain: string, node: string, a: Op.Approval, known: DomainMember, now: string, m: DomainMember) {
    && m.domainID == domain && m.nodeID == node && m.updatedAt == now
    && m.role == Given(a.role, known.role) && m.nodeType == Given(a.nodeType, known.nodeType)
    && m.iface == Given(a.iface, known.iface)
    && m.configType == Default(m.nodeType, Given(a.configType, known.configType), "openwrt_uci", "wg_conf")
    && m.reloadMethod == Default(m.nodeType, Given(a.reloadMethod, known.reloadMethod), "ifup", "wg-quick-restart")
  }

  /** An approval changes the natter settings only if it is to manage them: then it sets all of them, or switches
      them off. */
  predicate NatterSet(a: Natter, known: Natter, after: Natter) {
    && (!a.managed ==> after == known)
    && (a.managed && a.configured ==> after == a)
    && (a.managed && !a.configured ==> after == Natter(true, false, [], 0, false, "", 0))
  }

  lemma ApprovedMemberIs(s: State, node: string, a: Op.Approval, domain: string, now: string)
    ensures Merged(domain, node, a, Known(s, domain, node), now, Op.ApprovedMember(s, node, a, domain, now))
  {
    hide Op.MergeNatter;
  }

  lemma ApprovedNatterIs(s: State, node: string, a: Op.Approval, domain: string, now: string)
    ensures NatterSet(a.natter, Known(s, domain, node).natter, Op.ApprovedMember(s, node, a, domain, now).natter)
  {
    hide FirstNonEmpty;
  }

  /** The membership afterwards. */
  lemma ApprovalMerges(s: State, node: string, a: Op.Approval, single: string, now: string)
    requires Op.ApproveError(s, node, a, single).None?
    ensures var t := Op.Approve(s, node, a, single, now);
            var domain := DomainOf(s, node, a, single);
            && domain + "/" + node in t.members
            && Merged(domain, node, a, Known(s, domain, node), now, t.members[domain + "/" + node])
            && NatterSet(a.natter, Known(s, domain, node).natter, t.members[domain + "/" + node].natter)
  {
    ApproveFrame(s, node, a, single, now);
    assert Op.ApprovalDomain(s, node, a, single) == DomainOf(s, node, a, single);
    ApprovedMemberIs(s, node, a, DomainOf(s, node, a, single), now);
    ApprovedNatterIs(s, node, a, DomainOf(s, node, a, single), now);
    hide Op.Approve, Op.ApproveError, Op.ApprovedMember, Merged, NatterSet, Known;
  }

  /** Nothing else changes but the node's own record, presence and pending domain. */
  lemma ApprovalKeepsOthers(s: State, node: string, a: Op.Approval, single: string, now: string)
    requires Op.ApproveError(s, node, a, single).None?
    ensures var t := Op.Approve(s, node, a, single, now);
            var key := DomainOf(s, node, a, single) + "/" + node;
            && t.members - {key} == s.members - {key} && t.nodes - {node} == s.nodes - {node}
            && t.pendingDomain == s.pendingDomain - {node} && t.presence - {node} == s.presence - {node}
            && t == s.(members := t.members, nodes := t.nodes, presence := t.presence, pendingDomain := t.pendingDomain)
  {
    ApproveFrame(s, node, a, single, now);
    assert Op.ApprovalDomain(s, node, a, single) == DomainOf(s, node, a, single);
    var t := Op.Approve(s, node, a, single, now);
    assert t.presence == s.presence[node := t.presence[node]];
    hide Op.Approve, Op.ApproveError, Op.ApprovedMember;
  }

  // ---------- Bindings added by hand ----------

  /** The binding is stored enabled, with defaults for what it leaves open and without its endpoint, which goes into
      the table of endpoints if it is complete. */
  lemma AddedBinding(s: State, b: Binding, now: string)
    ensures var t := Op.AddBinding(s, b, now);
            && t == s.(bindings := t.bindings, endpoints := t.endpoints)
            && t.bindings == s.bindings[b.id :=
                 Binding(b.id, b.domainID, b.auto, b.serverNode, b.serverIface, b.clientNode, b.clientIface, b.peerKey,
                         if b.configType != "" then b.configType else "openwrt_uci", b.configPath,
                         if b.reloadMethod != "" then b.reloadMethod else "none", "", 0, true)]
            && t.endpoints == if b.endpointHost != "" && b.endpointPort > 0
                              then s.endpoints[b.id := Endpoint(b.endpointHost, b.endpointPort, now)]
                              else s.endpoints
  {
  }

  // ---------- Inventories ----------

  /** Item `i` is the last of its name. */
  predicate LastNamed(items: seq<WGInterface>, i: nat) {
    i < |items| && items[i].name != "" && forall j :: i < j < |items| ==> items[j].name != items[i].name
  }

  function RowKey(node: string, item: WGInterface): string {
    node + "/" + item.name
  }

  predicate ReportedAt(node: string, items: seq<WGInterface>, k: string, i: nat) {
    LastNamed(items, i) && RowKey(node, items[i]) == k
  }

  predicate ReportedKey(node: string, items: seq<WGInterface>, k: string) {
    exists i :: 0 <= i < |items| && ReportedAt(node, items, k, i)
  }

  function OtherRows(rows: map<string, WGInterface>, node: string): map<string, WGInterface> {
    map k | k in rows && rows[k].nodeID != node :: rows[k]
  }

  /** A report leaves the last row of each name, as the node's, and the other rows as they were. */
  predicate RowsPut(others: map<string, WGInterface>, node: string, items: seq<WGInterface>, now: string,
                    rows: map<string, WGInterface>) {
    && (forall i :: 0 <= i < |items| && LastNamed(items, i) ==>
          RowKey(node, items[i]) in rows &&
          rows[RowKey(node, items[i])] == items[i].(nodeID := node, updatedAt := now))
    && (forall k :: k in rows && !ReportedKey(node, items, k) ==> k in others && rows[k] == others[k])
    && (forall k :: k in others && !ReportedKey(node, items, k) ==> k in rows)
  }

  lemma SameName(node: string, a: WGInterface, b: WGInterface)
    ensures RowKey(node, a) == RowKey(node, b) <==> a.name == b.name
  {
    var n := |node| + 1;
    assert RowKey(node, a)[n..] == a.name && RowKey(node, b)[n..] == b.name;
  }

  lemma ReportedMore(node: string, init: seq<WGInterface>, last: WGInterface, k: string)
    ensures ReportedKey(node, init + [last], k) <==>
            (last.name != "" && RowKey(node, last) == k) || ReportedKey(node, init, k)
  {
    hide RowKey;
    var items := init + [last];
    var n := |init|;
    assert items[n] == last && LastNamed(items, n) == (last.name != "");
    if ReportedKey(node, items, k) {
      var i :| 0 <= i < |items| && ReportedAt(node, items, k, i);
      if i < n {
        assert items[i] == init[i];
        assert LastNamed(init, i) by {
          assert forall j :: i < j < n ==> init[j] == items[j];
        }
        assert ReportedAt(node, init, k, i);
      }
    }
    if last.name != "" && RowKey(node, last) == k {
      assert ReportedAt(node, items, k, n);
    } else if ReportedKey(node, init, k) {
      var i :| 0 <= i < |init| && ReportedAt(node, init, k, i);
      SameName(node, init[i], last);
      assert items[i] == init[i];
      assert forall j :: i < j < |items| ==> items[j] == if j < n then init[j] else last;
      assert ReportedAt(node, items, k, i);
    }
  }

  lemma {:induction false} PutRowsAre(others: map<string, WGInterface>, node: string, items: seq<WGInterface>,
                                      now: string)
    ensures RowsPut(others, node, items, now, Op.PutRows(others, node, items, now))
  {
    if items != [] {
      var init, last := items[..|items| - 1], items[|items| - 1];
      PutRowsAre(others, node, init, now);
      assert init + [last] == items;
      PutOne(others, node, init, last, now, Op.PutRows(others, node, init, now));
    }
  }

  lemma PutOne(others: map<string, WGInterface>, node: string, init: seq<WGInterface>, last: WGInterface, now: string,
               rows: map<string, WGInterface>)
    requires RowsPut(others, node, init, now, rows)
    ensures var more := if last.name == "" then rows
                        else rows[RowKey(node, last) := last.(nodeID := node, updatedAt := now)];
            RowsPut(others, node, init + [last], now, more)
  {
    hide RowKey, ReportedKey;
    var items := init + [last];
    forall i | 0 <= i < |init| && LastNamed(items, i) ensures LastNamed(init, i) && items[i] == init[i] {
      assert forall j :: i < j < |init| ==> init[j] == items[j];
    }
    forall i | 0 <= i < |init| && LastNamed(items, i) ensures RowKey(node, items[i]) != RowKey(node, last) {
      assert items[|init|] == last;
      SameName(node, items[i], last);
    }
    forall k
      ensures ReportedKey(node, items, k) <==>
              (last.name != "" && RowKey(node, last) == k) || ReportedKey(node, init, k)
    {
      ReportedMore(node, init, last, k);
    }
  }

  /** A report that is not empty replaces the node's rows by the reported ones. */
  lemma InventoryReplaces(s: State, node: string, items: seq<WGInterface>, now: string)
    requires node != "" && items != []
    ensures var t := Op.UpdateInventory(s, node, items, now);
            && t == s.(inventory := t.inventory)
            && RowsPut(OtherRows(s.inventory, node), node, items, now, t.inventory)
  {
    PutRowsAre(Op.RowsWithout(s.inventory, node), node, items, now);
  }

  // ---------- Migration ----------

  /** The node's record is of an older file and says what it is in which domain. */
  predicate Configured(n: Node) {
    n.legacy.domainID != "" && n.legacy.iface != "" && n.legacy.role != ""
  }

  /** The membership such a record stands for. */
  predicate StandsFor(n: Node, k: string, m: DomainMember) {
    && Configured(n) && k == n.legacy.domainID + "/" + n.id
    && m.domainID == n.legacy.domainID && m.nodeID == n.id && m.role == n.legacy.role
    && m.nodeType == n.legacy.nodeType && m.iface == n.legacy.iface && m.natter == n.legacy.natter
    && m.configType == Default(n.legacy.nodeType, n.legacy.configType, "openwrt_uci", "wg_conf")
    && m.reloadMethod == Default(n.legacy.nodeType, n.legacy.reloadMethod, "ifup", "wg-quick-restart")
    && m.updatedAt == n.presence.lastSeenAt
  }

  /** Opening keeps the memberships of the file and adds one for each configured node that has none. */
  lemma OpenedMembers(d: Disk.DataFile, r: Disk.RuntimeFile, now: string, s: State)
    requires Disk.Opened(d, r, now, s)
    ensures forall k :: k in d.members ==> k in s.members && s.members[k] == d.members[k]
    ensures forall k :: k in s.members && k !in d.members ==>
              exists n :: n in d.nodes && StandsFor(d.nodes[n], k, s.members[k])
    ensures forall n :: n in d.nodes && Configured(d.nodes[n]) ==>
              d.nodes[n].legacy.domainID + "/" + d.nodes[n].id in s.members
  {
    forall k | k in s.members && k !in d.members
      ensures exists n :: n in d.nodes && StandsFor(d.nodes[n], k, s.members[k])
    {
      var n :| Disk.FromLegacy(d.nodes, n, k, s.members[k]);
      LegacyStandsFor(d.nodes[n]);
    }
    forall n | n in d.nodes && Configured(d.nodes[n])
      ensures d.nodes[n].legacy.domainID + "/" + d.nodes[n].id in s.members
    {
      assert Disk.LegacyKey(d.nodes[n]) in s.members;
    }
  }

  lemma LegacyStandsFor(n: Node)
    requires Disk.HasLegacyMembership(n)
    ensures StandsFor(n, Disk.LegacyKey(n), Disk.LegacyMember(n))
  {
  }

  /** Of a node record, what is not the node's identity moves out: its presence, if it has one. */
  predicate NodeMoved(n: Node, known: Option<Presence>, after: Node, presence: Option<Presence>) {
    && after == Node(n.id, n.name, n.token, n.approved, NO_LEGACY, UNSEEN)
    && presence == if n.presence == UNSEEN then known
                   else Some(Presence(if n.presence.status != "" then n.presence.status else "offline",
                                      n.presence.platform, n.presence.agentVersion, n.presence.lastSeenAt))
  }

  function At<V>(table: map<string, V>, k: string): Option<V> {
    if k in table then Some(table[k]) else None
  }

  lemma OpenedNodes(d: Disk.DataFile, r: Disk.RuntimeFile, now: string, s: State)
    requires Disk.Opened(d, r, now, s)
    ensures s.nodes.Keys == d.nodes.Keys
    ensures forall k :: k in d.nodes ==> NodeMoved(d.nodes[k], At(r.presence, k), s.nodes[k], At(s.presence, k))
    ensures forall k :: k !in d.nodes ==> At(s.presence, k) == At(r.presence, k)
  {
    hide Disk.MigratedMembers, Disk.MigratedBindings, Disk.MigratedEndpoints;
  }

  /** Of a binding record, a complete inline endpoint moves out. */
  predicate BindingMoved(b: Binding, known: Option<Endpoint>, now: string, after: Binding, endpoint: Option<Endpoint>) {
    if b.endpointHost != "" && b.endpointPort > 0 then
      && after == b.(endpointHost := "", endpointPort := 0)
      && endpoint == Some(Endpoint(b.endpointHost, b.endpointPort, now))
    else after == b && endpoint == known
  }

  lemma OpenedBindings(d: Disk.DataFile, r: Disk.RuntimeFile, now: string, s: State)
    requires Disk.Opened(d, r, now, s)
    ensures s.bindings.Keys == d.bindings.Keys
    ensures forall k :: k in d.bindings ==>
              BindingMoved(d.bindings[k], At(r.endpoints, k), now, s.bindings[k], At(s.endpoints, k))
    ensures forall k :: k !in d.bindings ==> At(s.endpoints, k) == At(r.endpoints, k)
  {
    hide Disk.MigratedMembers, Disk.MigratedPresence, Disk.ClearedNodes;
  }

  /** Rows and queues an older file still holds win over the runtime file's, and its leases if it has any. */
  lemma OpenedRuntime(d: Disk.DataFile, r: Disk.RuntimeFile, now: string, s: State)
    requires Disk.Opened(d, r, now, s)
    ensures forall k ::
              At(s.inventory, k) == if k in d.legacyInventory then Some(d.legacyInventory[k]) else At(r.inventory, k)
    ensures forall k ::
              At(s.commands, k) == if k in d.legacyCommands then Some(d.legacyCommands[k]) else At(r.commands, k)
    ensures s.leases == if |d.legacyLeases| > 0 then d.legacyLeases else r.leases
    ensures s.domains == d.domains && s.pendingDomain == r.pendingDomain
  {
    hide Disk.MigratedMembers, Disk.MigratedPresence, Disk.MigratedBindings, Disk.MigratedEndpoints, Disk.ClearedNodes;
  }
}
