/** Runs of the control plane: every interleaving of store operations, from the empty store. */
module Runs {
  import opened Model
  import Names
  import Op = Operations
  import Rec = Reconciler
  import CommandQueue

  datatype Step =
    | CreateNode(id: string, name: string, token: string)
    | MarkSeen(node: string, meta: Option<Op.Meta>, now: string)
    | CreateDomain(id: string, name: string, joinCode: string, description: string, now: string)
    | Join(domain: string, node: string, name: string, token: string, meta: Option<Op.Meta>, now: string)
    | Register(node: string, name: string, token: string, meta: Option<Op.Meta>, now: string)
    | Approve(node: string, approval: Op.Approval, single: string, now: string)
    | AddBinding(b: Binding, now: string)
    | Delete(node: string)
    | Inventory(node: string, items: seq<WGInterface>, now: string)
    | Reconcile(order: seq<Binding>)
    | RunNatter(node: string, cmd: Command, now: string)
    | Next(node: string)
    | Complete(node: string, id: string, result: string)
    | SaveLease(node: string, lease: Lease, matched: seq<Binding>, now: string)
    | Tell(node: string, b: Binding, lease: Lease, id: string, now: string)

  function Do(s: State, step: Step): State {
    match step
    case CreateNode(id, name, token) => Op.CreateNode(s, id, name, token)
    case MarkSeen(node, meta, now) => Op.MarkSeen(s, node, meta, now)
    case CreateDomain(id, name, code, description, now) => Op.CreateDomain(s, id, name, code, description, now)
    case Join(domain, node, name, token, meta, now) => Op.Join(s, domain, node, name, token, meta, now)
    case Register(node, name, token, meta, now) => Op.Register(s, node, name, token, meta, now)
    case Approve(node, approval, single, now) => Op.Approve(s, node, approval, single, now)
    case AddBinding(b, now) => Op.AddBinding(s, b, now)
    case Delete(node) => Op.DeleteNode(s, node)
    case Inventory(node, items, now) => Op.UpdateInventory(s, node, items, now)
    case Reconcile(order) => Rec.Reconcile(s, order)
    case RunNatter(node, cmd, now) => Op.Queue(s, node, cmd, now)
    case Next(node) => Op.Deliver(s, node)
    case Complete(node, id, result) => Op.Complete(s, node, id, result)
    case SaveLease(node, lease, matched, now) => Op.SaveLease(s, node, lease, now)
    case Tell(node, b, lease, id, now) => Op.Queue(s, b.clientNode, Op.ApplyCommand(id, b, lease), now)
  }

  /** What the program itself guarantees of a step's data: the choices an iteration order can make,
      that only natter.run is queued outside a fan-out, and that bindings added by hand are not automatic. */
  ghost predicate Possible(s: State, step: Step) {
    match step
    case Approve(node, approval, single, now) => Op.SingleDomain(s, node, single)
    case AddBinding(b, now) => !b.auto
    case Reconcile(order) => Rec.Enumerates(order, s)
    case RunNatter(node, cmd, now) => cmd.NatterRun?
    case SaveLease(node, lease, matched, now) => Op.Matches(s.bindings, node, lease, matched)
    case _ => true
  }

  function Exec(s: State, steps: seq<Step>): State {
    if steps == [] then s else Do(Exec(s, steps[..|steps| - 1]), steps[|steps| - 1])
  }

  ghost predicate IsRun(s: State, steps: seq<Step>) {
    steps != [] ==>
      IsRun(s, steps[..|steps| - 1]) && Possible(Exec(s, steps[..|steps| - 1]), steps[|steps| - 1])
  }

  lemma ExecSnoc(s: State, init: seq<Step>, last: Step)
    ensures Exec(s, init + [last]) == Do(Exec(s, init), last)
    ensures IsRun(s, init + [last]) <==> IsRun(s, init) && Possible(Exec(s, init), last)
  {
    hide Do, Possible;
    assert (init + [last])[..|init|] == init;
  }

  lemma OneStep(s: State, a: Step)
    ensures Exec(s, [a]) == Do(s, a)
    ensures IsRun(s, [a]) <==> Possible(s, a)
  {
    hide Do, Possible;
    assert [a][..0] == [];
  }

  lemma TwoSteps(s: State, a: Step, b: Step)
    ensures Exec(s, [a, b]) == Do(Do(s, a), b)
    ensures IsRun(s, [a, b]) <==> Possible(s, a) && Possible(Do(s, a), b)
  {
    hide Do, Possible;
    OneStep(s, a);
    assert [a, b][..1] == [a];
  }

  lemma ThreeSteps(s: State, a: Step, b: Step, c: Step)
    ensures Exec(s, [a, b, c]) == Do(Do(Do(s, a), b), c)
    ensures IsRun(s, [a, b, c]) <==>
            Possible(s, a) && Possible(Do(s, a), b) && Possible(Do(Do(s, a), b), c)
  {
    hide Do, Possible;
    TwoSteps(s, a, b);
    assert [a, b, c][..2] == [a, b];
  }

  lemma {:induction false} ExecConcat(s: State, a: seq<Step>, b: seq<Step>)
    ensures Exec(s, a + b) == Exec(Exec(s, a), b)
    ensures IsRun(s, a + b) <==> IsRun(s, a) && IsRun(Exec(s, a), b)
  {
    if b == [] {
      assert a + b == a;
    } else {
      assert (a + b)[..|a + b| - 1] == a + b[..|b| - 1];
      hide Do, Possible;
      ExecConcat(s, a, b[..|b| - 1]);
    }
  }

  // ---------- Referential integrity ----------

  /** Nodes sit under their own id and carry no legacy configuration or presence. */
  predicate SoundNodes(nodes: map<string, Node>) {
    forall k :: k in nodes ==> nodes[k].id == k && nodes[k].legacy == NO_LEGACY && nodes[k].presence == UNSEEN
  }

  predicate SoundDomains(domains: map<string, Domain>, pending: map<string, string>) {
    "" !in domains && forall k :: k in pending ==> pending[k] in domains
  }

  /** Each membership sits under its own key, in an existing domain, for an existing approved node,
      with a role and an interface. */
  predicate SoundMember(nodes: map<string, Node>, domains: map<string, Domain>, k: string, m: DomainMember) {
    && k == Names.MemberKey(m.domainID, m.nodeID)
    && m.domainID in domains
    && m.nodeID in nodes && nodes[m.nodeID].approved
    && m.role != "" && m.iface != ""
  }

  predicate SoundMembers(nodes: map<string, Node>, domains: map<string, Domain>, members: map<string, DomainMember>) {
    forall k :: k in members ==> SoundMember(nodes, domains, k, members[k])
  }

  predicate SoundRow(k: string, row: WGInterface) {
    k == Names.InterfaceKey(row.nodeID, row.name) && row.nodeID != "" && row.name != ""
  }

  predicate SoundRows(rows: map<string, WGInterface>) {
    forall k :: k in rows ==> SoundRow(k, rows[k])
  }

  predicate SoundBindings(bindings: map<string, Binding>) {
    && Rec.KeyedTable(bindings)
    && (forall k :: k in bindings ==> bindings[k].enabled && ClearEndpoint(bindings[k]) == bindings[k])
  }

  predicate Sound(s: State) {
    && SoundNodes(s.nodes)
    && SoundDomains(s.domains, s.pendingDomain)
    && SoundMembers(s.nodes, s.domains, s.members)
    && SoundRows(s.inventory)
    && SoundBindings(s.bindings)
    && s.endpoints.Keys <= s.bindings.Keys
  }

  lemma ApprovedMemberIsSound(s: State, node: string, a: Op.Approval, single: string, now: string)
    requires Op.ApproveError(s, node, a, single).None?
    ensures var domain := Op.ApprovalDomain(s, node, a, single);
            var m := Op.ApprovedMember(s, node, a, domain, now);
            m.domainID == domain && m.nodeID == node && m.role != "" && m.iface != "" &&
            domain in s.domains && node in s.nodes
  {
  }

  /** Growing the domains and never withdrawing an approval keeps memberships sound. */
  lemma SoundMembersFrame(nodes: map<string, Node>, domains: map<string, Domain>, members: map<string, DomainMember>,
                          nodes': map<string, Node>, domains': map<string, Domain>)
    requires SoundMembers(nodes, domains, members) && domains.Keys <= domains'.Keys
    requires forall k :: k in nodes && nodes[k].approved ==> k in nodes' && nodes'[k].approved
    ensures SoundMembers(nodes', domains', members)
  {
    forall k | k in members ensures SoundMember(nodes', domains', k, members[k]) {
      assert SoundMember(nodes, domains, k, members[k]);
    }
  }

  lemma ApproveFrame(s: State, node: string, a: Op.Approval, single: string, now: string)
    requires Op.ApproveError(s, node, a, single).None?
    ensures var t := Op.Approve(s, node, a, single, now);
            var domain := Op.ApprovalDomain(s, node, a, single);
            && t == s.(members := t.members, nodes := t.nodes, pendingDomain := t.pendingDomain, presence := t.presence)
            && t.members == s.members[Names.MemberKey(domain, node) := Op.ApprovedMember(s, node, a, domain, now)]
            && t.pendingDomain == s.pendingDomain - {node}
            && node in s.nodes
            && (forall k :: k in t.nodes <==> k in s.nodes)
            && (forall k :: k in s.nodes && k != node ==> t.nodes[k] == s.nodes[k])
            && t.nodes[node].id == s.nodes[node].id && t.nodes[node].approved
            && t.nodes[node].legacy == NO_LEGACY && t.nodes[node].presence == UNSEEN
  {
  }

  lemma SoundApprovedNodes(s: State, node: string, a: Op.Approval, single: string, now: string)
    requires SoundNodes(s.nodes)
    requires Op.ApproveError(s, node, a, single).None?
    ensures SoundNodes(Op.Approve(s, node, a, single, now).nodes)
  {
    ApproveFrame(s, node, a, single, now);
    hide Op.Approve, Op.ApprovedMember, Op.ApproveError;
  }

  lemma SoundApprovedMembers(s: State, node: string, a: Op.Approval, single: string, now: string)
    requires SoundMembers(s.nodes, s.domains, s.members)
    requires Op.ApproveError(s, node, a, single).None?
    ensures var t := Op.Approve(s, node, a, single, now);
            SoundMembers(t.nodes, t.domains, t.members)
  {
    ApproveFrame(s, node, a, single, now);
    ApprovedMemberIsSound(s, node, a, single, now);
    hide Op.Approve, Op.ApprovedMember, Op.ApproveError, Op.ApprovalDomain, Names.MemberKey;
    var t := Op.Approve(s, node, a, single, now);
    SoundMembersFrame(s.nodes, s.domains, s.members, t.nodes, t.domains);
  }

  lemma SoundApprove(s: State, node: string, a: Op.Approval, single: string, now: string)
    requires Sound(s)
    ensures Sound(Op.Approve(s, node, a, single, now))
  {
    if Op.ApproveError(s, node, a, single).None? {
      ApproveFrame(s, node, a, single, now);
      SoundApprovedNodes(s, node, a, single, now);
      SoundApprovedMembers(s, node, a, single, now);
      hide Op.Approve, Op.ApprovedMember, Op.ApproveError, SoundMembers, SoundNodes, SoundBindings, SoundRows;
      assert Sound(Op.Approve(s, node, a, single, now));
    }
  }

  lemma {:induction false} SoundPutRows(rows: map<string, WGInterface>, node: string, items: seq<WGInterface>,
                                        now: string)
    requires node != "" && SoundRows(rows)
    ensures SoundRows(Op.PutRows(rows, node, items, now))
  {
    if items != [] {
      var rest, item := items[..|items| - 1], items[|items| - 1];
      SoundPutRows(rows, node, rest, now);
      if item.name != "" {
        assert SoundRow(Names.InterfaceKey(node, item.name), item.(nodeID := node, updatedAt := now));
      }
    }
  }

  lemma InventoryFrame(s: State, node: string, items: seq<WGInterface>, now: string)
    requires SoundRows(s.inventory)
    ensures var t := Op.UpdateInventory(s, node, items, now);
            t == s.(inventory := t.inventory) && SoundRows(t.inventory)
  {
    if node != "" && items != [] {
      SoundPutRows(Op.RowsWithout(s.inventory, node), node, items, now);
    }
  }

  lemma SoundInventory(s: State, node: string, items: seq<WGInterface>, now: string)
    requires Sound(s)
    ensures Sound(Op.UpdateInventory(s, node, items, now))
  {
    hide SoundMembers, SoundNodes, SoundBindings, SoundDomains;
    InventoryFrame(s, node, items, now);
    hide Op.UpdateInventory, SoundRows;
  }

  lemma ReconcileFrame(s: State, order: seq<Binding>)
    requires SoundBindings(s.bindings) && s.endpoints.Keys <= s.bindings.Keys && Rec.Enumerates(order, s)
    ensures var t := Rec.Reconcile(s, order);
            t == s.(bindings := t.bindings, endpoints := t.endpoints) && SoundBindings(t.bindings) &&
            t.endpoints.Keys <= t.bindings.Keys
  {
    Rec.DesiredIsDerived(s);
    Rec.ReconcileKeepsKeyed(s, order);
    Rec.PlaceAllFrame(s.bindings, order);
    assert forall d :: d in order ==> d in Rec.Elements(order);
  }

  lemma SoundReconcile(s: State, order: seq<Binding>)
    requires Sound(s) && Rec.Enumerates(order, s)
    ensures Sound(Rec.Reconcile(s, order))
  {
    hide SoundMembers, SoundNodes, SoundRows, SoundDomains;
    ReconcileFrame(s, order);
    hide Rec.Reconcile, Rec.Enumerates, SoundBindings;
  }

  lemma DeleteFrame(s: State, node: string)
    requires node != "" && node in s.nodes
    ensures var t := Op.DeleteNode(s, node);
            && t.domains == s.domains && t.pendingDomain == s.pendingDomain
            && t.nodes == s.nodes - {node} && t.commands == s.commands - {node} && t.presence == s.presence - {node}
            && (forall k :: k in t.members <==> k in s.members && s.members[k].nodeID != node)
            && (forall k :: k in t.members ==> t.members[k] == s.members[k])
            && (forall k :: k in t.inventory <==> k in s.inventory && s.inventory[k].nodeID != node)
            && (forall k :: k in t.inventory ==> t.inventory[k] == s.inventory[k])
            && (forall k :: k in t.bindings <==> k in s.bindings && !Op.Touches(s.bindings[k], node))
            && (forall k :: k in t.bindings ==> t.bindings[k] == s.bindings[k])
            && (forall k :: k in t.endpoints <==>
                  k in s.endpoints && !(k in s.bindings && Op.Touches(s.bindings[k], node)))
            && (forall k :: k in t.endpoints ==> t.endpoints[k] == s.endpoints[k])
            && t.leases == Op.LeasesWithout(s.leases, node)
  {
  }

  lemma SoundDeleteMembers(s: State, node: string)
    requires SoundMembers(s.nodes, s.domains, s.members) && node != "" && node in s.nodes
    ensures var t := Op.DeleteNode(s, node);
            SoundMembers(t.nodes, t.domains, t.members)
  {
    DeleteFrame(s, node);
    hide Op.DeleteNode;
    var t := Op.DeleteNode(s, node);
    forall k | k in t.members ensures SoundMember(t.nodes, t.domains, k, t.members[k]) {
      assert SoundMember(s.nodes, s.domains, k, s.members[k]);
    }
  }

  lemma SoundDelete(s: State, node: string)
    requires Sound(s)
    ensures Sound(Op.DeleteNode(s, node))
  {
    if node != "" && node in s.nodes {
      DeleteFrame(s, node);
      SoundDeleteMembers(s, node);
      hide Op.DeleteNode, SoundMembers, SoundDomains;
      assert Sound(Op.DeleteNode(s, node));
    }
  }

  lemma AddBindingFrame(s: State, b: Binding, now: string)
    ensures var t := Op.AddBinding(s, b, now);
            && t == s.(bindings := t.bindings, endpoints := t.endpoints)
            && (forall k :: k in t.bindings <==> k in s.bindings || k == b.id)
            && (forall k :: k in s.bindings && k != b.id ==> t.bindings[k] == s.bindings[k])
            && t.bindings[b.id].id == b.id && t.bindings[b.id].auto == b.auto && t.bindings[b.id].enabled
            && ClearEndpoint(t.bindings[b.id]) == t.bindings[b.id]
            && (forall k :: k in t.endpoints && k != b.id ==> k in s.endpoints && t.endpoints[k] == s.endpoints[k])
            && s.endpoints.Keys <= t.endpoints.Keys
            && (!Op.GivesEndpoint(b) ==> t.endpoints == s.endpoints)
  {
  }

  lemma SoundWithManual(bindings: map<string, Binding>, after: map<string, Binding>, id: string)
    requires SoundBindings(bindings) && after.Keys == bindings.Keys + {id}
    requires forall k :: k in bindings && k != id ==> after[k] == bindings[k]
    requires after[id].id == id && !after[id].auto && after[id].enabled && ClearEndpoint(after[id]) == after[id]
    ensures SoundBindings(after)
  {
    hide ClearEndpoint;
  }

  lemma SoundAddBinding(s: State, b: Binding, now: string)
    requires Sound(s) && !b.auto
    ensures Sound(Op.AddBinding(s, b, now))
  {
    hide SoundMembers, SoundNodes, SoundRows, SoundDomains, SoundBindings;
    AddBindingFrame(s, b, now);
    SoundWithManual(s.bindings, Op.AddBinding(s, b, now).bindings, b.id);
    hide Op.AddBinding;
    AddedEndpoints(s, b, now);
  }

  lemma AddedEndpoints(s: State, b: Binding, now: string)
    requires s.endpoints.Keys <= s.bindings.Keys
    ensures var t := Op.AddBinding(s, b, now); t.endpoints.Keys <= t.bindings.Keys
  {
    hide DefaultBindingFields, ClearEndpoint;
  }

  lemma SaveLeaseFrame(s: State, node: string, lease: Lease, now: string)
    ensures var t := Op.SaveLease(s, node, lease, now);
            && t == s.(leases := t.leases, endpoints := t.endpoints)
            && t.leases == s.leases + [lease.(serverNode := node, createdAt := now)]
            && (forall k :: k in t.endpoints <==> k in s.endpoints || Op.Serves(s.bindings, k, node, lease.serverIface))
            && (forall k :: k in t.endpoints ==>
                  t.endpoints[k] == if Op.Serves(s.bindings, k, node, lease.serverIface)
                                    then Endpoint(lease.publicIP, lease.publicPort, now) else s.endpoints[k])
  {
  }

  lemma SoundSaveLease(s: State, node: string, lease: Lease, now: string)
    requires Sound(s)
    ensures Sound(Op.SaveLease(s, node, lease, now))
  {
    hide SoundMembers, SoundNodes, SoundBindings, SoundRows, SoundDomains;
    SaveLeaseFrame(s, node, lease, now);
    hide Op.SaveLease;
  }

  lemma NodesIdentity(nodes: map<string, Node>, node: string, name: string, token: string)
    requires SoundNodes(nodes)
    ensures var t := Op.JoinedNodes(nodes, node, name, token);
            SoundNodes(t) && forall k :: k in nodes && nodes[k].approved ==> k in t && t[k].approved
    ensures var t := Op.RegisteredNodes(nodes, node, name, token);
            SoundNodes(t) && forall k :: k in nodes && nodes[k].approved ==> k in t && t[k].approved
  {
  }

  /** A step about identities: it adds nodes or domains and never withdraws an approval. */
  predicate IdentityFrame(s: State, t: State) {
    && t == s.(nodes := t.nodes, domains := t.domains, presence := t.presence, pendingDomain := t.pendingDomain)
    && s.domains.Keys <= t.domains.Keys
    && (forall k :: k in s.nodes && s.nodes[k].approved ==> k in t.nodes && t.nodes[k].approved)
    && SoundNodes(t.nodes) && SoundDomains(t.domains, t.pendingDomain)
  }

  lemma JoinFrame(s: State, domain: string, node: string, name: string, token: string, meta: Option<Op.Meta>,
                  now: string)
    requires SoundNodes(s.nodes) && SoundDomains(s.domains, s.pendingDomain)
    ensures IdentityFrame(s, Op.Join(s, domain, node, name, token, meta, now))
  {
    NodesIdentity(s.nodes, node, name, token);
    hide Op.JoinedNodes, SoundNodes, Op.PendingPresence;
  }

  lemma RegisterFrame(s: State, node: string, name: string, token: string, meta: Option<Op.Meta>, now: string)
    requires SoundNodes(s.nodes) && SoundDomains(s.domains, s.pendingDomain)
    ensures IdentityFrame(s, Op.Register(s, node, name, token, meta, now))
  {
    NodesIdentity(s.nodes, node, name, token);
    hide Op.RegisteredNodes, SoundNodes, SoundDomains, Op.PendingPresence, Op.IdentityError;
  }

  lemma CreateNodeFrame(s: State, id: string, name: string, token: string)
    requires SoundNodes(s.nodes) && SoundDomains(s.domains, s.pendingDomain)
    ensures IdentityFrame(s, Op.CreateNode(s, id, name, token))
  {
    hide SoundDomains;
  }

  lemma CreateDomainFrame(s: State, id: string, name: string, code: string, description: string, now: string)
    requires SoundNodes(s.nodes) && SoundDomains(s.domains, s.pendingDomain)
    ensures IdentityFrame(s, Op.CreateDomain(s, id, name, code, description, now))
  {
    if Op.CreateDomainError(s, id).None? {
      hide SoundNodes;
      assert IdentityFrame(s, Op.CreateDomain(s, id, name, code, description, now));
    }
  }

  lemma IdentityStepFrame(s: State, step: Step)
    requires SoundNodes(s.nodes) && SoundDomains(s.domains, s.pendingDomain)
    requires step.CreateNode? || step.CreateDomain? || step.Join? || step.Register?
    ensures IdentityFrame(s, Do(s, step))
  {
    hide IdentityFrame, SoundNodes, SoundDomains;
    match step
    case Join(domain, node, name, token, meta, now) => JoinFrame(s, domain, node, name, token, meta, now);
    case Register(node, name, token, meta, now) => RegisterFrame(s, node, name, token, meta, now);
    case CreateNode(id, name, token) => CreateNodeFrame(s, id, name, token);
    case CreateDomain(id, name, code, description, now) => CreateDomainFrame(s, id, name, code, description, now);
  }

  lemma SoundIdentityStep(s: State, t: State)
    requires Sound(s) && IdentityFrame(s, t)
    ensures Sound(t)
  {
    hide SoundMembers, SoundNodes, SoundBindings, SoundRows, SoundDomains;
    SoundMembersFrame(s.nodes, s.domains, s.members, t.nodes, t.domains);
  }

  /** Presence and queues carry no invariant of their own. */
  lemma SoundElsewhere(s: State, t: State)
    requires Sound(s) && t == s.(presence := t.presence, commands := t.commands)
    ensures Sound(t)
  {
    hide SoundMembers, SoundNodes, SoundBindings, SoundRows, SoundDomains;
  }

  /** Steps that touch none of memberships, bindings, endpoints and leases. */
  predicate IsQuiet(step: Step) {
    !(step.Approve? || step.Delete? || step.AddBinding? || step.Reconcile? || step.SaveLease?)
  }

  lemma QuietFrame(s: State, step: Step)
    requires IsQuiet(step) && Sound(s)
    ensures var t := Do(s, step);
            t.members == s.members && t.bindings == s.bindings && t.endpoints == s.endpoints && t.leases == s.leases
  {
    hide SoundNodes, SoundMembers, SoundBindings, SoundRows, SoundDomains;
    match step
    case Inventory(node, items, now) => InventoryFrame(s, node, items, now);
    case MarkSeen(node, meta, now) =>
    case RunNatter(node, cmd, now) =>
    case Tell(node, b, lease, id, now) =>
    case Next(node) =>
    case Complete(node, id, result) =>
    case _ => IdentityStepFrame(s, step);
  }

  lemma SoundStep(s: State, step: Step)
    requires Sound(s) && Possible(s, step)
    ensures Sound(Do(s, step))
  {
    match step
    case Approve(node, approval, single, now) => SoundApprove(s, node, approval, single, now);
    case AddBinding(b, now) => SoundAddBinding(s, b, now);
    case Delete(node) => SoundDelete(s, node);
    case Inventory(node, items, now) => SoundInventory(s, node, items, now);
    case Reconcile(order) => SoundReconcile(s, order);
    case SaveLease(node, lease, matched, now) => SoundSaveLease(s, node, lease, now);
    case MarkSeen(node, meta, now) => SoundElsewhere(s, Do(s, step));
    case RunNatter(node, cmd, now) => SoundElsewhere(s, Do(s, step));
    case Tell(node, b, lease, id, now) => SoundElsewhere(s, Do(s, step));
    case Next(node) => SoundElsewhere(s, Do(s, step));
    case Complete(node, id, result) => SoundElsewhere(s, Do(s, step));
    case _ =>
      IdentityStepFrame(s, step);
      SoundIdentityStep(s, Do(s, step));
  }

  /** Referential integrity in every reachable state, between any two store operations. */
  lemma {:induction false} ReachableIsSound(steps: seq<Step>)
    requires IsRun(EMPTY, steps)
    ensures Sound(Exec(EMPTY, steps))
  {
    if steps != [] {
      ReachableIsSound(steps[..|steps| - 1]);
      SoundStep(Exec(EMPTY, steps[..|steps| - 1]), steps[|steps| - 1]);
    }
  }

  // ---------- What deletion leaves behind ----------

  predicate FreeOf(leases: seq<Lease>, node: string) {
    forall i :: 0 <= i < |leases| ==> leases[i].serverNode != node
  }

  /** `at` lists, in order, the positions of the leases that are not the node's, and `kept` the leases there. */
  ghost predicate KeptAt(leases: seq<Lease>, node: string, kept: seq<Lease>, at: seq<nat>) {
    && |at| == |kept|
    && (forall i, j :: 0 <= i < j < |at| ==> at[i] < at[j])
    && (forall i :: 0 <= i < |at| ==> at[i] < |leases| && leases[at[i]] == kept[i])
    && (forall i :: 0 <= i < |leases| ==> (leases[i].serverNode != node <==> i in at))
  }

  lemma KeptMore(leases: seq<Lease>, node: string, kept: seq<Lease>, at: seq<nat>, last: Lease)
    requires KeptAt(leases, node, kept, at)
    ensures if last.serverNode != node then KeptAt(leases + [last], node, kept + [last], at + [|leases|])
            else KeptAt(leases + [last], node, kept, at)
  {
    var n := |leases|;
    assert forall i :: i in at + [n] <==> i in at || i == n;
  }

  /** The node's leases go, and all others stay in their order. */
  lemma {:induction false} LeasesOfOthers(leases: seq<Lease>, node: string) returns (at: seq<nat>)
    ensures KeptAt(leases, node, Op.LeasesWithout(leases, node), at)
    ensures FreeOf(Op.LeasesWithout(leases, node), node)
  {
    if leases == [] {
      at := [];
    } else {
      var init, last := leases[..|leases| - 1], leases[|leases| - 1];
      at := LeasesOfOthers(init, node);
      hide KeptAt;
      var kept := Op.LeasesWithout(init, node);
      KeptMore(init, node, kept, at, last);
      assert leases == init + [last];
      if last.serverNode != node {
        at := at + [|init|];
        assert forall i :: 0 <= i < |kept + [last]| ==> (kept + [last])[i] == if i < |kept| then kept[i] else last;
      } else {
        assert kept + [] == kept;
      }
    }
  }

  /** Nothing of `node` is in the tables. */
  predicate Gone(s: State, node: string) {
    && node !in s.nodes && node !in s.presence && node !in s.commands
    && (forall k :: k in s.members ==> s.members[k].nodeID != node)
    && (forall k :: k in s.inventory ==> s.inventory[k].nodeID != node)
    && (forall k :: k in s.bindings ==> !Op.Touches(s.bindings[k], node))
    && (forall k :: k in s.endpoints ==> k in s.bindings)
    && FreeOf(s.leases, node)
  }

  /** Everything that is not the node's is as it was. */
  predicate OthersKept(s: State, t: State, node: string) {
    && t.domains == s.domains && t.pendingDomain == s.pendingDomain
    && (forall k :: k in s.nodes && k != node ==> k in t.nodes && t.nodes[k] == s.nodes[k])
    && (forall k :: k in s.presence && k != node ==> k in t.presence && t.presence[k] == s.presence[k])
    && (forall k :: k in s.commands && k != node ==> k in t.commands && t.commands[k] == s.commands[k])
    && (forall k :: k in s.members && s.members[k].nodeID != node ==> k in t.members && t.members[k] == s.members[k])
    && (forall k :: k in s.inventory && s.inventory[k].nodeID != node ==>
          k in t.inventory && t.inventory[k] == s.inventory[k])
    && (forall k :: k in s.bindings && !Op.Touches(s.bindings[k], node) ==>
          k in t.bindings && t.bindings[k] == s.bindings[k])
    && (forall k :: k in s.endpoints && !(k in s.bindings && Op.Touches(s.bindings[k], node)) ==>
          k in t.endpoints && t.endpoints[k] == s.endpoints[k])
  }

  lemma DeletionKeepsOthers(s: State, node: string)
    requires node != "" && node in s.nodes
    ensures OthersKept(s, Op.DeleteNode(s, node), node)
  {
    DeleteFrame(s, node);
    hide Op.DeleteNode, Op.Touches;
  }

  lemma DeletionErases(s: State, node: string)
    requires Sound(s) && node != "" && node in s.nodes
    ensures Gone(Op.DeleteNode(s, node), node)
  {
    DeleteFrame(s, node);
    var at := LeasesOfOthers(s.leases, node);
    hide Op.DeleteNode, Op.Touches, SoundMembers, SoundNodes, SoundRows, SoundDomains, SoundBindings, KeptAt, FreeOf;
  }

  /** A deleted node leaves nothing behind except the domain it asked to join, nothing of other nodes is lost,
      and their leases keep their order. */
  lemma DeletionIsComplete(s: State, node: string) returns (at: seq<nat>)
    requires Sound(s) && node != "" && node in s.nodes
    ensures var t := Op.DeleteNode(s, node);
            Gone(t, node) && OthersKept(s, t, node) && KeptAt(s.leases, node, t.leases, at)
  {
    DeleteFrame(s, node);
    DeletionErases(s, node);
    DeletionKeepsOthers(s, node);
    at := LeasesOfOthers(s.leases, node);
    hide Op.DeleteNode, Gone, OthersKept, Sound, KeptAt, FreeOf;
  }

  /** So a deleted node that registers again is approved into the domain it once asked to join, even when
      the approval names none. */
  lemma DeletionKeepsPendingDomain(s: State, node: string, token: string, name: string, meta: Option<Op.Meta>,
                                   now: string,
                                   a: Op.Approval, single: string)
    requires Sound(s) && node != "" && node in s.nodes && token != "" && node in s.pendingDomain
    requires a.domainID == "" && a.role != "" && a.iface != ""
    ensures var t := Op.Register(Op.DeleteNode(s, node), node, name, token, meta, now);
            var u := Op.Approve(t, node, a, single, now);
            var key := Names.MemberKey(s.pendingDomain[node], node);
            && Op.ApproveError(t, node, a, single).None?
            && key in u.members && u.members[key].domainID == s.pendingDomain[node] && u.members[key].nodeID == node
            && u.members[key].role == a.role && u.members[key].iface == a.iface
            && u.nodes[node].approved && node !in u.pendingDomain
  {
    DeleteFrame(s, node);
    var t := RegisteredAgain(Op.DeleteNode(s, node), node, name, token, meta, now);
    hide Op.DeleteNode, Op.Register, Names.MemberKey, SoundNodes, SoundMembers, SoundRows, SoundBindings;
    assert Op.ApprovalDomain(t, node, a, single) == s.pendingDomain[node];
    assert Op.ApproveError(t, node, a, single).None?;
    ApproveFrame(t, node, a, single, now);
  }

  lemma RegisteredAgain(s: State, node: string, name: string, token: string, meta: Option<Op.Meta>, now: string)
    returns (t: State)
    requires node != "" && token != "" && node !in s.nodes
    ensures t == Op.Register(s, node, name, token, meta, now)
    ensures node in t.nodes && t.pendingDomain == s.pendingDomain && t.domains == s.domains && t.members == s.members
  {
    t := Op.Register(s, node, name, token, meta, now);
  }
}
