/** What each accepted request does to the tables, said of the records themselves: the requests' meaning, next to the
    store operations they are scripts of. */
module Requests {
  import opened Model
  import opened Runs
  import opened Handlers
  import opened Records
  import Op = Operations
  import Rec = Reconciler
  import Conv = Convergence
  import CommandQueue
  import ByHand
  import Identity
  import Links

  // ---------- Meanings ----------

  /** A report with rows replaces all rows of the node. */
  predicate Reported(s: State, node: string, items: seq<WGInterface>, now: string, t: State) {
    if items == [] then t.inventory == s.inventory
    else
      RowsPut(OtherRows(s.inventory, node), node, items, now, t.inventory)
  }

  /** A pass has run: bindings are as their links are, and endpoints go with their bindings. */
  ghost predicate Reconciled(s: State, t: State) {
    && Links.Passed(s, t)
    && forall k :: At(t.endpoints, k) == if k in t.bindings then At(s.endpoints, k) else None
  }

  predicate RegisterDoes(s: State, node: string, name: string, token: string, meta: Option<Op.Meta>,
                         items: seq<WGInterface>, now: string, t: State)
  {
    && t == s.(nodes := t.nodes, presence := t.presence, inventory := t.inventory)
    && Introduced(s, node, name, token, t) && Heard(s, node, "pending", meta, now, t)
    && (node in s.nodes ==> t.nodes[node].name == if s.nodes[node].name != "" then s.nodes[node].name else name)
    && Reported(s, node, items, now, t)
  }

  /** The node asks for a domain with the join code. */
  ghost predicate JoinDoes(s: State, code: string, node: string, name: string, token: string, meta: Option<Op.Meta>,
                           items: seq<WGInterface>, now: string, t: State)
  {
    && t == s.(nodes := t.nodes, presence := t.presence, inventory := t.inventory, pendingDomain := t.pendingDomain,
               bindings := t.bindings, endpoints := t.endpoints)
    && Introduced(s, node, name, token, t) && Heard(s, node, "pending", meta, now, t)
    && (node in s.nodes ==> t.nodes[node].name == s.nodes[node].name)
    && node in t.pendingDomain && t.pendingDomain - {node} == s.pendingDomain - {node}
    && t.pendingDomain[node] in s.domains && s.domains[t.pendingDomain[node]].joinCode == code
    && Reported(s, node, items, now, t) && Reconciled(s, t)
  }

  ghost predicate PollDoes(s: State, node: string, meta: Option<Op.Meta>, items: seq<WGInterface>, now: string,
                           t: State)
  {
    && t == s.(presence := t.presence, inventory := t.inventory, bindings := t.bindings, endpoints := t.endpoints)
    && Heard(s, node, "online", meta, now, t)
    && Reported(s, node, items, now, t) && Reconciled(s, t)
  }

  /** Only this node's queue changes. */
  predicate OnlyQueue(s: State, node: string, t: State) {
    t == s.(commands := t.commands) && t.commands - {node} == s.commands - {node}
  }

  function DeliveredAt(q: CommandQueue.Queue, i: nat): QueuedCommand
    requires i < |q|
  {
    if q[i].status.Pending? && (forall j :: 0 <= j < i ==> !q[j].status.Pending?) then q[i].(status := Delivered)
    else q[i]
  }

  /** The first pending command of the node's queue, if there is one, is no longer pending. */
  predicate FetchDoes(s: State, node: string, t: State) {
    var q, r := Op.QueueOf(s, node), Op.QueueOf(t, node);
    && OnlyQueue(s, node, t) && |r| == |q|
    && forall i :: 0 <= i < |q| ==> r[i] == DeliveredAt(q, i)
  }

  /** The first command of the node with the id keeps the result. */
  predicate ResultDoes(s: State, node: string, id: string, result: string, t: State) {
    var q, r := Op.QueueOf(s, node), Op.QueueOf(t, node);
    && OnlyQueue(s, node, t) && |r| == |q|
    && forall i :: 0 <= i < |q| ==>
         r[i] == if q[i].command.id == id && (forall j :: 0 <= j < i ==> q[j].command.id != id)
                 then q[i].(status := Completed, result := Some(result)) else q[i]
  }

  predicate NatterQueued(s: State, node: string, iface: string, id: string, now: string, t: State) {
    && OnlyQueue(s, node, t)
    && Op.QueueOf(t, node) == Op.QueueOf(s, node) + [QueuedCommand(NatterRun(id, iface), Pending, None, now)]
  }

  /** Enabled, and of the reporting node on the lease's interface. */
  predicate IsServed(s: State, node: string, lease: Lease, k: string) {
    && k in s.bindings && s.bindings[k].enabled
    && s.bindings[k].serverNode == node && s.bindings[k].serverIface == lease.serverIface
  }

  /** The order to apply a lease for a binding: where and how the binding says, with the lease's address. */
  function Order(k: string, b: Binding, lease: Lease, id: string, now: string): QueuedCommand {
    QueuedCommand(EndpointApply(id, k, b.clientIface, b.peerKey, b.configType, b.configPath, b.reloadMethod,
                                lease.publicIP, lease.publicPort), Pending, None, now)
  }

  predicate AllIn(told: seq<string>, bindings: map<string, Binding>) {
    forall i :: 0 <= i < |told| ==> told[i] in bindings
  }

  /** Those of the orders for `told` that go to the node. */
  function Orders(s: State, told: seq<string>, node: string, lease: Lease, newID: nat -> string,
                  now: string): seq<QueuedCommand>
    requires AllIn(told, s.bindings)
  {
    if told == [] then []
    else
      var n := |told| - 1;
      var b := s.bindings[told[n]];
      Orders(s, told[..n], node, lease, newID, now) +
      if b.clientNode == node then [Order(told[n], b, lease, newID(n), now)] else []
  }

  /** `told` lists the bindings the lease serves, each once. */
  ghost predicate ListsServed(s: State, node: string, lease: Lease, told: seq<string>) {
    && (forall i, j :: 0 <= i < j < |told| ==> told[i] != told[j])
    && (forall k :: k in told <==> IsServed(s, node, lease, k))
  }

  /** The lease is kept, the bindings it serves have its address, and each of their clients is sent one order for
      each of them. */
  ghost predicate ReportDoes(s: State, node: string, lease: Lease, newID: nat -> string, now: string, t: State) {
    && t == s.(leases := t.leases, endpoints := t.endpoints, commands := t.commands)
    && t.leases == s.leases + [Lease(node, lease.serverIface, lease.localIP, lease.localPort,
                                     lease.publicIP, lease.publicPort, now)]
    && (forall k :: At(t.endpoints, k) ==
                    if IsServed(s, node, lease, k) then Some(Endpoint(lease.publicIP, lease.publicPort, now))
                    else At(s.endpoints, k))
    && exists told ::
         && ListsServed(s, node, lease, told) && AllIn(told, s.bindings)
         && forall n :: Op.QueueOf(t, n) == Op.QueueOf(s, n) + Orders(s, told, n, lease, newID, now)
  }

  /** A membership is stored in the domain that is named, pending, or the node's only one, and the node is let in. */
  ghost predicate ApproveDoes(s: State, node: string, a: Op.Approval, now: string, t: State) {
    && t == s.(members := t.members, nodes := t.nodes, pendingDomain := t.pendingDomain, presence := t.presence,
               bindings := t.bindings, endpoints := t.endpoints)
    && (exists single ::
          Op.SingleDomain(s, node, single) && MemberStored(s, node, a, DomainOf(s, node, a, single), now, t))
    && node in s.nodes && node in t.nodes && t.nodes - {node} == s.nodes - {node}
    && t.nodes[node] == Node(s.nodes[node].id, if a.name != "" then a.name else s.nodes[node].name,
                             s.nodes[node].token, true, NO_LEGACY, UNSEEN)
    && t.pendingDomain == s.pendingDomain - {node}
    && node in t.presence && t.presence - {node} == s.presence - {node}
    && (var p := if node in s.presence then s.presence[node] else UNSEEN;
        t.presence[node] == p.(status := if p.status in ["", "pending"] then "offline" else p.status))
    && Reconciled(s, t)
  }

  predicate MemberStored(s: State, node: string, a: Op.Approval, domain: string, now: string, t: State) {
    var key := domain + "/" + node;
    && domain in s.domains && key in t.members && t.members - {key} == s.members - {key}
    && t.members[key].role != "" && t.members[key].iface != ""
    && Merged(domain, node, a, Known(s, domain, node), now, t.members[key])
    && NatterSet(a.natter, Known(s, domain, node).natter, t.members[key].natter)
  }

  predicate IsOthers(b: Binding, node: string) {
    b.serverNode != node && b.clientNode != node
  }

  /** Without the node's bindings and their endpoints. */
  function Cut(s: State, node: string): State {
    s.(bindings := map k | k in s.bindings && IsOthers(s.bindings[k], node) :: s.bindings[k],
       endpoints := map k | k in s.endpoints && (k in s.bindings ==> IsOthers(s.bindings[k], node)) ::
                      s.endpoints[k])
  }

  /** Nothing of the node is left, nothing of others is lost, and a pass has run. */
  ghost predicate DeleteDoes(s: State, node: string, t: State) {
    && t.domains == s.domains && t.pendingDomain == s.pendingDomain
    && t.nodes == s.nodes - {node} && t.presence == s.presence - {node} && t.commands == s.commands - {node}
    && (forall k ::
          At(t.members, k) == if k in s.members && s.members[k].nodeID != node then At(s.members, k) else None)
    && (forall k ::
          At(t.inventory, k) == if k in s.inventory && s.inventory[k].nodeID != node then At(s.inventory, k) else None)
    && (exists at :: KeptAt(s.leases, node, t.leases, at))
    && Reconciled(Cut(s, node), t)
  }

  predicate AddDoes(s: State, f: Op.BindingFlags, t: State) {
    && t == s.(bindings := t.bindings)
    && t.bindings == s.bindings[f.id :=
         Binding(f.id, "", false, f.serverNode, f.serverIface, f.clientNode, f.clientIface, f.peerKey,
                 if f.configType != "" then f.configType else "openwrt_uci", f.configPath,
                 if f.reloadMethod != "" then f.reloadMethod else "none", "", 0, true)]
  }

  /** What an accepted request does. */
  ghost predicate Does(d: Daemon, r: Request, newID: nat -> string, t: State) {
    var s := d.store;
    match r
    case AgentRegister(node, name, token, meta, items, now) => RegisterDoes(s, node, name, token, meta, items, now, t)
    case AgentJoin(code, node, name, token, meta, items, now) =>
      JoinDoes(s, code, node, name, token, meta, items, now, t)
    case AgentPoll(node, token, meta, items, now) => PollDoes(s, node, meta, items, now, t)
    case AgentFetch(node) => FetchDoes(s, node, t)
    case ActionResult(node, token, id, result) => ResultDoes(s, node, id, result, t)
    case NatterReport(node, token, protocol, lease, now) => ReportDoes(s, node, lease, newID, now, t)
    case PeerUnreachable(node, token, serverNode, serverIface, clock, now) =>
      t == s || NatterQueued(s, serverNode, serverIface, newID(0), now, t)
    case AdminCreateDomain(adminToken, id, name, code, description, now) =>
      id !in s.domains &&
      t == s.(domains := s.domains[id := Domain(id, if name != "" then name else id, code, now, description)])
    case AdminApprove(adminToken, node, approval, now) => ApproveDoes(s, node, approval, now, t)
    case AdminDelete(adminToken, node) => DeleteDoes(s, node, t)
    case AdminRunNatter(adminToken, serverNode, serverIface, now) =>
      NatterQueued(s, serverNode, serverIface, newID(0), now, t)
    case Restart => t == s
    case OfflineCreateNode(id, name, token) =>
      t == s.(nodes := s.nodes[id := Node(id, name, token, true, NO_LEGACY, UNSEEN)],
              presence := s.presence[id := Presence("offline", "", "", "")])
    case OfflineAddBinding(flags, now) => AddDoes(s, flags, t)
  }

  // ---------- Nodes ----------

  lemma InventoryReports(s: State, node: string, items: seq<WGInterface>, now: string)
    requires node != ""
    ensures var t := Op.UpdateInventory(s, node, items, now);
            t == s.(inventory := t.inventory) && Reported(s, node, items, now, t)
  {
    if items != [] {
      InventoryReplaces(s, node, items, now);
    }
  }

  lemma RegisterMeans(d: Daemon, r: Request, c: Choices, newID: nat -> string)
    requires r.AgentRegister? && !Refused(d, r, c)
    ensures Does(d, r, newID, Serve(d, r, c, newID).store)
  {
    TwoSteps(d.store, Register(r.node, r.name, r.token, r.meta, r.now), Inventory(r.node, r.items, r.now));
    hide Exec, IsRun, RowsPut;
    var u := Op.Register(d.store, r.node, r.name, r.token, r.meta, r.now);
    RegisterIntroduces(d.store, r.node, r.name, r.token, r.meta, r.now);
    InventoryReports(u, r.node, r.items, r.now);
    hide Op.Register, Op.UpdateInventory;
  }

  // ---------- Passes ----------

  /** What passes in request sequences start from. */
  ghost predicate Ready(s: State) {
    Sound(s) && Links.AutoDomains(s.bindings, s.domains) && ByHand.AllManual(s.bindings)
  }

  lemma PassReconciles(s: State, order: seq<Binding>)
    requires Ready(s) && Rec.Enumerates(order, s)
    ensures var t := Rec.Reconcile(s, order);
            t == s.(bindings := t.bindings, endpoints := t.endpoints) && Reconciled(s, t)
  {
    ReconcileFrame(s, order);
    Links.PassPasses(s, order);
    hide Links.Passed;
    assert Rec.Reconcile(s, order).endpoints ==
           Rec.PrunedEndpoints(s.endpoints, Rec.PlaceAll(s.bindings, order), Rec.Reconcile(s, order).bindings);
    PassEndpoints(s, order);
    hide Sound, Rec.Reconcile, Rec.Enumerates, Links.AutoDomains, ByHand.AllManual;
  }

  lemma PassEndpoints(s: State, order: seq<Binding>)
    requires Sound(s) && Rec.Enumerates(order, s)
    ensures var t := Rec.Reconcile(s, order);
            forall k :: At(t.endpoints, k) == if k in t.bindings then At(s.endpoints, k) else None
  {
    ReconcileFrame(s, order);
    Rec.PlaceAllFrame(s.bindings, order);
  }

  lemma PassedAlike(s: State, u: State, t: State)
    requires Reconciled(u, t) && s.bindings == u.bindings && s.endpoints == u.endpoints
    ensures Reconciled(s, t)
  {
    hide Links.Slashless, Links.Link, Links.Linked, Links.Backed, Links.HoldsLink, Links.LinkID;
  }

  lemma ReadyElsewhere(s: State, u: State)
    requires Ready(s) && Sound(u) && u.bindings == s.bindings && u.domains == s.domains
    ensures Ready(u)
  {
  }

  lemma JoinedIsSound(s: State, domain: string, node: string, name: string, token: string, meta: Option<Op.Meta>,
                      items: seq<WGInterface>, now: string)
    requires Sound(s)
    ensures Sound(Op.UpdateInventory(Op.Join(s, domain, node, name, token, meta, now), node, items, now))
  {
    hide Sound, Op.Join, Op.UpdateInventory;
    SoundStep(s, Join(domain, node, name, token, meta, now));
    SoundStep(Op.Join(s, domain, node, name, token, meta, now), Inventory(node, items, now));
  }

  lemma JoinLeaves(s: State, domain: string, code: string, node: string, name: string, token: string,
                   meta: Option<Op.Meta>, items: seq<WGInterface>, now: string, order: seq<Binding>)
    requires Ready(s) && Op.JoinError(s, domain, node, token).None?
    requires domain in s.domains && s.domains[domain].joinCode == code
    requires var u := Op.Join(s, domain, node, name, token, meta, now);
             Rec.Enumerates(order, Op.UpdateInventory(u, node, items, now))
    ensures var u := Op.Join(s, domain, node, name, token, meta, now);
            JoinDoes(s, code, node, name, token, meta, items, now,
                     Rec.Reconcile(Op.UpdateInventory(u, node, items, now), order))
  {
    var u := Op.Join(s, domain, node, name, token, meta, now);
    var v := Op.UpdateInventory(u, node, items, now);
    JoinIntroduces(s, domain, node, name, token, meta, now);
    JoinedIsSound(s, domain, node, name, token, meta, items, now);
    assert node != "";
    hide Op.Join, Op.JoinError;
    InventoryReports(u, node, items, now);
    hide Op.UpdateInventory, Introduced, Reported, Sound, Rec.Enumerates, Rec.Reconcile, Reconciled, Heard, RowsPut;
    ReadyElsewhere(s, v);
    PassReconciles(v, order);
    PassedAlike(s, v, Rec.Reconcile(v, order));
  }

  lemma JoinMeans(d: Daemon, r: Request, c: Choices, newID: nat -> string)
    requires Ready(d.store) && r.AgentJoin? && !Refused(d, r, c) && Allows(d, r, c, newID)
    ensures JoinDoes(d.store, r.joinCode, r.node, r.name, r.token, r.meta, r.items, r.now, Serve(d, r, c, newID).store)
  {
    hide JoinDoes, Ready, Op.Join, Op.JoinError, Op.UpdateInventory, Rec.Reconcile, Rec.Enumerates, TriggersNatter;
    var join, put := Join(c.domain, r.node, r.name, r.token, r.meta, r.now), Inventory(r.node, r.items, r.now);
    ThreeSteps(d.store, join, put, Reconcile(c.order));
    hide Exec, IsRun;
    JoinLeaves(d.store, c.domain, r.joinCode, r.node, r.name, r.token, r.meta, r.items, r.now, c.order);
  }

  lemma SeenIsHeard(s: State, node: string, meta: Option<Op.Meta>, now: string)
    requires node in s.nodes && s.nodes[node].approved
    ensures var t := Op.MarkSeen(s, node, meta, now);
            t == s.(presence := t.presence) && Heard(s, node, "online", meta, now, t)
  {
  }

  lemma PollLeaves(s: State, node: string, meta: Option<Op.Meta>, items: seq<WGInterface>, now: string,
                   order: seq<Binding>)
    requires Ready(s) && node != "" && node in s.nodes && s.nodes[node].approved
    requires Rec.Enumerates(order, Op.UpdateInventory(Op.MarkSeen(s, node, meta, now), node, items, now))
    ensures PollDoes(s, node, meta, items, now,
                     Rec.Reconcile(Op.UpdateInventory(Op.MarkSeen(s, node, meta, now), node, items, now), order))
  {
    var u := Op.MarkSeen(s, node, meta, now);
    var v := Op.UpdateInventory(u, node, items, now);
    SeenIsHeard(s, node, meta, now);
    InventoryReports(u, node, items, now);
    SoundStep(s, MarkSeen(node, meta, now));
    hide Op.MarkSeen;
    SoundStep(u, Inventory(node, items, now));
    hide Op.UpdateInventory, Sound, Reported, Rec.Enumerates, Rec.Reconcile, Reconciled, Heard, RowsPut;
    ReadyElsewhere(s, v);
    PassReconciles(v, order);
    PassedAlike(s, v, Rec.Reconcile(v, order));
  }

  lemma PollMeans(d: Daemon, r: Request, c: Choices, newID: nat -> string)
    requires Ready(d.store) && r.AgentPoll? && !Refused(d, r, c) && Allows(d, r, c, newID)
    ensures PollDoes(d.store, r.node, r.meta, r.items, r.now, Serve(d, r, c, newID).store)
  {
    hide PollDoes, Ready, Op.MarkSeen, Op.UpdateInventory, Rec.Reconcile, Rec.Enumerates, TriggersNatter;
    var see, put := MarkSeen(r.node, r.meta, r.now), Inventory(r.node, r.items, r.now);
    ThreeSteps(d.store, see, put, Reconcile(c.order));
    hide Exec, IsRun;
    PollLeaves(d.store, r.node, r.meta, r.items, r.now, c.order);
  }

  // ---------- Queues ----------

  lemma FetchMeans(d: Daemon, r: Request, c: Choices, newID: nat -> string)
    requires r.AgentFetch?
    ensures Does(d, r, newID, Serve(d, r, c, newID).store)
  {
    OneStep(d.store, Next(r.node));
    hide Exec, IsRun;
    FetchDelivers(d.store, r.node);
  }

  lemma FetchDelivers(s: State, node: string)
    ensures FetchDoes(s, node, Op.Deliver(s, node))
  {
    var q := Op.QueueOf(s, node);
    forall i | 0 <= i < |q|
      ensures |CommandQueue.Deliver(q)| == |q| && CommandQueue.Deliver(q)[i] == DeliveredAt(q, i)
    {
      DeliverSets(q, i);
    }
    hide CommandQueue.Deliver;
    assert CommandQueue.FirstPending(q, 0) == |q| ==> forall i :: 0 <= i < |q| ==> DeliveredAt(q, i) == q[i];
  }

  lemma DeliverSets(q: CommandQueue.Queue, i: nat)
    requires i < |q|
    ensures |CommandQueue.Deliver(q)| == |q| && CommandQueue.Deliver(q)[i] == DeliveredAt(q, i)
  {
    if q[i].status.Pending? && (forall j :: 0 <= j < i ==> !q[j].status.Pending?) {
      CommandQueue.FirstPendingIs(q, i);
    }
  }

  lemma ResultCompletes(s: State, node: string, id: string, result: string)
    ensures ResultDoes(s, node, id, result, Op.Complete(s, node, id, result))
  {
    var q := Op.QueueOf(s, node);
    var n := CommandQueue.IndexOfId(q, id, 0);
    forall i | 0 <= i < |q| && q[i].command.id == id && (forall j :: 0 <= j < i ==> q[j].command.id != id)
      ensures i == n
    {
    }
  }

  lemma ResultMeans(d: Daemon, r: Request, c: Choices, newID: nat -> string)
    requires r.ActionResult? && !Refused(d, r, c)
    ensures Does(d, r, newID, Serve(d, r, c, newID).store)
  {
    OneStep(d.store, Complete(r.node, r.commandID, r.result));
    hide Exec, IsRun;
    ResultCompletes(d.store, r.node, r.commandID, r.result);
  }

  lemma RunMeans(d: Daemon, r: Request, c: Choices, newID: nat -> string)
    requires r.PeerUnreachable? || r.AdminRunNatter?
    requires !Refused(d, r, c)
    ensures Does(d, r, newID, Serve(d, r, c, newID).store)
  {
    hide Refused, TriggersNatter, CommandQueue.Push;
    OneStep(d.store, RunNatter(r.serverNode, NatterRun(newID(0), r.serverIface), r.now));
    Queues(d.store, r.serverNode, NatterRun(newID(0), r.serverIface), r.now);
  }

  lemma Queues(s: State, node: string, cmd: Command, now: string)
    ensures var t := Op.Queue(s, node, cmd, now);
            && OnlyQueue(s, node, t)
            && Op.QueueOf(t, node) == Op.QueueOf(s, node) + [QueuedCommand(cmd, Pending, None, now)]
  {
  }

  // ---------- Fan-outs ----------

  /** The ids of some bindings. */
  function IdsOf(matched: seq<Binding>): (told: seq<string>)
    ensures |told| == |matched| && forall i :: 0 <= i < |told| ==> told[i] == matched[i].id
  {
    seq(|matched|, i requires 0 <= i < |matched| => matched[i].id)
  }

  lemma MatchedAreServed(s: State, node: string, lease: Lease, matched: seq<Binding>)
    requires Op.Matches(s.bindings, node, lease, matched)
    ensures ListsServed(s, node, lease, IdsOf(matched)) && AllIn(IdsOf(matched), s.bindings)
  {
    var told := IdsOf(matched);
    forall k ensures k in told <==> IsServed(s, node, lease, k) {
      if IsServed(s, node, lease, k) {
        assert Op.Serves(s.bindings, k, node, lease.serverIface);
        var i :| 0 <= i < |matched| && matched[i].id == k;
        assert told[i] == k;
      }
      if k in told {
        var i :| 0 <= i < |told| && told[i] == k;
      }
    }
  }

  lemma ToldIsOrdered(s: State, node: string, lease: Lease, matched: seq<Binding>, n: nat, id: string, now: string)
    requires Op.Matches(s.bindings, node, lease, matched) && n < |matched| && Rec.KeyedTable(s.bindings)
    ensures matched[n].id in s.bindings && matched[n].clientNode == s.bindings[matched[n].id].clientNode
    ensures QueuedCommand(Op.ApplyCommand(id, matched[n], lease), Pending, None, now) ==
            Order(matched[n].id, s.bindings[matched[n].id], lease, id, now)
  {
  }

  lemma TellOrders(s: State, u: State, node: string, lease: Lease, matched: seq<Binding>, m: nat, id: string,
                   now: string, target: string)
    requires Op.Matches(s.bindings, node, lease, matched) && m < |matched| && Rec.KeyedTable(s.bindings)
    ensures var t := Do(u, Tell(node, matched[m], lease, id, now));
            var k := matched[m].id;
            && t == u.(commands := t.commands) && k in s.bindings
            && Op.QueueOf(t, target) ==
               Op.QueueOf(u, target) +
               if s.bindings[k].clientNode == target then [Order(k, s.bindings[k], lease, id, now)] else []
  {
    ToldIsOrdered(s, node, lease, matched, m, id, now);
    Conv.QueuePush(u, matched[m].clientNode, Op.ApplyCommand(id, matched[m], lease), now, target);
    hide Op.ApplyCommand, Order, Op.QueueOf, Op.Matches;
  }

  lemma OrdersMore(s: State, told: seq<string>, m: nat, node: string, lease: Lease, newID: nat -> string, now: string)
    requires m < |told| && AllIn(told[..m + 1], s.bindings)
    ensures AllIn(told[..m], s.bindings)
    ensures Orders(s, told[..m + 1], node, lease, newID, now) ==
            Orders(s, told[..m], node, lease, newID, now) +
            if s.bindings[told[m]].clientNode == node then [Order(told[m], s.bindings[told[m]], lease, newID(m), now)]
            else []
  {
    var init := told[..m + 1];
    assert init[..m] == told[..m] && init[m] == told[m];
    assert forall i :: 0 <= i < m ==> told[..m][i] == init[i];
    hide Order;
  }

  lemma TellsMore(node: string, matched: seq<Binding>, m: nat, lease: Lease, newID: nat -> string, now: string)
    requires m < |matched|
    ensures Tells(node, matched[..m + 1], lease, newID, now) ==
            Tells(node, matched[..m], lease, newID, now) + [Tell(node, matched[m], lease, newID(m), now)]
  {
    assert matched[..m + 1][..m] == matched[..m];
  }

  lemma TellsNone(s: State, u: State, node: string, lease: Lease, matched: seq<Binding>, newID: nat -> string,
                  now: string, target: string)
    requires AllIn(IdsOf(matched)[..0], s.bindings)
    ensures Exec(u, Tells(node, matched[..0], lease, newID, now)) == u
    ensures Orders(s, IdsOf(matched)[..0], target, lease, newID, now) == []
  {
  }

  lemma {:induction false} TellsOrder(s: State, u: State, node: string, lease: Lease, matched: seq<Binding>, n: nat,
                                      newID: nat -> string, now: string, target: string)
    requires Op.Matches(s.bindings, node, lease, matched) && n <= |matched| && Rec.KeyedTable(s.bindings)
    requires AllIn(IdsOf(matched)[..n], s.bindings)
    ensures var t := Exec(u, Tells(node, matched[..n], lease, newID, now));
            && t == u.(commands := t.commands)
            && Op.QueueOf(t, target) ==
               Op.QueueOf(u, target) + Orders(s, IdsOf(matched)[..n], target, lease, newID, now)
  {
    hide *;
    if n > 0 {
      var m := n - 1;
      OrdersMore(s, IdsOf(matched), m, target, lease, newID, now);
      TellsOrder(s, u, node, lease, matched, m, newID, now, target);
      TellsMore(node, matched, m, lease, newID, now);
      var steps := Tells(node, matched[..m], lease, newID, now);
      ExecSnoc(u, steps, Tell(node, matched[m], lease, newID(m), now));
      TellOrders(s, Exec(u, steps), node, lease, matched, m, newID(m), now, target);
    } else {
      TellsNone(s, u, node, lease, matched, newID, now, target);
    }
  }

  lemma FanOutOrders(s: State, u: State, node: string, lease: Lease, matched: seq<Binding>, newID: nat -> string,
                     now: string)
    requires Op.Matches(s.bindings, node, lease, matched) && Rec.KeyedTable(s.bindings) && u.commands == s.commands
    ensures var t := Exec(u, Tells(node, matched, lease, newID, now));
            var told := IdsOf(matched);
            && t == u.(commands := t.commands)
            && ListsServed(s, node, lease, told) && AllIn(told, s.bindings)
            && forall n :: Op.QueueOf(t, n) == Op.QueueOf(s, n) + Orders(s, told, n, lease, newID, now)
  {
    var n, told := |matched|, IdsOf(matched);
    MatchedAreServed(s, node, lease, matched);
    assert matched[..n] == matched && told[..n] == told;
    assert forall target :: Op.QueueOf(u, target) == Op.QueueOf(s, target);
    hide Op.Matches, Exec, Tells, Orders, Rec.KeyedTable, IdsOf, ListsServed, AllIn, Op.QueueOf;
    TellsOrder(s, u, node, lease, matched, n, newID, now, "");
    forall target
      ensures var t := Exec(u, Tells(node, matched, lease, newID, now));
              Op.QueueOf(t, target) == Op.QueueOf(s, target) + Orders(s, told, target, lease, newID, now)
    {
      TellsOrder(s, u, node, lease, matched, n, newID, now, target);
    }
  }

  lemma SaveStores(s: State, node: string, lease: Lease, now: string)
    ensures var u := Op.SaveLease(s, node, lease, now);
            && u == s.(leases := u.leases, endpoints := u.endpoints)
            && u.leases == s.leases + [Lease(node, lease.serverIface, lease.localIP, lease.localPort,
                                             lease.publicIP, lease.publicPort, now)]
            && (forall k :: At(u.endpoints, k) ==
                            if IsServed(s, node, lease, k) then Some(Endpoint(lease.publicIP, lease.publicPort, now))
                            else At(s.endpoints, k))
  {
    SaveLeaseFrame(s, node, lease, now);
    hide Op.SaveLease;
  }

  lemma ReportLeaves(s: State, node: string, lease: Lease, matched: seq<Binding>, newID: nat -> string, now: string)
    requires Op.Matches(s.bindings, node, lease, matched) && Rec.KeyedTable(s.bindings)
    ensures ReportDoes(s, node, lease, newID, now,
                       Exec(Op.SaveLease(s, node, lease, now), Tells(node, matched, lease, newID, now)))
  {
    SaveStores(s, node, lease, now);
    FanOutOrders(s, Op.SaveLease(s, node, lease, now), node, lease, matched, newID, now);
    hide Op.Matches, Exec, Tells, Orders, Rec.KeyedTable, IdsOf, ListsServed, AllIn, Op.QueueOf, Op.SaveLease;
    hide IsServed, At;
  }

  lemma ReportMeans(d: Daemon, r: Request, c: Choices, newID: nat -> string)
    requires Ready(d.store) && r.NatterReport? && !Refused(d, r, c) && Allows(d, r, c, newID)
    ensures ReportDoes(d.store, r.node, r.lease, newID, r.now, Serve(d, r, c, newID).store)
  {
    var save, tells := SaveLease(r.node, r.lease, c.matched, r.now), Tells(r.node, c.matched, r.lease, newID, r.now);
    OneStep(d.store, save);
    ExecConcat(d.store, [save], tells);
    assert Script(d, r, c, newID) == [save] + tells;
    hide Exec, IsRun, ReportDoes, Op.SaveLease, Op.Matches, Script, Tells;
    assert Rec.KeyedTable(d.store.bindings);
    hide Ready;
    ReportLeaves(d.store, r.node, r.lease, c.matched, newID, r.now);
  }

  // ---------- Administration ----------

  lemma ApproveStores(s: State, node: string, a: Op.Approval, single: string, now: string)
    requires Op.ApproveError(s, node, a, single).None?
    ensures MemberStored(s, node, a, DomainOf(s, node, a, single), now, Op.Approve(s, node, a, single, now))
  {
    ApprovalMerges(s, node, a, single, now);
    ApprovalKeepsOthers(s, node, a, single, now);
    assert Op.ApprovalDomain(s, node, a, single) == DomainOf(s, node, a, single);
    ApprovedMemberIsSound(s, node, a, single, now);
    ApproveFrame(s, node, a, single, now);
    hide Op.Approve, Op.ApproveError, Op.ApprovedMember, Merged, NatterSet, Known;
  }

  lemma ApproveAdmits(s: State, node: string, a: Op.Approval, single: string, now: string)
    requires Op.ApproveError(s, node, a, single).None?
    ensures var t := Op.Approve(s, node, a, single, now);
            && t == s.(members := t.members, nodes := t.nodes, pendingDomain := t.pendingDomain, presence := t.presence)
            && node in s.nodes && node in t.nodes && t.nodes - {node} == s.nodes - {node}
            && t.nodes[node] == Node(s.nodes[node].id, if a.name != "" then a.name else s.nodes[node].name,
                                     s.nodes[node].token, true, NO_LEGACY, UNSEEN)
            && t.pendingDomain == s.pendingDomain - {node}
            && node in t.presence && t.presence - {node} == s.presence - {node}
            && var p := if node in s.presence then s.presence[node] else UNSEEN;
               t.presence[node] == p.(status := if p.status in ["", "pending"] then "offline" else p.status)
  {
    hide Op.ApprovedMember, Op.ApprovalDomain;
  }

  lemma ApproveLeaves(s: State, node: string, a: Op.Approval, single: string, now: string, order: seq<Binding>)
    requires Ready(s) && Op.SingleDomain(s, node, single) && Op.ApproveError(s, node, a, single).None?
    requires Rec.Enumerates(order, Op.Approve(s, node, a, single, now))
    ensures ApproveDoes(s, node, a, now, Rec.Reconcile(Op.Approve(s, node, a, single, now), order))
  {
    var u := Op.Approve(s, node, a, single, now);
    ApproveStores(s, node, a, single, now);
    ApproveAdmits(s, node, a, single, now);
    SoundApprove(s, node, a, single, now);
    hide Op.Approve, Op.ApproveError, Sound, Rec.Enumerates, Rec.Reconcile, Reconciled, Merged, NatterSet;
    hide DomainOf, Op.SingleDomain;
    ReadyElsewhere(s, u);
    PassReconciles(u, order);
    PassedAlike(s, u, Rec.Reconcile(u, order));
    assert MemberStored(s, node, a, DomainOf(s, node, a, single), now, Rec.Reconcile(u, order));
  }

  lemma ApproveMeans(d: Daemon, r: Request, c: Choices, newID: nat -> string)
    requires Ready(d.store) && r.AdminApprove? && !Refused(d, r, c) && Allows(d, r, c, newID)
    ensures ApproveDoes(d.store, r.node, r.approval, r.now, Serve(d, r, c, newID).store)
  {
    hide ApproveDoes, Ready, Op.Approve, Op.ApproveError, Op.SingleDomain, Rec.Reconcile, Rec.Enumerates;
    hide TriggersNatter;
    TwoSteps(d.store, Approve(r.node, r.approval, c.single, r.now), Reconcile(c.order));
    hide Exec, IsRun;
    ApproveLeaves(d.store, r.node, r.approval, c.single, r.now, c.order);
  }

  lemma CutIsDeletion(s: State, node: string)
    requires node != "" && node in s.nodes
    ensures var t := Op.DeleteNode(s, node);
            && t.bindings == Cut(s, node).bindings && t.endpoints == Cut(s, node).endpoints
            && (forall k ::
                  At(t.members, k) == if k in s.members && s.members[k].nodeID != node then At(s.members, k) else None)
            && (forall k :: At(t.inventory, k) ==
                            if k in s.inventory && s.inventory[k].nodeID != node then At(s.inventory, k) else None)
  {
  }

  lemma ReadyDeleted(s: State, node: string)
    requires Ready(s)
    ensures Ready(Op.DeleteNode(s, node))
  {
    SoundDelete(s, node);
    if node != "" && node in s.nodes {
      DeleteFrame(s, node);
      hide Op.DeleteNode, Sound;
    }
  }

  lemma DeleteLeaves(s: State, node: string, order: seq<Binding>)
    requires Ready(s) && node != "" && node in s.nodes && Rec.Enumerates(order, Op.DeleteNode(s, node))
    ensures DeleteDoes(s, node, Rec.Reconcile(Op.DeleteNode(s, node), order))
  {
    DeleteFrame(s, node);
    CutIsDeletion(s, node);
    var at := LeasesOfOthers(s.leases, node);
    var u := Op.DeleteNode(s, node);
    ReadyDeleted(s, node);
    hide Op.DeleteNode, Rec.Enumerates, Rec.Reconcile, Reconciled, Ready, KeptAt;
    PassReconciles(u, order);
    PassedAlike(Cut(s, node), u, Rec.Reconcile(u, order));
  }

  lemma DeleteMeans(d: Daemon, r: Request, c: Choices, newID: nat -> string)
    requires Ready(d.store) && r.AdminDelete? && !Refused(d, r, c) && Allows(d, r, c, newID)
    ensures DeleteDoes(d.store, r.node, Serve(d, r, c, newID).store)
  {
    hide DeleteDoes, Ready, Op.DeleteNode, Rec.Enumerates, Rec.Reconcile, TriggersNatter;
    TwoSteps(d.store, Delete(r.node), Reconcile(c.order));
    hide Exec, IsRun;
    DeleteLeaves(d.store, r.node, c.order);
  }

  lemma OfflineMeans(d: Daemon, r: Request, c: Choices, newID: nat -> string)
    requires r.Restart? || r.OfflineCreateNode? || r.OfflineAddBinding? || r.AdminCreateDomain?
    requires !Refused(d, r, c)
    ensures Does(d, r, newID, Serve(d, r, c, newID).store)
  {
    hide TriggersNatter;
    if r.OfflineCreateNode? {
      OneStep(d.store, CreateNode(r.id, r.name, r.token));
    } else if r.OfflineAddBinding? {
      OneStep(d.store, AddBinding(Op.FromFlags(r.flags), r.now));
    } else if r.AdminCreateDomain? {
      OneStep(d.store, CreateDomain(r.id, r.name, r.joinCode, r.description, r.now));
    }
  }

  lemma ReadyAfter(adminToken: string, cooldown: int, calls: seq<Call>)
    requires AllAllowed(Start(adminToken, cooldown), calls)
    ensures Ready(ServeAll(Start(adminToken, cooldown), calls).store)
  {
    var d := Start(adminToken, cooldown);
    ServedIsRun(d, calls);
    CallsAreManual(d, calls);
    ReachableIsSound(StepsOf(d, calls));
    Links.RunKeepsAutoDomains(StepsOf(d, calls));
    ByHand.RunIsManual(StepsOf(d, calls));
    hide StepsOf, Exec, IsRun, Sound;
  }

  /** After whatever was served before, each accepted request does what it means. */
  lemma RequestsDo(adminToken: string, cooldown: int, calls: seq<Call>, r: Request, c: Choices, newID: nat -> string)
    requires var d := Start(adminToken, cooldown);
             AllAllowed(d, calls) && Allows(ServeAll(d, calls), r, c, newID) && !Refused(ServeAll(d, calls), r, c)
    ensures var d := ServeAll(Start(adminToken, cooldown), calls);
            Does(d, r, newID, Serve(d, r, c, newID).store)
  {
    ReadyAfter(adminToken, cooldown, calls);
    var d := ServeAll(Start(adminToken, cooldown), calls);
    hide ServeAll, Refused, Allows, Ready, Serve, RegisterDoes, JoinDoes, PollDoes, FetchDoes, ResultDoes;
    hide ReportDoes, ApproveDoes, DeleteDoes, AddDoes, NatterQueued;
    if r.AgentRegister? {
      RegisterMeans(d, r, c, newID);
    } else if r.AgentJoin? {
      JoinMeans(d, r, c, newID);
    } else if r.AgentPoll? {
      PollMeans(d, r, c, newID);
    } else if r.AgentFetch? {
      FetchMeans(d, r, c, newID);
    } else if r.ActionResult? {
      ResultMeans(d, r, c, newID);
    } else if r.NatterReport? {
      ReportMeans(d, r, c, newID);
    } else if r.PeerUnreachable? || r.AdminRunNatter? {
      RunMeans(d, r, c, newID);
    } else if r.AdminApprove? {
      ApproveMeans(d, r, c, newID);
    } else if r.AdminDelete? {
      DeleteMeans(d, r, c, newID);
    } else {
      OfflineMeans(d, r, c, newID);
    }
  }

  // ---------- What a client is told last ----------

  predicate AppliesFor(item: QueuedCommand, k: string) {
    item.command.EndpointApply? && item.command.bindingID == k
  }

  /** Position `p` holds the queue's last endpoint.apply for `k`. */
  predicate LastFor(q: seq<QueuedCommand>, k: string, p: nat) {
    p < |q| && AppliesFor(q[p], k) && forall i :: p < i < |q| ==> !AppliesFor(q[i], k)
  }

  lemma {:induction false} OrdersLast(s: State, told: seq<string>, k: string, lease: Lease, newID: nat -> string,
                                      now: string) returns (p: nat, id: string)
    requires AllIn(told, s.bindings) && k in told && forall i, j :: 0 <= i < j < |told| ==> told[i] != told[j]
    ensures var orders := Orders(s, told, s.bindings[k].clientNode, lease, newID, now);
            LastFor(orders, k, p) && orders[p] == Order(k, s.bindings[k], lease, id, now)
  {
    var n := |told| - 1;
    var init := Orders(s, told[..n], s.bindings[k].clientNode, lease, newID, now);
    if told[n] == k {
      p, id := |init|, newID(n);
    } else {
      assert k in told[..n];
      p, id := OrdersLast(s, told[..n], k, lease, newID, now);
    }
  }

  lemma LastBehind(q: seq<QueuedCommand>, more: seq<QueuedCommand>, k: string, p: nat)
    requires LastFor(more, k, p)
    ensures LastFor(q + more, k, |q| + p) && (q + more)[|q| + p] == more[p]
  {
    assert forall i :: |q| <= i < |q + more| ==> (q + more)[i] == more[i - |q|];
  }

  /** After an accepted natter.result, for every enabled binding of the reporting node on the lease's interface: the
      last endpoint.apply for it in its client's queue says where and how the binding is applied, with the address
      of the lease, and it is pending. */
  lemma ReportsTell(adminToken: string, cooldown: int, calls: seq<Call>, r: Request, c: Choices, newID: nat -> string,
                    k: string) returns (p: nat)
    requires var d := Start(adminToken, cooldown);
             AllAllowed(d, calls) && Allows(ServeAll(d, calls), r, c, newID) && !Refused(ServeAll(d, calls), r, c)
    requires r.NatterReport? && IsServed(ServeAll(Start(adminToken, cooldown), calls).store, r.node, r.lease, k)
    ensures var d := ServeAll(Start(adminToken, cooldown), calls);
            var b, t := d.store.bindings[k], Serve(d, r, c, newID).store;
            var q := Op.QueueOf(t, b.clientNode);
            && k in t.bindings && t.bindings[k] == b && LastFor(q, k, p) && q[p].status.Pending?
            && var cmd := q[p].command;
               && cmd.iface == b.clientIface && cmd.peerKey == b.peerKey && cmd.configType == b.configType
               && cmd.configPath == b.configPath && cmd.reloadMethod == b.reloadMethod
               && cmd.host == r.lease.publicIP && cmd.port == r.lease.publicPort
  {
    RequestsDo(adminToken, cooldown, calls, r, c, newID);
    var d := ServeAll(Start(adminToken, cooldown), calls);
    var s, t := d.store, Serve(d, r, c, newID).store;
    hide ServeAll, Refused, Allows, Serve, IsServed, AllAllowed;
    assert ReportDoes(s, r.node, r.lease, newID, r.now, t);
    var told :| ListsServed(s, r.node, r.lease, told) && AllIn(told, s.bindings) &&
                forall n :: Op.QueueOf(t, n) == Op.QueueOf(s, n) + Orders(s, told, n, r.lease, newID, r.now);
    hide Does, ReportDoes, Op.QueueOf, Orders;
    var i, id := OrdersLast(s, told, k, r.lease, newID, r.now);
    var client := s.bindings[k].clientNode;
    LastBehind(Op.QueueOf(s, client), Orders(s, told, client, r.lease, newID, r.now), k, i);
    p := |Op.QueueOf(s, client)| + i;
  }

  // ---------- Approvals that name no domain ----------

  /** Taken only when all memberships of the node are of one domain, which is then the approval's; so refused when it
      has none, or two of different domains. */
  lemma UnnamedApprovals(adminToken: string, cooldown: int, calls: seq<Call>, r: Request, c: Choices)
    requires AllAllowed(Start(adminToken, cooldown), calls) && r.AdminApprove? && r.approval.domainID == ""
    requires var d := ServeAll(Start(adminToken, cooldown), calls);
             && Found(d, r, c) && !Refused(d, r, c)
             && (r.node in d.store.pendingDomain ==> d.store.pendingDomain[r.node] == "")
    ensures var s := ServeAll(Start(adminToken, cooldown), calls).store;
            && DomainOf(s, r.node, r.approval, c.single) == c.single
            && (exists k :: k in s.members && s.members[k].nodeID == r.node)
            && forall k :: k in s.members && s.members[k].nodeID == r.node ==> s.members[k].domainID == c.single
  {
    ReadyAfter(adminToken, cooldown, calls);
    var s := ServeAll(Start(adminToken, cooldown), calls).store;
    hide ServeAll, AllAllowed, SoundNodes, SoundRows, SoundBindings, Op.ApprovedMember;
    assert c.single != "";
    assert forall k :: k in s.members ==> SoundMember(s.nodes, s.domains, k, s.members[k]);
    var k :| Op.MemberOf(s, k, r.node) && s.members[k].domainID == c.single;
    forall k | k in s.members && s.members[k].nodeID == r.node ensures s.members[k].domainID == c.single {
      assert Op.MemberOf(s, k, r.node);
      assert SoundMember(s.nodes, s.domains, k, s.members[k]);
    }
  }
}
