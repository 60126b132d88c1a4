/** Names that cannot be mistaken for one another are enough: automatic ids then never collide, so
    reconciling is deterministic and runs converge. Dashes are allowed, as in the identities agents make up. */
module SafeNames {
  import opened Model
  import opened Runs
  import Names
  import Op = Operations
  import Rec = Reconciler
  import Conv = Convergence

  /** The names a deployment uses: ids of domains and nodes, and names of interfaces. */
  datatype Vocabulary = Vocabulary(domains: set<string>, nodes: set<string>, ifaces: set<string>)

  ghost predicate Safe(v: Vocabulary) {
    Names.PrefixFree(v.domains, "-") && Names.PrefixFree(v.nodes, "-") && Names.PrefixFree(v.ifaces, "-to-")
  }

  predicate Ends(v: Vocabulary, b: Binding) {
    && b.domainID in v.domains && b.serverNode in v.nodes && b.clientNode in v.nodes
    && b.serverIface in v.ifaces && b.clientIface in v.ifaces
  }

  predicate SafeRows(v: Vocabulary, rows: map<string, WGInterface>) {
    forall k :: k in rows ==> rows[k].name in v.ifaces
  }

  predicate SafeBinding(v: Vocabulary, b: Binding) {
    b.auto ==> Ends(v, b) && b.id == Rec.AutoID(b)
  }

  predicate SafeBindings(v: Vocabulary, bindings: map<string, Binding>) {
    forall k :: k in bindings ==> SafeBinding(v, bindings[k])
  }

  predicate SafeWorld(v: Vocabulary, s: State) {
    s.nodes.Keys <= v.nodes && s.domains.Keys <= v.domains && SafeRows(v, s.inventory) && SafeBindings(v, s.bindings)
  }

  // ---------- Ids are unambiguous ----------

  /** The five names an automatic id is made of are the same. */
  predicate SameFive(a: Binding, b: Binding) {
    && a.domainID == b.domainID && a.serverNode == b.serverNode && a.serverIface == b.serverIface
    && a.clientNode == b.clientNode && a.clientIface == b.clientIface
  }

  lemma SameIdSameEnds(v: Vocabulary, a: Binding, b: Binding)
    requires Safe(v) && Ends(v, a) && Ends(v, b) && Rec.AutoID(a) == Rec.AutoID(b)
    ensures SameFive(a, b) && Conv.SameRoute(a, b)
  {
    hide Names.IsClean, Names.Apart, Names.AutoBindingID;
    Names.AutoBindingIDSeparates(a.domainID, a.serverNode, a.serverIface, a.clientNode, a.clientIface,
                                 b.domainID, b.serverNode, b.serverIface, b.clientNode, b.clientIface);
  }

  lemma DesiredIsSafe(v: Vocabulary, s: State, d: Binding)
    requires Sound(s) && SafeWorld(v, s) && d in Rec.Desired(s)
    ensures Ends(v, d) && SafeBinding(v, d) && d.auto
  {
    var km, kc, ks, kw := Rec.DesiredSupport(s, d);
    assert SoundMember(s.nodes, s.domains, km, s.members[km]);
    assert SoundMember(s.nodes, s.domains, kc, s.members[kc]);
    hide Names.AutoBindingID, SoundRows, SoundBindings, SoundNodes, SafeBindings;
    assert s.members[km].domainID in s.domains.Keys;
    assert s.members[km].nodeID in s.nodes.Keys && s.members[kc].nodeID in s.nodes.Keys;
  }

  /** A desired binding's five names determine the table rows behind it. */
  lemma RowsOfDesired(s: State, d: Binding) returns (km: string, kc: string, ks: string, kw: string)
    requires Sound(s) && d in Rec.Desired(s)
    ensures Rec.Supports(Rec.WorldOf(s), km, kc, ks, kw) && d == Rec.DeriveAt(Rec.WorldOf(s), km, kc, ks, kw)
    ensures km == Names.MemberKey(d.domainID, d.serverNode) && kc == Names.MemberKey(d.domainID, d.clientNode)
    ensures ks == Names.InterfaceKey(d.serverNode, d.serverIface) &&
            kw == Names.InterfaceKey(d.clientNode, d.clientIface)
  {
    km, kc, ks, kw := Rec.DesiredSupport(s, d);
    assert SoundMember(s.nodes, s.domains, km, s.members[km]);
    assert SoundMember(s.nodes, s.domains, kc, s.members[kc]);
    assert SoundRow(ks, s.inventory[ks]) && SoundRow(kw, s.inventory[kw]);
    hide Names.MemberKey, Names.InterfaceKey, Names.AutoBindingID, SoundBindings, SoundNodes;
  }

  lemma SameEndsSameBinding(s: State, d: Binding, e: Binding)
    requires Sound(s) && d in Rec.Desired(s) && e in Rec.Desired(s) && SameFive(d, e)
    ensures d == e
  {
    var km, kc, ks, kw := RowsOfDesired(s, d);
    var km', kc', ks', kw' := RowsOfDesired(s, e);
  }

  lemma SafeIsUnambiguous(v: Vocabulary, s: State)
    requires Safe(v) && Sound(s) && SafeWorld(v, s)
    ensures Rec.InjectiveIds(Rec.Desired(s)) && Conv.IdsAgree(s)
  {
    hide Safe, Ends, Rec.AutoID, Rec.Desired, SoundMembers, SoundRows, SoundNodes, SoundDomains, SoundBindings;
    hide SafeRows;
    var ds := Rec.Desired(s);
    forall d, e | d in ds && e in ds && d.id == e.id ensures d == e {
      DesiredIsSafe(v, s, d);
      DesiredIsSafe(v, s, e);
      SameIdSameEnds(v, d, e);
      SameEndsSameBinding(s, d, e);
    }
    forall d | d in ds && d.id in s.bindings && s.bindings[d.id].auto ensures Conv.SameRoute(s.bindings[d.id], d) {
      DesiredIsSafe(v, s, d);
      assert SafeBinding(v, s.bindings[d.id]);
      KeyIsId(s, d.id);
      SameIdSameEnds(v, s.bindings[d.id], d);
    }
  }

  lemma KeyIsId(s: State, k: string)
    requires SoundBindings(s.bindings) && k in s.bindings
    ensures s.bindings[k].id == k
  {
  }

  /** In a reachable world of safe names a pass has one outcome, in closed form, whatever the order. */
  lemma SafeReconcile(v: Vocabulary, s: State, o1: seq<Binding>, o2: seq<Binding>)
    requires Safe(v) && Sound(s) && SafeWorld(v, s) && Rec.Enumerates(o1, s) && Rec.Enumerates(o2, s)
    ensures Rec.Reconcile(s, o1) == Rec.Reconcile(s, o2)
    ensures Rec.Reconcile(s, o1).bindings ==
            Rec.Prune(Rec.Closed(s.bindings, Rec.Desired(s)), Rec.DesiredIds(s), s.members)
  {
    SafeIsUnambiguous(v, s);
    Rec.DesiredIsDerived(s);
    Rec.KeyedIsStable(s.bindings, Rec.Desired(s));
    Rec.StableIsOneOutcome(s, o1, o2);
    Rec.ReconcileClosedForm(s, o1);
  }

  // ---------- Safe inputs keep the world safe ----------

  /** All a caller has to check: new names are in the vocabulary, and bindings added by hand give no endpoint
      and keep the route of an id that has one stored. */
  predicate SafeInput(v: Vocabulary, s: State, step: Step) {
    match step
    case CreateNode(id, _, _) => id in v.nodes
    case CreateDomain(id, _, _, _, _) => id == "" || id in v.domains
    case Join(_, node, _, _, _, _) => node == "" || node in v.nodes
    case Register(node, _, _, _, _) => node == "" || node in v.nodes
    case Inventory(_, items, _) => forall i :: 0 <= i < |items| ==> items[i].name == "" || items[i].name in v.ifaces
    case AddBinding(b, _) => Conv.Readds(s, b)
    case _ => true
  }

  predicate SafeInputs(v: Vocabulary, s: State, steps: seq<Step>) {
    steps != [] ==>
      var init, last := steps[..|steps| - 1], steps[|steps| - 1];
      SafeInputs(v, s, init) && SafeInput(v, Exec(s, init), last)
  }

  lemma {:induction false} SafePutRows(v: Vocabulary, rows: map<string, WGInterface>, node: string,
                                       items: seq<WGInterface>, now: string)
    requires SafeRows(v, rows)
    requires forall i :: 0 <= i < |items| ==> items[i].name == "" || items[i].name in v.ifaces
    ensures SafeRows(v, Op.PutRows(rows, node, items, now))
  {
    if items != [] {
      var rest, item := Op.PutRows(rows, node, items[..|items| - 1], now), items[|items| - 1];
      SafePutRows(v, rows, node, items[..|items| - 1], now);
      if item.name != "" {
        var row := item.(nodeID := node, updatedAt := now);
        assert SafeRows(v, rest[Names.InterfaceKey(node, item.name) := row]);
      }
    }
  }

  lemma SafeInventory(v: Vocabulary, s: State, node: string, items: seq<WGInterface>, now: string)
    requires SafeWorld(v, s) && SafeInput(v, s, Inventory(node, items, now)) && SoundRows(s.inventory)
    ensures SafeWorld(v, Op.UpdateInventory(s, node, items, now))
  {
    hide SafeBindings;
    if node != "" && items != [] {
      InventoryFrame(s, node, items, now);
      var others := Op.RowsWithout(s.inventory, node);
      SafePutRows(v, others, node, items, now);
      assert Op.UpdateInventory(s, node, items, now).inventory == Op.PutRows(others, node, items, now);
    }
  }

  lemma SafeReconciled(v: Vocabulary, s: State, order: seq<Binding>)
    requires Sound(s) && SafeWorld(v, s) && Rec.Enumerates(order, s)
    ensures SafeWorld(v, Rec.Reconcile(s, order))
  {
    var t := Rec.Reconcile(s, order);
    assert t == s.(bindings := t.bindings, endpoints := t.endpoints);
    hide Rec.Reconcile, Rec.Enumerates, Rec.Desired, SafeBinding, Sound;
    forall k | k in t.bindings ensures SafeBinding(v, t.bindings[k]) {
      Rec.Reconciled(s, order, k);
      if t.bindings[k] in Rec.Desired(s) {
        DesiredIsSafe(v, s, t.bindings[k]);
      }
    }
  }

  lemma SafeDeleted(v: Vocabulary, s: State, node: string)
    requires SafeWorld(v, s)
    ensures SafeWorld(v, Op.DeleteNode(s, node))
  {
    hide SafeBinding;
    if node != "" && node in s.nodes {
      DeleteFrame(s, node);
      hide Op.DeleteNode;
      assert SafeWorld(v, Op.DeleteNode(s, node));
    }
  }

  lemma SafeApproved(v: Vocabulary, s: State, node: string, a: Op.Approval, single: string, now: string)
    requires SafeWorld(v, s)
    ensures SafeWorld(v, Op.Approve(s, node, a, single, now))
  {
    hide SafeBindings, SafeRows;
    if Op.ApproveError(s, node, a, single).None? {
      ApproveFrame(s, node, a, single, now);
      hide Op.Approve, Op.ApproveError, Op.ApprovedMember;
      assert Op.Approve(s, node, a, single, now).nodes.Keys == s.nodes.Keys;
      assert SafeWorld(v, Op.Approve(s, node, a, single, now));
    }
  }

  lemma SafeAdded(v: Vocabulary, s: State, b: Binding, now: string)
    requires SafeWorld(v, s) && !b.auto
    ensures SafeWorld(v, Op.AddBinding(s, b, now))
  {
    hide SafeRows;
    AddBindingFrame(s, b, now);
    hide Op.AddBinding;
  }

  lemma NodeKeys(nodes: map<string, Node>, node: string, name: string, token: string)
    ensures Op.JoinedNodes(nodes, node, name, token).Keys == nodes.Keys + {node}
    ensures Op.RegisteredNodes(nodes, node, name, token).Keys == nodes.Keys + {node}
  {
  }

  lemma SafeJoin(v: Vocabulary, s: State, domain: string, node: string, name: string, token: string,
                 meta: Option<Op.Meta>, now: string)
    requires SafeWorld(v, s) && (node == "" || node in v.nodes)
    ensures SafeWorld(v, Op.Join(s, domain, node, name, token, meta, now))
  {
    NodeKeys(s.nodes, node, name, token);
    hide SafeBindings, SafeRows, Op.JoinedNodes, Op.PendingPresence;
  }

  lemma SafeRegister(v: Vocabulary, s: State, node: string, name: string, token: string, meta: Option<Op.Meta>,
                     now: string)
    requires SafeWorld(v, s) && (node == "" || node in v.nodes)
    ensures SafeWorld(v, Op.Register(s, node, name, token, meta, now))
  {
    NodeKeys(s.nodes, node, name, token);
    hide SafeBindings, SafeRows, Op.RegisteredNodes, Op.PendingPresence;
  }

  lemma SafeIdentity(v: Vocabulary, s: State, step: Step)
    requires SafeWorld(v, s) && SafeInput(v, s, step)
    requires step.CreateNode? || step.CreateDomain? || step.Join? || step.Register?
    ensures SafeWorld(v, Do(s, step))
  {
    hide SafeBindings, SafeRows;
    match step
    case Join(domain, node, name, token, meta, now) => SafeJoin(v, s, domain, node, name, token, meta, now);
    case Register(node, name, token, meta, now) => SafeRegister(v, s, node, name, token, meta, now);
    case CreateNode(id, name, token) =>
    case CreateDomain(id, name, code, description, now) =>
  }

  lemma SafeStep(v: Vocabulary, s: State, step: Step)
    requires Sound(s) && SafeWorld(v, s) && Possible(s, step) && SafeInput(v, s, step)
    ensures SafeWorld(v, Do(s, step))
  {
    hide SafeBindings, SafeRows, SoundNodes, SoundMembers, SoundBindings, SoundRows, SoundDomains;
    if step.SaveLease? || step.Tell? || step.MarkSeen? || step.RunNatter? || step.Next? || step.Complete? {
      SafeElsewhere(v, s, step);
    } else {
      SafeTables(v, s, step);
    }
  }

  lemma SafeElsewhere(v: Vocabulary, s: State, step: Step)
    requires SafeWorld(v, s)
    requires step.SaveLease? || step.Tell? || step.MarkSeen? || step.RunNatter? || step.Next? || step.Complete?
    ensures SafeWorld(v, Do(s, step))
  {
    hide SafeBindings, SafeRows, Op.QueueOf, Op.ServedEndpoints, Op.Seen;
  }

  lemma SafeTables(v: Vocabulary, s: State, step: Step)
    requires Sound(s) && SafeWorld(v, s) && Possible(s, step) && SafeInput(v, s, step)
    requires !(step.SaveLease? || step.Tell? || step.MarkSeen? || step.RunNatter? || step.Next? || step.Complete?)
    ensures SafeWorld(v, Do(s, step))
  {
    hide SafeBindings, SafeRows, SoundNodes, SoundMembers, SoundBindings, SoundRows, SoundDomains;
    match step
    case Inventory(node, items, now) => SafeInventory(v, s, node, items, now);
    case Reconcile(order) => SafeReconciled(v, s, order);
    case Delete(node) => SafeDeleted(v, s, node);
    case Approve(node, a, single, now) => SafeApproved(v, s, node, a, single, now);
    case AddBinding(b, now) => SafeAdded(v, s, b, now);
    case CreateNode(id, name, token) => SafeIdentity(v, s, step);
    case CreateDomain(id, name, code, description, now) => SafeIdentity(v, s, step);
    case Join(domain, node, name, token, meta, now) => SafeIdentity(v, s, step);
    case Register(node, name, token, meta, now) => SafeIdentity(v, s, step);
  }

  /** Over every run of safe inputs ids never collide. */
  lemma {:induction false} SafeRunIsApart(v: Vocabulary, steps: seq<Step>)
    requires Safe(v) && IsRun(EMPTY, steps) && SafeInputs(v, EMPTY, steps)
    ensures Conv.ApartRun(EMPTY, steps) && SafeWorld(v, Exec(EMPTY, steps))
  {
    if steps != [] {
      var init, last := steps[..|steps| - 1], steps[|steps| - 1];
      SafeRunIsApart(v, init);
      ReachableIsSound(init);
      var s := Exec(EMPTY, init);
      hide Safe, Sound, SafeWorld, Do, Possible, Conv.IdsAgree;
      SafeStep(v, s, last);
      SafeIsUnambiguous(v, s);
    }
  }

  // ---------- Fan-outs in between ----------

  /** An id that some automatic binding between names of the vocabulary would get. */
  ghost predicate LooksAutomatic(v: Vocabulary, id: string) {
    exists b: Binding :: Ends(v, b) && Rec.AutoID(b) == id
  }

  /** Bindings that are not automatic do not use ids of automatic ones. */
  ghost predicate Distinct(v: Vocabulary, b: Binding) {
    !b.auto ==> !LooksAutomatic(v, b.id)
  }

  ghost predicate AllDistinct(v: Vocabulary, bindings: map<string, Binding>) {
    forall k :: k in bindings ==> Distinct(v, bindings[k])
  }

  ghost predicate SafeFlights(v: Vocabulary, fl: Conv.Air) {
    forall src, i :: src in fl && 0 <= i < |fl[src].todo| ==>
      SafeBinding(v, fl[src].todo[i]) && Distinct(v, fl[src].todo[i])
  }

  ghost predicate DistinctInputs(v: Vocabulary, steps: seq<Step>) {
    forall i :: 0 <= i < |steps| && steps[i].AddBinding? ==> !LooksAutomatic(v, steps[i].b.id)
  }

  lemma SafeFlightsAgree(v: Vocabulary, s: State, fl: Conv.Air)
    requires Safe(v) && Sound(s) && SafeWorld(v, s) && SafeFlights(v, fl)
    ensures Conv.FlightsAgree(s, fl)
  {
    hide Safe, Sound, SafeWorld, Rec.Desired, Conv.SameRoute, SameFive, Ends, Rec.AutoID;
    forall d, src, i | d in Rec.Desired(s) && src in fl && 0 <= i < |fl[src].todo| && fl[src].todo[i].id == d.id
      ensures Conv.SameRoute(fl[src].todo[i], d)
    {
      DesiredIsSafe(v, s, d);
      assert LooksAutomatic(v, d.id);
      assert Distinct(v, fl[src].todo[i]) && SafeBinding(v, fl[src].todo[i]);
      SameIdSameEnds(v, fl[src].todo[i], d);
    }
  }

  lemma DistinctReconciled(v: Vocabulary, s: State, order: seq<Binding>)
    requires AllDistinct(v, s.bindings) && Rec.Enumerates(order, s)
    ensures AllDistinct(v, Rec.Reconcile(s, order).bindings)
  {
    var t := Rec.Reconcile(s, order);
    Rec.DesiredIsDerived(s);
    hide LooksAutomatic, Rec.Reconcile, Rec.Enumerates, Rec.Desired;
    forall k | k in t.bindings ensures Distinct(v, t.bindings[k]) {
      Rec.Reconciled(s, order, k);
    }
  }

  lemma DistinctStep(v: Vocabulary, s: State, step: Step)
    requires Sound(s) && Possible(s, step) && AllDistinct(v, s.bindings)
    requires step.AddBinding? ==> !LooksAutomatic(v, step.b.id)
    ensures AllDistinct(v, Do(s, step).bindings)
  {
    hide LooksAutomatic, SoundNodes, SoundMembers, SoundBindings, SoundRows, SoundDomains;
    match step
    case Reconcile(order) => DistinctReconciled(v, s, order);
    case Delete(node) =>
      if node != "" && node in s.nodes {
        DeleteFrame(s, node);
      }
    case Approve(node, a, single, now) =>
      if Op.ApproveError(s, node, a, single).None? {
        ApproveFrame(s, node, a, single, now);
      }
    case AddBinding(b, now) => AddBindingFrame(s, b, now);
    case SaveLease(node, lease, matched, now) => SaveLeaseFrame(s, node, lease, now);
    case _ => QuietFrame(s, step);
  }

  lemma SafeFlightsStep(v: Vocabulary, s: State, fl: Conv.Air, step: Step)
    requires SafeBindings(v, s.bindings) && AllDistinct(v, s.bindings) && Possible(s, step) && SafeFlights(v, fl)
    ensures SafeFlights(v, Conv.FlightsAfter(fl, step))
  {
    hide LooksAutomatic, Rec.AutoID, Ends;
    match step
    case SaveLease(node, lease, matched, now) =>
      forall i | 0 <= i < |matched| ensures SafeBinding(v, matched[i]) && Distinct(v, matched[i]) {
        var b := s.bindings[matched[i].id];
        assert SafeBinding(v, b) && Distinct(v, b);
        SameName(v, b, lease);
      }
    case _ =>
  }

  lemma SameName(v: Vocabulary, b: Binding, lease: Lease)
    ensures var t := Op.WithEndpoint(b, lease);
            t.auto == b.auto && t.id == b.id && Rec.AutoID(t) == Rec.AutoID(b) && Ends(v, t) == Ends(v, b)
  {
  }

  lemma {:induction false} SafeRunIsClear(v: Vocabulary, steps: seq<Step>)
    requires Safe(v) && IsRun(EMPTY, steps) && SafeInputs(v, EMPTY, steps) && DistinctInputs(v, steps) &&
             Conv.OrderlyRun(steps)
    ensures Conv.ClearRun(EMPTY, steps)
    ensures AllDistinct(v, Exec(EMPTY, steps).bindings) && SafeFlights(v, Conv.Flights(steps))
  {
    if steps != [] {
      var init, last := steps[..|steps| - 1], steps[|steps| - 1];
      assert DistinctInputs(v, init) by {
        assert forall i :: 0 <= i < |init| ==> init[i] == steps[i];
      }
      SafeRunIsClear(v, init);
      SafeRunIsApart(v, steps);
      SafeRunIsApart(v, init);
      ReachableIsSound(init);
      var s, fl := Exec(EMPTY, init), Conv.Flights(init);
      hide Safe, Sound, AllDistinct, SafeFlights, SafeBindings, Do, Possible, Conv.FlightsAfter, Conv.Orderly;
      hide Conv.Apart, Conv.FlightsAgree;
      DistinctStep(v, s, last);
      SafeFlightsStep(v, s, fl, last);
      SafeFlightsAgree(v, s, fl);
    }
  }

  /** Convergence of runs with fan-outs under way, from checks on names, on bindings added by hand, and on the
      order in which clients are told. */
  lemma SafeRunsConverge(v: Vocabulary, steps: seq<Step>, k: string)
    requires Safe(v) && IsRun(EMPTY, steps) && SafeInputs(v, EMPTY, steps) && DistinctInputs(v, steps) &&
             Conv.OrderlyRun(steps)
    requires k in Exec(EMPTY, steps).endpoints
    ensures var t := Exec(EMPTY, steps);
            && Conv.Current(t, Conv.Flights(steps), k)
            && var b := t.bindings[k];
               Conv.Landed(Conv.Flights(steps), Conv.SourceOf(b)) && Conv.Served(steps, b.clientNode) ==>
                 Conv.CommandSays(Conv.LastApply(Conv.HandedTo(EMPTY, steps, b.clientNode), k), k, b.clientIface,
                                  t.endpoints[k])
  {
    SafeRunIsClear(v, steps);
    Conv.RunsStayCurrent(steps);
    hide Conv.ClearRun, Conv.Served, Conv.HandedTo, Conv.Flights, SafeInputs, DistinctInputs;
    Conv.Converged(steps, k);
  }
}
