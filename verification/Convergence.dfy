/** Endpoint propagation: over whole runs, the endpoint stored for a binding is the newest lease of its
    server interface, and it is what the binding's client was last told to apply. */
module Convergence {
  import opened Model
  import opened Runs
  import Op = Operations
  import Rec = Reconciler
  import CommandQueue

  // ---------- What is compared ----------

  function NewestLease(leases: seq<Lease>, node: string, iface: string): Option<Lease> {
    if leases == [] then None
    else
      var last := leases[|leases| - 1];
      if last.serverNode == node && last.serverIface == iface then Some(last)
      else NewestLease(leases[..|leases| - 1], node, iface)
  }

  /** The last endpoint.apply for binding `k` among some commands. */
  function LastApply(cmds: seq<Command>, k: string): Option<Command> {
    if cmds == [] then None
    else
      var last := cmds[|cmds| - 1];
      if last.EndpointApply? && last.bindingID == k then Some(last) else LastApply(cmds[..|cmds| - 1], k)
  }

  function Told(s: State, node: string, k: string): Option<Command> {
    LastApply(CommandQueue.Commands(Op.QueueOf(s, node)), k)
  }

  predicate LeaseSays(leases: seq<Lease>, b: Binding, e: Endpoint) {
    var l := NewestLease(leases, b.serverNode, b.serverIface);
    l.Some? && l.value.publicIP == e.host && l.value.publicPort == e.port
  }

  /** The command applies endpoint `e` for binding `k` on the client interface `iface`. */
  predicate CommandSays(cmd: Option<Command>, k: string, iface: string, e: Endpoint) {
    && cmd.Some? && cmd.value.EndpointApply? && cmd.value.bindingID == k && cmd.value.iface == iface
    && cmd.value.host == e.host && cmd.value.port == e.port
  }

  // ---------- Fan-outs under way ----------

  /** A server interface. */
  datatype Source = Source(node: string, iface: string)

  function SourceOf(b: Binding): Source {
    Source(b.serverNode, b.serverIface)
  }

  /** Two bindings with the same server interface and the same client interface. */
  predicate SameRoute(a: Binding, b: Binding) {
    SourceOf(a) == SourceOf(b) && a.clientNode == b.clientNode && a.clientIface == b.clientIface
  }

  /** A natter.result being worked off: the saved lease, and the bindings whose clients are still to be
      told. The requests of other connections come in between. */
  datatype Flight = Flight(lease: Lease, todo: seq<Binding>)

  type Air = map<Source, Flight>

  function FlightsAfter(fl: Air, step: Step): Air {
    match step
    case SaveLease(node, lease, matched, now) => fl[Source(node, lease.serverIface) := Flight(lease, matched)]
    case Tell(node, b, lease, id, now) => ToldOne(fl, Source(node, lease.serverIface))
    case _ => fl
  }

  function ToldOne(fl: Air, src: Source): Air {
    if src in fl && fl[src].todo != [] then fl[src := Flight(fl[src].lease, fl[src].todo[1..])] else fl
  }

  /** The fan-out each server interface has under way after a run. */
  function Flights(steps: seq<Step>): Air {
    if steps == [] then map[] else FlightsAfter(Flights(steps[..|steps| - 1]), steps[|steps| - 1])
  }

  predicate Landed(fl: Air, src: Source) {
    src in fl ==> fl[src].todo == []
  }

  predicate Lists(todo: seq<Binding>, k: string) {
    exists i :: 0 <= i < |todo| && todo[i].id == k
  }

  /** A fan-out of `src` has yet to tell the client of binding `k`. */
  predicate Waiting(fl: Air, src: Source, k: string) {
    src in fl && Lists(fl[src].todo, k)
  }

  predicate FlightSays(f: Flight, e: Endpoint) {
    f.lease.publicIP == e.host && f.lease.publicPort == e.port
  }

  /** For a binding `b` under `k`, endpoint `e` is the newest lease of its server interface, and it is what the
      client's queue says last, or what a fan-out under way is going to tell it. */
  predicate CurrentFor(s: State, fl: Air, k: string, b: Binding, e: Endpoint) {
    && LeaseSays(s.leases, b, e)
    && if Waiting(fl, SourceOf(b), k) then FlightSays(fl[SourceOf(b)], e)
       else CommandSays(Told(s, b.clientNode, k), k, b.clientIface, e)
  }

  predicate Current(s: State, fl: Air, k: string) {
    k in s.bindings && k in s.endpoints && CurrentFor(s, fl, k, s.bindings[k], s.endpoints[k])
  }

  predicate AllCurrent(s: State, fl: Air) {
    forall k :: k in s.endpoints ==> Current(s, fl, k)
  }

  /** A fan-out under way lists each binding once, all of its server interface, and those that still exist
      still have the same route. */
  predicate Holds(bindings: map<string, Binding>, src: Source, todo: seq<Binding>) {
    && (forall i, j :: 0 <= i < j < |todo| ==> todo[i].id != todo[j].id)
    && (forall i :: 0 <= i < |todo| ==> SourceOf(todo[i]) == src)
    && (forall i :: 0 <= i < |todo| && todo[i].id in bindings ==> SameRoute(bindings[todo[i].id], todo[i]))
  }

  predicate AllHold(bindings: map<string, Binding>, fl: Air) {
    forall src :: src in fl ==> Holds(bindings, src, fl[src].todo)
  }

  // ---------- What runs must avoid ----------

  /** A desired binding that meets an automatic entry with an endpoint under its id has the same route. */
  ghost predicate IdsAgree(s: State) {
    forall d :: d in Rec.Desired(s) && d.id in s.endpoints && d.id in s.bindings && s.bindings[d.id].auto ==>
      SameRoute(s.bindings[d.id], d)
  }

  /** So has one that meets a binding a fan-out has yet to tell about. */
  ghost predicate FlightsAgree(s: State, fl: Air) {
    forall d, src, i ::
      d in Rec.Desired(s) && src in fl && 0 <= i < |fl[src].todo| && fl[src].todo[i].id == d.id ==>
        SameRoute(fl[src].todo[i], d)
  }

  /** Each fan-out tells its clients in the listed order; a server interface has one natter.result in hand at
      a time; and a binding a fan-out has yet to tell about is added again only with the same route. */
  predicate Orderly(fl: Air, step: Step) {
    match step
    case SaveLease(node, lease, matched, now) => Landed(fl, Source(node, lease.serverIface))
    case Tell(node, b, lease, id, now) =>
      var src := Source(node, lease.serverIface);
      src in fl && fl[src].todo != [] && fl[src].todo[0] == b && fl[src].lease == lease
    case AddBinding(b, _) => forall src :: src in fl ==> Agrees(fl[src].todo, b)
    case _ => true
  }

  predicate Agrees(todo: seq<Binding>, b: Binding) {
    forall i :: 0 <= i < |todo| && todo[i].id == b.id ==> SameRoute(b, todo[i])
  }

  predicate OrderlyRun(steps: seq<Step>) {
    steps != [] ==>
      OrderlyRun(steps[..|steps| - 1]) && Orderly(Flights(steps[..|steps| - 1]), steps[|steps| - 1])
  }

  /** A binding added by hand gives no endpoint, and where one is stored under its id the route stays. */
  predicate Readds(s: State, b: Binding) {
    !Op.GivesEndpoint(b) && (b.id in s.endpoints && b.id in s.bindings ==> SameRoute(s.bindings[b.id], b))
  }

  /** Stored endpoints keep their routes: ids do not collide, and bindings added by hand respect them. */
  ghost predicate Apart(s: State, step: Step) {
    (step.Reconcile? ==> IdsAgree(s)) && (step.AddBinding? ==> Readds(s, step.b))
  }

  ghost predicate ApartRun(s: State, steps: seq<Step>) {
    steps != [] ==>
      ApartRun(s, steps[..|steps| - 1]) && Apart(Exec(s, steps[..|steps| - 1]), steps[|steps| - 1])
  }

  ghost predicate Clear(s: State, fl: Air, step: Step) {
    Orderly(fl, step) && Apart(s, step) && (step.Reconcile? ==> FlightsAgree(s, fl))
  }

  ghost predicate ClearRun(s: State, steps: seq<Step>) {
    steps != [] ==>
      var init, last := steps[..|steps| - 1], steps[|steps| - 1];
      ClearRun(s, init) && Clear(Exec(s, init), Flights(init), last)
  }

  // ---------- Step by step ----------

  lemma {:induction false} NewestWithout(leases: seq<Lease>, gone: string, node: string, iface: string)
    requires node != gone
    ensures NewestLease(Op.LeasesWithout(leases, gone), node, iface) == NewestLease(leases, node, iface)
  {
    if leases != [] {
      var init, last := leases[..|leases| - 1], leases[|leases| - 1];
      NewestWithout(init, gone, node, iface);
      if last.serverNode == gone {
        assert Op.LeasesWithout(leases, gone) == Op.LeasesWithout(init, gone);
      } else {
        var r := Op.LeasesWithout(init, gone) + [last];
        assert r[..|r| - 1] == Op.LeasesWithout(init, gone);
      }
    }
  }

  lemma LastApplyOfPush(q: seq<QueuedCommand>, cmd: Command, now: string, k: string)
    ensures LastApply(CommandQueue.Commands(CommandQueue.Push(q, cmd, now)), k) ==
            if cmd.EndpointApply? && cmd.bindingID == k then Some(cmd) else LastApply(CommandQueue.Commands(q), k)
  {
    var r := CommandQueue.Commands(CommandQueue.Push(q, cmd, now));
    assert r[..|r| - 1] == CommandQueue.Commands(q);
  }

  lemma StatusKeepsCommands(q: seq<QueuedCommand>, id: string, result: string)
    ensures CommandQueue.Commands(CommandQueue.Deliver(q)) == CommandQueue.Commands(q)
    ensures CommandQueue.Commands(CommandQueue.Complete(q, id, result)) == CommandQueue.Commands(q)
  {
  }

  lemma QueuePush(s: State, target: string, cmd: Command, now: string, node: string)
    ensures Op.QueueOf(Op.Queue(s, target, cmd, now), node) ==
            if node == target then CommandQueue.Push(Op.QueueOf(s, node), cmd, now) else Op.QueueOf(s, node)
  {
  }

  /** Only a fan-out changes what a node was last told about a binding, and only about that binding. */
  lemma QuietTold(s: State, step: Step, node: string, k: string)
    requires IsQuiet(step) && Possible(s, step) && Sound(s) && (step.Tell? ==> step.b.id != k)
    ensures Told(Do(s, step), node, k) == Told(s, node, k)
  {
    hide SoundNodes, SoundMembers, SoundBindings, SoundRows, SoundDomains;
    match step
    case RunNatter(target, cmd, now) =>
      QueuePush(s, target, cmd, now, node);
      LastApplyOfPush(Op.QueueOf(s, node), cmd, now, k);
    case Tell(from, b, lease, id, now) =>
      QueuePush(s, b.clientNode, Op.ApplyCommand(id, b, lease), now, node);
      LastApplyOfPush(Op.QueueOf(s, node), Op.ApplyCommand(id, b, lease), now, k);
    case Next(target) => StatusKeepsCommands(Op.QueueOf(s, node), "", "");
    case Complete(target, id, result) => StatusKeepsCommands(Op.QueueOf(s, node), id, result);
    case Inventory(target, items, now) => InventoryFrame(s, target, items, now);
    case MarkSeen(target, meta, now) =>
    case _ => IdentityStepFrame(s, step);
  }

  lemma CurrentQuiet(s: State, fl: Air, step: Step, k: string)
    requires Sound(s) && Possible(s, step) && IsQuiet(step) && !step.Tell? && Current(s, fl, k)
    ensures Current(Do(s, step), fl, k)
  {
    QuietFrame(s, step);
    QuietTold(s, step, s.bindings[k].clientNode, k);
    hide Do, Sound, Told, LeaseSays, Waiting;
  }

  lemma CurrentDelete(s: State, fl: Air, node: string, k: string)
    requires Current(s, fl, k) && node != "" && node in s.nodes && k in Op.DeleteNode(s, node).endpoints
    ensures Current(Op.DeleteNode(s, node), fl, k)
  {
    DeleteFrame(s, node);
    NewestWithout(s.leases, node, s.bindings[k].serverNode, s.bindings[k].serverIface);
    hide Op.DeleteNode, NewestLease, LastApply, Waiting;
  }

  lemma CurrentDeleteAll(s: State, fl: Air, node: string, k: string)
    requires AllCurrent(s, fl) && k in Op.DeleteNode(s, node).endpoints
    ensures Current(Op.DeleteNode(s, node), fl, k)
  {
    hide Current;
    if node != "" && node in s.nodes {
      DeleteFrame(s, node);
      CurrentDelete(s, fl, node, k);
    }
  }

  /** The route decides whether an endpoint is current. */
  lemma RouteDecides(s: State, fl: Air, k: string, a: Binding, b: Binding, e: Endpoint)
    requires SameRoute(a, b)
    ensures CurrentFor(s, fl, k, a, e) == CurrentFor(s, fl, k, b, e)
  {
  }

  lemma ReconcileKeepsRoute(s: State, order: seq<Binding>, k: string)
    requires Rec.Enumerates(order, s) && IdsAgree(s) && k in s.endpoints
    requires k in s.bindings && k in Rec.Reconcile(s, order).bindings
    ensures SameRoute(Rec.Reconcile(s, order).bindings[k], s.bindings[k])
  {
    Rec.Reconciled(s, order, k);
    hide Rec.Reconcile, Rec.Enumerates, Rec.Desired;
  }

  /** A pass and a binding added by hand leave leases, queues and known endpoints alone. */
  predicate OnlyBindings(s: State, t: State) {
    && t == s.(bindings := t.bindings, endpoints := t.endpoints)
    && (forall k :: k in t.endpoints ==> k in s.endpoints && t.endpoints[k] == s.endpoints[k])
  }

  lemma CurrentForFrame(s: State, t: State, fl: Air, k: string, b: Binding, e: Endpoint)
    requires OnlyBindings(s, t)
    ensures CurrentFor(t, fl, k, b, e) == CurrentFor(s, fl, k, b, e)
  {
  }

  lemma ReconcileOnlyBindings(s: State, order: seq<Binding>)
    ensures OnlyBindings(s, Rec.Reconcile(s, order))
  {
  }

  lemma CurrentReconcile(s: State, fl: Air, order: seq<Binding>, k: string)
    requires SoundBindings(s.bindings) && s.endpoints.Keys <= s.bindings.Keys
    requires Rec.Enumerates(order, s) && IdsAgree(s)
    requires AllCurrent(s, fl) && k in Rec.Reconcile(s, order).endpoints
    ensures Current(Rec.Reconcile(s, order), fl, k)
  {
    var t := Rec.Reconcile(s, order);
    ReconcileFrame(s, order);
    ReconcileOnlyBindings(s, order);
    hide SoundBindings, CurrentFor, Rec.Enumerates, Rec.Reconcile, IdsAgree, SameRoute;
    assert Current(s, fl, k);
    ReconcileKeepsRoute(s, order, k);
    CurrentForFrame(s, t, fl, k, t.bindings[k], t.endpoints[k]);
    RouteDecides(s, fl, k, t.bindings[k], s.bindings[k], t.endpoints[k]);
  }

  lemma AddedRoute(s: State, b: Binding, now: string)
    ensures var t := Op.AddBinding(s, b, now);
            && b.id in t.bindings && SameRoute(t.bindings[b.id], b)
            && (!Op.GivesEndpoint(b) ==> OnlyBindings(s, t))
  {
  }

  lemma CurrentAdd(s: State, fl: Air, b: Binding, now: string, k: string)
    requires s.endpoints.Keys <= s.bindings.Keys && AllCurrent(s, fl)
    requires Readds(s, b) && k in Op.AddBinding(s, b, now).endpoints
    ensures Current(Op.AddBinding(s, b, now), fl, k)
  {
    var t := Op.AddBinding(s, b, now);
    AddBindingFrame(s, b, now);
    AddedRoute(s, b, now);
    hide Op.AddBinding, CurrentFor;
    assert Current(s, fl, k);
    CurrentForFrame(s, t, fl, k, t.bindings[k], t.endpoints[k]);
    RouteDecides(s, fl, k, t.bindings[k], s.bindings[k], t.endpoints[k]);
  }

  lemma CurrentApprove(s: State, fl: Air, node: string, a: Op.Approval, single: string, now: string, k: string)
    requires AllCurrent(s, fl) && k in Op.Approve(s, node, a, single, now).endpoints
    ensures Current(Op.Approve(s, node, a, single, now), fl, k)
  {
    if Op.ApproveError(s, node, a, single).None? {
      ApproveFrame(s, node, a, single, now);
      hide Op.Approve, Op.ApproveError, Op.ApprovedMember, Waiting;
      assert Current(s, fl, k);
      assert Current(Op.Approve(s, node, a, single, now), fl, k);
    }
  }

  /** A saved lease puts exactly the bindings it speaks for in wait for the fan-out. */
  lemma WaitingAfterSave(s: State, fl: Air, node: string, lease: Lease, matched: seq<Binding>, other: Source, k: string)
    requires Op.Matches(s.bindings, node, lease, matched) && Landed(fl, Source(node, lease.serverIface))
    ensures var src := Source(node, lease.serverIface);
            var fl' := fl[src := Flight(lease, matched)];
            Waiting(fl', other, k) <==>
            if other == src then Op.Serves(s.bindings, k, node, lease.serverIface) else Waiting(fl, other, k)
  {
  }

  lemma LandedWaitsForNone(fl: Air, src: Source, k: string)
    requires Landed(fl, src)
    ensures !Waiting(fl, src, k)
  {
  }

  lemma CurrentServed(s: State, fl: Air, node: string, lease: Lease, matched: seq<Binding>, now: string, k: string)
    requires Op.Matches(s.bindings, node, lease, matched) && Landed(fl, Source(node, lease.serverIface))
    requires Op.Serves(s.bindings, k, node, lease.serverIface)
    ensures Current(Op.SaveLease(s, node, lease, now), fl[Source(node, lease.serverIface) := Flight(lease, matched)], k)
  {
    SaveLeaseFrame(s, node, lease, now);
    WaitingAfterSave(s, fl, node, lease, matched, Source(node, lease.serverIface), k);
    hide Op.SaveLease, Op.Matches, Waiting, Told;
  }

  lemma CurrentUnserved(s: State, fl: Air, node: string, lease: Lease, matched: seq<Binding>, now: string, k: string)
    requires Op.Matches(s.bindings, node, lease, matched) && Landed(fl, Source(node, lease.serverIface))
    requires Current(s, fl, k) && s.bindings[k].enabled && !Op.Serves(s.bindings, k, node, lease.serverIface)
    ensures Current(Op.SaveLease(s, node, lease, now), fl[Source(node, lease.serverIface) := Flight(lease, matched)], k)
  {
    var t := Op.SaveLease(s, node, lease, now);
    SaveLeaseFrame(s, node, lease, now);
    WaitingAfterSave(s, fl, node, lease, matched, SourceOf(s.bindings[k]), k);
    LandedWaitsForNone(fl, Source(node, lease.serverIface), k);
    assert t.leases[..|t.leases| - 1] == s.leases;
    hide Op.SaveLease, Op.Matches, Waiting, LastApply, Landed;
  }

  lemma CurrentSave(s: State, fl: Air, node: string, lease: Lease, matched: seq<Binding>, now: string, k: string)
    requires Op.Matches(s.bindings, node, lease, matched) && Landed(fl, Source(node, lease.serverIface))
    requires SoundBindings(s.bindings) && s.endpoints.Keys <= s.bindings.Keys && AllCurrent(s, fl)
    requires k in Op.SaveLease(s, node, lease, now).endpoints
    ensures Current(Op.SaveLease(s, node, lease, now), fl[Source(node, lease.serverIface) := Flight(lease, matched)], k)
  {
    hide Op.Matches, CurrentFor, Landed;
    SaveLeaseFrame(s, node, lease, now);
    hide Op.SaveLease;
    if Op.Serves(s.bindings, k, node, lease.serverIface) {
      CurrentServed(s, fl, node, lease, matched, now, k);
    } else {
      assert Current(s, fl, k);
      CurrentUnserved(s, fl, node, lease, matched, now, k);
    }
  }

  lemma WaitingAfterTell(fl: Air, src: Source, other: Source, k: string)
    requires src in fl && fl[src].todo != []
    requires forall i, j :: 0 <= i < j < |fl[src].todo| ==> fl[src].todo[i].id != fl[src].todo[j].id
    ensures var b := fl[src].todo[0];
            && Waiting(fl, src, b.id)
            && (Waiting(ToldOne(fl, src), other, k) <==> Waiting(fl, other, k) && !(other == src && k == b.id))
  {
    var todo, rest := fl[src].todo, fl[src].todo[1..];
    assert forall i :: 0 <= i < |rest| ==> rest[i] == todo[i + 1];
    if Lists(todo, k) && k != todo[0].id {
      var i :| 0 <= i < |todo| && todo[i].id == k;
      assert rest[i - 1].id == k;
    }
  }

  lemma TellTells(s: State, b: Binding, lease: Lease, id: string, now: string, node: string, k: string)
    ensures var t := Op.Queue(s, b.clientNode, Op.ApplyCommand(id, b, lease), now);
            Told(t, node, k) ==
            if node == b.clientNode && k == b.id then Some(Op.ApplyCommand(id, b, lease)) else Told(s, node, k)
  {
    QueuePush(s, b.clientNode, Op.ApplyCommand(id, b, lease), now, node);
    LastApplyOfPush(Op.QueueOf(s, node), Op.ApplyCommand(id, b, lease), now, k);
  }

  lemma CurrentTell(s: State, fl: Air, src: Source, id: string, now: string, k: string)
    requires src in fl && fl[src].todo != [] && Holds(s.bindings, src, fl[src].todo) && Current(s, fl, k)
    ensures var f := fl[src];
            var b := f.todo[0];
            Current(Op.Queue(s, b.clientNode, Op.ApplyCommand(id, b, f.lease), now), ToldOne(fl, src), k)
  {
    var f, b := fl[src], fl[src].todo[0];
    TellTells(s, b, f.lease, id, now, s.bindings[k].clientNode, k);
    WaitingAfterTell(fl, src, SourceOf(s.bindings[k]), k);
    hide Told, Waiting, LeaseSays;
  }

  lemma CurrentStep(s: State, fl: Air, step: Step, k: string)
    requires Sound(s) && AllCurrent(s, fl) && AllHold(s.bindings, fl)
    requires Possible(s, step) && Clear(s, fl, step) && k in Do(s, step).endpoints
    ensures Current(Do(s, step), FlightsAfter(fl, step), k)
  {
    hide Current, Holds, IdsAgree, FlightsAgree, Readds, SoundNodes, SoundMembers, SoundBindings, SoundRows;
    hide SoundDomains, Op.QueueOf;
    match step
    case SaveLease(node, lease, matched, now) => CurrentSave(s, fl, node, lease, matched, now, k);
    case Tell(node, b, lease, id, now) => CurrentTell(s, fl, Source(node, lease.serverIface), id, now, k);
    case Reconcile(order) => CurrentReconcile(s, fl, order, k);
    case Delete(node) => CurrentDeleteAll(s, fl, node, k);
    case AddBinding(b, now) => CurrentAdd(s, fl, b, now, k);
    case Approve(node, approval, single, now) => CurrentApprove(s, fl, node, approval, single, now, k);
    case _ => CurrentOther(s, fl, step, k);
  }

  lemma CurrentOther(s: State, fl: Air, step: Step, k: string)
    requires Sound(s) && AllCurrent(s, fl) && Possible(s, step) && IsQuiet(step) && !step.Tell? &&
             k in Do(s, step).endpoints
    ensures Current(Do(s, step), fl, k)
  {
    hide Current, Sound;
    QuietFrame(s, step);
    hide Do;
    CurrentQuiet(s, fl, step, k);
  }

  // ---------- Fan-outs keep speaking of the same bindings ----------

  lemma HoldsReconcile(s: State, fl: Air, order: seq<Binding>, src: Source)
    requires Rec.Enumerates(order, s) && FlightsAgree(s, fl) && src in fl && Holds(s.bindings, src, fl[src].todo)
    ensures Holds(Rec.Reconcile(s, order).bindings, src, fl[src].todo)
  {
    var t, todo := Rec.Reconcile(s, order), fl[src].todo;
    forall i | 0 <= i < |todo| && todo[i].id in t.bindings ensures SameRoute(t.bindings[todo[i].id], todo[i]) {
      Rec.Reconciled(s, order, todo[i].id);
      hide Rec.Reconcile, Rec.Enumerates, Rec.Desired;
    }
  }

  lemma HoldsFewer(before: map<string, Binding>, after: map<string, Binding>, src: Source, todo: seq<Binding>)
    requires Holds(before, src, todo)
    requires forall k :: k in after && Lists(todo, k) ==> k in before && after[k] == before[k]
    ensures Holds(after, src, todo)
  {
    assert forall i :: 0 <= i < |todo| ==> Lists(todo, todo[i].id);
  }

  lemma HoldsDelete(s: State, node: string, src: Source, todo: seq<Binding>)
    requires Holds(s.bindings, src, todo)
    ensures Holds(Op.DeleteNode(s, node).bindings, src, todo)
  {
    if node != "" && node in s.nodes {
      DeleteFrame(s, node);
      hide Op.DeleteNode, Holds;
      HoldsFewer(s.bindings, Op.DeleteNode(s, node).bindings, src, todo);
    }
  }

  lemma HoldsAdd(s: State, b: Binding, now: string, src: Source, todo: seq<Binding>)
    requires Holds(s.bindings, src, todo) && Agrees(todo, b)
    ensures Holds(Op.AddBinding(s, b, now).bindings, src, todo)
  {
    AddBindingFrame(s, b, now);
    AddedRoute(s, b, now);
    hide Op.AddBinding;
  }

  lemma HoldsMatched(bindings: map<string, Binding>, node: string, lease: Lease, matched: seq<Binding>)
    requires Op.Matches(bindings, node, lease, matched)
    ensures Holds(bindings, Source(node, lease.serverIface), matched)
  {
  }

  lemma HoldsRest(bindings: map<string, Binding>, src: Source, todo: seq<Binding>)
    requires Holds(bindings, src, todo) && todo != []
    ensures Holds(bindings, src, todo[1..])
  {
  }

  lemma HoldStep(s: State, fl: Air, step: Step, src: Source)
    requires Sound(s) && Possible(s, step) && Clear(s, fl, step) && AllHold(s.bindings, fl)
    requires src in FlightsAfter(fl, step)
    ensures Holds(Do(s, step).bindings, src, FlightsAfter(fl, step)[src].todo)
  {
    hide Holds, SoundNodes, SoundMembers, SoundBindings, SoundRows, SoundDomains, Lists, Agrees, IdsAgree;
    match step
    case SaveLease(from, lease, matched, now) => HoldsMatched(s.bindings, from, lease, matched);
    case Tell(from, b, lease, id, now) =>
      var told := Source(from, lease.serverIface);
      HoldsRest(s.bindings, told, fl[told].todo);
    case Reconcile(order) => HoldsReconcile(s, fl, order, src);
    case Delete(gone) => HoldsDelete(s, gone, src, fl[src].todo);
    case AddBinding(b, now) => HoldsAdd(s, b, now, src, fl[src].todo);
    case Approve(id, approval, single, now) =>
      if Op.ApproveError(s, id, approval, single).None? {
        ApproveFrame(s, id, approval, single, now);
      }
    case _ => QuietFrame(s, step);
  }

  /** After any clear run from the empty store, whatever other requests come between the steps of a
      fan-out: endpoints belong to bindings and agree with the newest lease of the binding's server
      interface, and with what the client was last told or is about to be. */
  lemma {:induction false} RunsStayCurrent(steps: seq<Step>)
    requires IsRun(EMPTY, steps) && ClearRun(EMPTY, steps)
    ensures AllCurrent(Exec(EMPTY, steps), Flights(steps))
    ensures AllHold(Exec(EMPTY, steps).bindings, Flights(steps))
  {
    if steps != [] {
      var init, last := steps[..|steps| - 1], steps[|steps| - 1];
      RunsStayCurrent(init);
      ReachableIsSound(init);
      hide Current, Holds, Clear, Sound, Possible, Do, FlightsAfter;
      var s, fl := Exec(EMPTY, init), Flights(init);
      forall k | k in Do(s, last).endpoints ensures Current(Do(s, last), FlightsAfter(fl, last), k) {
        CurrentStep(s, fl, last, k);
      }
      forall src | src in FlightsAfter(fl, last)
        ensures Holds(Do(s, last).bindings, src, FlightsAfter(fl, last)[src].todo)
      {
        HoldStep(s, fl, last, src);
      }
    }
  }

  lemma ExecNext(steps: seq<Step>, step: Step)
    ensures Exec(EMPTY, steps + [step]) == Do(Exec(EMPTY, steps), step)
    ensures IsRun(EMPTY, steps + [step]) <==> IsRun(EMPTY, steps) && Possible(Exec(EMPTY, steps), step)
    ensures Flights(steps + [step]) == FlightsAfter(Flights(steps), step)
    ensures OrderlyRun(steps + [step]) <==> OrderlyRun(steps) && Orderly(Flights(steps), step)
  {
    ExecSnoc(EMPTY, steps, step);
    hide Exec, IsRun, Do, Possible, Orderly, FlightsAfter;
    assert (steps + [step])[..|steps|] == steps;
  }

  /** Two reports of one server interface in hand at once: both leases are saved, then the client of `b` is told,
      the second lease first. */
  function Saves(node: string, l1: Lease, m1: seq<Binding>, l2: Lease, m2: seq<Binding>, now: string): seq<Step> {
    [SaveLease(node, l1, m1, now)] + [SaveLease(node, l2, m2, now)]
  }

  function TellsSwapped(node: string, b: Binding, l1: Lease, l2: Lease, id1: string, id2: string,
                        now: string): seq<Step>
  {
    [Tell(node, Op.WithEndpoint(b, l2), l2, id2, now)] + [Tell(node, Op.WithEndpoint(b, l1), l1, id1, now)]
  }

  lemma SaveNext(steps: seq<Step>, node: string, k: string, lease: Lease, matched: seq<Binding>, now: string)
    requires IsRun(EMPTY, steps)
    requires var bs := Exec(EMPTY, steps).bindings;
             Op.Serves(bs, k, node, lease.serverIface) && Op.Matches(bs, node, lease, matched)
    ensures var all := steps + [SaveLease(node, lease, matched, now)];
            var t := Exec(EMPTY, all);
            && IsRun(EMPTY, all) && t.bindings == Exec(EMPTY, steps).bindings
            && k in t.endpoints && t.endpoints[k] == Endpoint(lease.publicIP, lease.publicPort, now)
            && matched != []
            && Flights(all) == Flights(steps)[Source(node, lease.serverIface) := Flight(lease, matched)]
            && (OrderlyRun(all) ==> Landed(Flights(steps), Source(node, lease.serverIface)))
  {
    ExecNext(steps, SaveLease(node, lease, matched, now));
    hide Exec, IsRun, OrderlyRun, Flights;
    SaveLeaseFrame(Exec(EMPTY, steps), node, lease, now);
    hide Op.SaveLease;
    assert matched != [];
  }

  lemma SavesRun(steps: seq<Step>, node: string, k: string, l1: Lease, m1: seq<Binding>, l2: Lease, m2: seq<Binding>,
                 now: string)
    requires IsRun(EMPTY, steps)
    requires var bs := Exec(EMPTY, steps).bindings;
             && Op.Serves(bs, k, node, l1.serverIface) && l2.serverIface == l1.serverIface
             && Op.Matches(bs, node, l1, m1) && Op.Matches(bs, node, l2, m2)
    ensures var all := steps + Saves(node, l1, m1, l2, m2, now);
            var t := Exec(EMPTY, all);
            && IsRun(EMPTY, all) && !OrderlyRun(all) && t.bindings == Exec(EMPTY, steps).bindings
            && k in t.endpoints && t.endpoints[k] == Endpoint(l2.publicIP, l2.publicPort, now)
  {
    hide Exec, IsRun, OrderlyRun, Flights, Op.Matches, Op.Serves;
    var one := steps + [SaveLease(node, l1, m1, now)];
    assert steps + Saves(node, l1, m1, l2, m2, now) == one + [SaveLease(node, l2, m2, now)];
    SaveNext(steps, node, k, l1, m1, now);
    SaveNext(one, node, k, l2, m2, now);
  }

  lemma TellNext(steps: seq<Step>, node: string, b: Binding, lease: Lease, id: string, now: string)
    requires IsRun(EMPTY, steps)
    ensures var all := steps + [Tell(node, b, lease, id, now)];
            && IsRun(EMPTY, all) && (OrderlyRun(all) ==> OrderlyRun(steps))
            && Exec(EMPTY, all).endpoints == Exec(EMPTY, steps).endpoints
            && Told(Exec(EMPTY, all), b.clientNode, b.id) == Some(Op.ApplyCommand(id, b, lease))
  {
    ExecNext(steps, Tell(node, b, lease, id, now));
    TellTells(Exec(EMPTY, steps), b, lease, id, now, b.clientNode, b.id);
    hide Exec, IsRun, OrderlyRun, Flights, Told;
  }

  /** Why a server interface must have one natter.result in hand at a time. After any run in which `k` is served, two
      interleaved reports are a run again, which is not orderly, and the stored endpoint is the second
      lease's while the client was last told the first's. */
  lemma RacingReportsDiverge(steps: seq<Step>, node: string, k: string, l1: Lease, m1: seq<Binding>, l2: Lease,
                             m2: seq<Binding>,
                             id1: string, id2: string, now: string)
    requires IsRun(EMPTY, steps)
    requires var bs := Exec(EMPTY, steps).bindings;
             && Op.Serves(bs, k, node, l1.serverIface) && l2.serverIface == l1.serverIface
             && Op.Matches(bs, node, l1, m1) && Op.Matches(bs, node, l2, m2)
    ensures var b := Exec(EMPTY, steps).bindings[k];
            var all := steps + Saves(node, l1, m1, l2, m2, now) + TellsSwapped(node, b, l1, l2, id1, id2, now);
            var t := Exec(EMPTY, all);
            && IsRun(EMPTY, all) && !OrderlyRun(all)
            && k in t.endpoints && t.endpoints[k] == Endpoint(l2.publicIP, l2.publicPort, now)
            && CommandSays(Told(t, b.clientNode, k), k, b.clientIface, Endpoint(l1.publicIP, l1.publicPort, now))
  {
    var b := Exec(EMPTY, steps).bindings[k];
    ReachableIsSound(steps);
    assert b.id == k;
    SavesRun(steps, node, k, l1, m1, l2, m2, now);
    var saved := steps + Saves(node, l1, m1, l2, m2, now);
    var tell2 := Tell(node, Op.WithEndpoint(b, l2), l2, id2, now);
    var tell1 := Tell(node, Op.WithEndpoint(b, l1), l1, id1, now);
    assert saved + TellsSwapped(node, b, l1, l2, id1, id2, now) == saved + [tell2] + [tell1];
    hide Exec, IsRun, OrderlyRun, Flights, Sound, Saves, TellsSwapped, Op.Matches, Op.Serves, Told;
    TellNext(saved, node, Op.WithEndpoint(b, l2), l2, id2, now);
    TellNext(saved + [tell2], node, Op.WithEndpoint(b, l1), l1, id1, now);
  }

  /** Such a run exists: a binding added by hand is served at once. */
  lemma AddedIsServed(b: Binding, now: string, lease: Lease)
    requires !b.auto && lease.serverIface == b.serverIface
    ensures var steps := [AddBinding(b, now)];
            var bs := Exec(EMPTY, steps).bindings;
            && IsRun(EMPTY, steps) && Op.Serves(bs, b.id, b.serverNode, lease.serverIface)
            && Op.Matches(bs, b.serverNode, lease, [Op.WithEndpoint(bs[b.id], lease)])
  {
    var step := AddBinding(b, now);
    assert [] + [step] == [step];
    ExecNext([], step);
    var bs := Exec(EMPTY, [step]).bindings;
    var m := [Op.WithEndpoint(bs[b.id], lease)];
    assert forall k :: Op.Serves(bs, k, b.serverNode, lease.serverIface) ==> k == b.id;
    assert m[0].id == b.id;
  }

  // ---------- Delivery ----------

  /** What `node` has been handed since its queue was last dropped with its deletion. */
  function HandedTo(s: State, steps: seq<Step>, node: string): seq<Command> {
    if steps == [] then []
    else
      var init, last := steps[..|steps| - 1], steps[|steps| - 1];
      HandedAfter(Exec(s, init), last, node, HandedTo(s, init, node))
  }

  function HandedAfter(s: State, step: Step, node: string, handed: seq<Command>): seq<Command> {
    if step == Next(node) && Op.NextCommand(s, node).Some? then handed + [Op.NextCommand(s, node).value]
    else if step == Delete(node) && node != "" && node in s.nodes then []
    else handed
  }

  predicate Drops(s: State, step: Step, node: string) {
    step == Delete(node) && node != "" && node in s.nodes
  }

  /** What a step does to one node's queue, when it does anything. */
  function OnQueue(step: Step, node: string): Option<CommandQueue.Step> {
    match step
    case Next(target) => if target == node then Some(CommandQueue.NextStep) else None
    case Complete(target, id, result) => if target == node then Some(CommandQueue.CompleteStep(id, result)) else None
    case RunNatter(target, cmd, now) => if target == node then Some(CommandQueue.PushStep(cmd, now)) else None
    case Tell(from, b, lease, id, now) =>
      if b.clientNode == node then Some(CommandQueue.PushStep(Op.ApplyCommand(id, b, lease), now)) else None
    case _ => None
  }

  /** What a run did to a node's queue since it was last dropped. */
  function QueueSteps(steps: seq<Step>, node: string): seq<CommandQueue.Step> {
    if steps == [] then []
    else
      var init, last := steps[..|steps| - 1], steps[|steps| - 1];
      if Drops(Exec(EMPTY, init), last, node) then []
      else
        match OnQueue(last, node)
        case None => QueueSteps(init, node)
        case Some(step) => QueueSteps(init, node) + [step]
  }

  lemma OtherQueues(s: State, step: Step, node: string)
    requires Sound(s) && Possible(s, step)
    requires !(step.Next? || step.Complete? || step.RunNatter? || step.Tell?)
    ensures Op.QueueOf(Do(s, step), node) == if Drops(s, step, node) then [] else Op.QueueOf(s, node)
  {
    hide SoundNodes, SoundMembers, SoundBindings, SoundRows, SoundDomains;
    match step
    case Inventory(target, items, now) => InventoryFrame(s, target, items, now);
    case Reconcile(order) => ReconcileFrame(s, order);
    case Delete(target) =>
      if target != "" && target in s.nodes {
        DeleteFrame(s, target);
      }
    case AddBinding(b, now) => AddBindingFrame(s, b, now);
    case Approve(target, approval, single, now) =>
      if Op.ApproveError(s, target, approval, single).None? {
        ApproveFrame(s, target, approval, single, now);
      }
    case SaveLease(target, lease, matched, now) => SaveLeaseFrame(s, target, lease, now);
    case MarkSeen(target, meta, now) =>
    case _ => IdentityStepFrame(s, step);
  }

  lemma QueueDeliver(s: State, target: string, node: string)
    ensures Op.QueueOf(Op.Deliver(s, target), node) ==
            if target == node then CommandQueue.Deliver(Op.QueueOf(s, node)) else Op.QueueOf(s, node)
  {
  }

  lemma QueueComplete(s: State, target: string, id: string, result: string, node: string)
    ensures Op.QueueOf(Op.Complete(s, target, id, result), node) ==
            if target == node then CommandQueue.Complete(Op.QueueOf(s, node), id, result) else Op.QueueOf(s, node)
  {
  }

  /** The queue operations of the four steps that are about queues. */
  lemma QueueTouched(s: State, step: Step, node: string)
    requires step.Next? || step.Complete? || step.RunNatter? || step.Tell?
    ensures !Drops(s, step, node)
    ensures Op.QueueOf(Do(s, step), node) ==
            match OnQueue(step, node)
            case None => Op.QueueOf(s, node)
            case Some(on) => CommandQueue.Apply(Op.QueueOf(s, node), on)
  {
    hide Op.QueueOf, Op.Deliver, Op.Complete, Op.Queue, CommandQueue.Deliver, CommandQueue.Complete, CommandQueue.Push;
    match step
    case RunNatter(target, cmd, now) => QueuePush(s, target, cmd, now, node);
    case Tell(from, b, lease, id, now) => QueuePush(s, b.clientNode, Op.ApplyCommand(id, b, lease), now, node);
    case Next(target) => QueueDeliver(s, target, node);
    case Complete(target, id, result) => QueueComplete(s, target, id, result, node);
  }

  lemma QueueAfter(s: State, step: Step, node: string)
    requires Sound(s) && Possible(s, step)
    ensures Op.QueueOf(Do(s, step), node) ==
            if Drops(s, step, node) then []
            else match OnQueue(step, node)
                 case None => Op.QueueOf(s, node)
                 case Some(on) => CommandQueue.Apply(Op.QueueOf(s, node), on)
  {
    hide Sound, Do, Possible, Drops, Op.QueueOf, CommandQueue.Apply;
    if step.Next? || step.Complete? || step.RunNatter? || step.Tell? {
      QueueTouched(s, step, node);
    } else {
      OtherQueues(s, step, node);
    }
  }

  lemma HandedAfterIs(s: State, step: Step, node: string, handed: seq<Command>)
    ensures HandedAfter(s, step, node, handed) ==
            if Drops(s, step, node) then []
            else
              var q := Op.QueueOf(s, node);
              var i := CommandQueue.FirstPending(q, 0);
              handed + if OnQueue(step, node) == Some(CommandQueue.NextStep) && i < |q| then [q[i].command] else []
  {
  }

  /** In any run each node's queue, and what the node was handed, are those of a single queue going through
      its own pushes, deliveries and completions since it was last dropped. */
  lemma {:induction false} QueueRefines(steps: seq<Step>, node: string)
    requires IsRun(EMPTY, steps)
    ensures Op.QueueOf(Exec(EMPTY, steps), node) == CommandQueue.Run([], QueueSteps(steps, node))
    ensures HandedTo(EMPTY, steps, node) == CommandQueue.HandedCommands([], QueueSteps(steps, node))
  {
    if steps != [] {
      var init, last := steps[..|steps| - 1], steps[|steps| - 1];
      QueueRefines(init, node);
      ReachableIsSound(init);
      hide Sound, Do, Possible, HandedAfter, Drops, OnQueue, Op.QueueOf, CommandQueue.Apply;
      hide CommandQueue.HandedCommands;
      var s, qs := Exec(EMPTY, init), QueueSteps(init, node);
      QueueAfter(s, last, node);
      HandedAfterIs(s, last, node, HandedTo(EMPTY, init, node));
      if Drops(s, last, node) {
        NothingHanded();
      } else if OnQueue(last, node).Some? {
        var on := OnQueue(last, node).value;
        CommandQueue.HandedCommandsStep([], qs, on);
        assert (qs + [on])[..|qs|] == qs;
      }
    } else {
      NothingHanded();
    }
  }

  lemma NothingHanded()
    ensures CommandQueue.HandedCommands([], []) == []
  {
  }

  /** A node is handed its queue in order, with only pending commands behind, exactly when no command of its
      was completed before it was handed out, since the queue was last dropped. */
  lemma DeliveryIsFifoIff(steps: seq<Step>, node: string)
    requires IsRun(EMPTY, steps)
    ensures CommandQueue.Fifo(Op.QueueOf(Exec(EMPTY, steps), node), HandedTo(EMPTY, steps, node)) <==>
            CommandQueue.CompletesDelivered([], QueueSteps(steps, node))
  {
    QueueRefines(steps, node);
    CommandQueue.FifoIffInOrder(QueueSteps(steps, node));
    CommandQueue.InOrderIff(QueueSteps(steps, node));
    hide *;
  }

  predicate Drained(q: seq<QueuedCommand>) {
    forall i :: 0 <= i < |q| ==> !q[i].status.Pending?
  }

  lemma DrainedHandsAll(q: seq<QueuedCommand>, handed: seq<Command>)
    requires CommandQueue.Fifo(q, handed) && Drained(q)
    ensures handed == CommandQueue.Commands(q)
  {
    CommandQueue.FirstPendingIs(q, |q|);
    assert q[..|q|] == q;
  }

  /** The client's queue is drained, and it was handed everything in it. */
  predicate Served(steps: seq<Step>, client: string) {
    Drained(Op.QueueOf(Exec(EMPTY, steps), client)) && CommandQueue.CompletesDelivered([], QueueSteps(steps, client))
  }

  /** End to end: for every stored endpoint, once its fan-out is done and its client's queue is drained by
      handing out, the last endpoint.apply handed to the client for the binding carries that endpoint. */
  lemma Converged(steps: seq<Step>, k: string)
    requires IsRun(EMPTY, steps) && ClearRun(EMPTY, steps)
    requires k in Exec(EMPTY, steps).endpoints
    ensures var t := Exec(EMPTY, steps);
            && k in t.bindings
            && LeaseSays(t.leases, t.bindings[k], t.endpoints[k])
            && var b := t.bindings[k];
               Landed(Flights(steps), SourceOf(b)) && Served(steps, b.clientNode) ==>
                 CommandSays(LastApply(HandedTo(EMPTY, steps, b.clientNode), k), k, b.clientIface, t.endpoints[k])
  {
    var t := Exec(EMPTY, steps);
    RunsStayCurrent(steps);
    assert Current(t, Flights(steps), k);
    var b := t.bindings[k];
    DeliveryIsFifoIff(steps, b.clientNode);
    if Landed(Flights(steps), SourceOf(b)) && Served(steps, b.clientNode) {
      LandedWaitsForNone(Flights(steps), SourceOf(b), k);
      DrainedHandsAll(Op.QueueOf(t, b.clientNode), HandedTo(EMPTY, steps, b.clientNode));
    }
  }
}
