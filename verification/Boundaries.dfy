/** What holds between requests: automatic bindings agree with memberships, and neither bindings
    nor endpoints are lost to gaps in the reported inventory. */
module Boundaries {
  import opened Model
  import opened Runs
  import Names
  import Op = Operations
  import Rec = Reconciler
  import Disk = Persistence

  /** Every automatic binding names a server membership with that role on its server interface, and a
      client membership with that role on its client interface. */
  predicate AutoMatches(s: State) {
    forall k :: k in s.bindings && s.bindings[k].auto ==> Rec.MatchesMembers(s.bindings[k], s.members)
  }

  lemma DesiredMatches(s: State, d: Binding)
    requires SoundMembers(s.nodes, s.domains, s.members) && d in Rec.Desired(s)
    ensures Rec.MatchesMembers(d, s.members)
  {
    var km, kc, ks, kw := Rec.DesiredSupport(s, d);
    assert SoundMember(s.nodes, s.domains, km, s.members[km]);
    assert SoundMember(s.nodes, s.domains, kc, s.members[kc]);
    Rec.DerivedMatches(s.members, km, kc, s.inventory[ks], s.inventory[kw]);
  }

  lemma EqualMatches(a: Binding, b: Binding, members: map<string, DomainMember>)
    requires Rec.BindingsEqual(a, b) && Rec.MatchesMembers(b, members)
    ensures Rec.MatchesMembers(a, members)
  {
  }

  /** One pass is enough: afterwards every automatic binding agrees with the memberships, whatever the
      table held before and whether or not ids collide. */
  lemma ReconcileSettles(s: State, order: seq<Binding>)
    requires SoundMembers(s.nodes, s.domains, s.members) && Rec.Enumerates(order, s)
    ensures AutoMatches(Rec.Reconcile(s, order))
  {
    Rec.DesiredIsDerived(s);
    var placed := Rec.PlaceAll(s.bindings, order);
    var t := Rec.Reconcile(s, order);
    forall k | k in t.bindings && t.bindings[k].auto ensures Rec.MatchesMembers(t.bindings[k], t.members) {
      if k in Rec.IdsOf(order) {
        var d := Rec.PlaceAllReflects(s.bindings, order, k);
        assert d in Rec.Elements(order);
        DesiredMatches(s, d);
        EqualMatches(placed[k], d, s.members);
      }
    }
  }

  /** No membership has changed since the last pass, as far as the steps show: every handler that approves
      or deletes a node reconciles before it answers. */
  predicate Settled(steps: seq<Step>) {
    steps != [] ==>
      match steps[|steps| - 1]
      case Approve(_, _, _, _) => false
      case Delete(_) => false
      case Reconcile(_) => true
      case _ => Settled(steps[..|steps| - 1])
  }

  lemma OtherStepsKeepAutoMatches(s: State, step: Step)
    requires Sound(s) && Possible(s, step) && AutoMatches(s)
    requires !step.Approve? && !step.Delete? && !step.Reconcile?
    ensures AutoMatches(Do(s, step))
  {
    hide Rec.MatchesMembers, SoundNodes, SoundMembers, SoundBindings, SoundRows, SoundDomains;
    match step
    case AddBinding(b, now) =>
      AddBindingFrame(s, b, now);
      hide Op.AddBinding;
    case SaveLease(node, lease, matched, now) =>
      SaveLeaseFrame(s, node, lease, now);
      hide Op.SaveLease;
    case _ =>
      QuietFrame(s, step);
      hide Do;
  }

  /** In every state a run reaches, whatever interleaving of requests it is: once a pass has followed the
      last approval or deletion, every automatic binding names a server membership with that role on its
      interface and a client membership with that role on its interface. */
  lemma {:induction false} SettledRunsMatch(steps: seq<Step>)
    requires IsRun(EMPTY, steps) && Settled(steps)
    ensures AutoMatches(Exec(EMPTY, steps))
  {
    if steps != [] {
      var init, last := steps[..|steps| - 1], steps[|steps| - 1];
      ReachableIsSound(init);
      hide Sound, AutoMatches, Do;
      match last
      case Reconcile(order) => SettledByReconcile(Exec(EMPTY, init), order);
      case Approve(_, _, _, _) =>
      case Delete(_) =>
      case _ =>
        SettledRunsMatch(init);
        OtherStepsKeepAutoMatches(Exec(EMPTY, init), last);
    } else {
      assert AutoMatches(EMPTY);
    }
  }

  lemma SettledByReconcile(s: State, order: seq<Binding>)
    requires Sound(s) && Possible(s, Reconcile(order))
    ensures AutoMatches(Do(s, Reconcile(order)))
  {
    hide SoundMembers, AutoMatches;
    ReconcileSettles(s, order);
  }

  /** Whenever a run stops, reopening what it saved resumes exactly where it was. */
  lemma RestartResumes(steps: seq<Step>, now: string, t: State)
    requires IsRun(EMPTY, steps)
    requires var s := Exec(EMPTY, steps); Disk.Opened(Disk.SavedData(s), Disk.SavedRuntime(s), now, t)
    ensures t == Exec(EMPTY, steps)
  {
    var s := Exec(EMPTY, steps);
    ReachableIsSound(steps);
    hide SoundMembers, SoundRows, SoundDomains, Exec, IsRun, Disk.Opened;
    assert Disk.CleanNodes(s.nodes) && Disk.CleanBindings(s.bindings);
    Disk.RestartTransparentIff(s, now, t);
  }

  // ---------- Gaps in the inventory ----------

  /** A binding the second reconcile loop cannot delete while memberships stay as they are. */
  predicate Kept(s: State, k: string) {
    k in s.bindings && (Rec.AutoClass(s.bindings[k]) ==> Rec.MatchesMembers(s.bindings[k], s.members))
  }

  /** Placing keeps a kept binding kept: what replaces it is desired, so memberships back it. */
  lemma PlacingKeeps(s: State, order: seq<Binding>, k: string)
    requires SoundMembers(s.nodes, s.domains, s.members) && Rec.Enumerates(order, s) && Kept(s, k)
    ensures var placed := Rec.PlaceAll(s.bindings, order);
            && k in placed && (Rec.AutoClass(placed[k]) ==> Rec.MatchesMembers(placed[k], s.members))
            && placed[k].auto == s.bindings[k].auto
  {
    Rec.DesiredIsDerived(s);
    Rec.PlaceAllFrame(s.bindings, order);
    hide Rec.PlaceAll, Rec.AutoClass, Rec.MatchesMembers, SoundMembers, Rec.Desired;
    var placed := Rec.PlaceAll(s.bindings, order);
    if placed[k] != s.bindings[k] {
      assert placed[k] in Rec.Elements(order);
      DesiredMatches(s, placed[k]);
    }
  }

  lemma ReconcileKeeps(s: State, order: seq<Binding>, k: string)
    requires SoundMembers(s.nodes, s.domains, s.members) && Rec.Enumerates(order, s) && Kept(s, k)
    ensures var t := Rec.Reconcile(s, order);
            && Kept(t, k)
            && t.bindings[k].auto == s.bindings[k].auto
            && (k in s.endpoints ==> k in t.endpoints && t.endpoints[k] == s.endpoints[k])
  {
    PlacingKeeps(s, order, k);
    hide Rec.PlaceAll, Rec.AutoClass, Rec.MatchesMembers, SoundMembers, Rec.Enumerates;
  }

  /** A binding of a domain, complete, under the cleaned id of its own names. */
  predicate CarriesOwnID(b: Binding) {
    && b.domainID != "" && b.serverNode != "" && b.serverIface != "" && b.clientNode != "" && b.clientIface != ""
    && b.id == Names.CleanID(b.domainID + "-" + b.serverNode + "-" + b.serverIface + "-to-" +
                             b.clientNode + "-" + b.clientIface)
  }

  /** Exactly which bindings a pass deletes, marked automatic or not: those that are automatic or carry
      their own automatic id, are not desired, and are not backed by memberships. */
  lemma DeletedIff(s: State, order: seq<Binding>, k: string)
    requires Rec.Enumerates(order, s) && k in s.bindings
    ensures k !in Rec.Reconcile(s, order).bindings <==>
            && (s.bindings[k].auto || CarriesOwnID(s.bindings[k]))
            && k !in Rec.DesiredIds(s) && !Rec.MatchesMembers(s.bindings[k], s.members)
  {
    OwnIDIff(s.bindings[k]);
    Rec.PlaceAllFrame(s.bindings, order);
    assert forall d :: d in order <==> d in Rec.Elements(order);
    assert Rec.IdsOf(order) == Rec.DesiredIds(s);
  }

  lemma OwnIDIff(b: Binding)
    ensures Rec.IsAutoBindingID(b) <==> CarriesOwnID(b)
  {
    hide Names.CleanID;
  }

  /** A stored endpoint goes with its binding and only with it. */
  lemma EndpointDroppedIff(s: State, order: seq<Binding>, k: string)
    requires SoundBindings(s.bindings) && Rec.Enumerates(order, s) && k in s.endpoints && k in s.bindings
    ensures k !in Rec.Reconcile(s, order).endpoints <==> k !in Rec.Reconcile(s, order).bindings
  {
    Rec.PlaceAllFrame(s.bindings, order);
  }

  /** Steps that leave memberships alone and do not re-add a known binding id. */
  predicate GapStep(s: State, step: Step) {
    match step
    case Approve(_, _, _, _) => false
    case Delete(_) => false
    case AddBinding(b, _) => b.id !in s.bindings
    case _ => true
  }

  ghost predicate GapRun(s: State, steps: seq<Step>) {
    steps != [] ==>
      var before := Exec(s, steps[..|steps| - 1]);
      && GapRun(s, steps[..|steps| - 1])
      && Possible(before, steps[|steps| - 1]) && GapStep(before, steps[|steps| - 1])
  }

  lemma GapStepKeeps(s: State, step: Step, k: string)
    requires Sound(s) && Possible(s, step) && GapStep(s, step) && Kept(s, k)
    ensures var t := Do(s, step);
            && Kept(t, k)
            && t.bindings[k].auto == s.bindings[k].auto
            && (k in s.endpoints ==> k in t.endpoints)
  {
    hide Rec.AutoClass, Rec.MatchesMembers, SoundNodes, SoundMembers, SoundBindings, SoundRows, SoundDomains;
    match step
    case Reconcile(order) => ReconcileKeeps(s, order, k);
    case AddBinding(b, now) =>
      AddBindingFrame(s, b, now);
      hide Op.AddBinding;
    case SaveLease(node, lease, matched, now) =>
      SaveLeaseFrame(s, node, lease, now);
      hide Do, Op.SaveLease;
    case _ => QuietKeeps(s, step, k);
  }

  lemma QuietKeeps(s: State, step: Step, k: string)
    requires Sound(s) && IsQuiet(step) && Kept(s, k)
    ensures var t := Do(s, step);
            Kept(t, k) && t.bindings[k].auto == s.bindings[k].auto && (k in s.endpoints ==> k in t.endpoints)
  {
    QuietFrame(s, step);
    hide Do, Sound, Rec.AutoClass, Rec.MatchesMembers;
  }

  /** Over every run of such steps, no kept binding disappears, no automatic binding stops being one,
      and no endpoint of a kept binding is lost, however the inventory comes and goes. */
  lemma {:induction false} GapRunKeeps(s: State, steps: seq<Step>, k: string)
    requires Sound(s) && GapRun(s, steps) && Kept(s, k)
    ensures var t := Exec(s, steps);
            && Sound(t) && Kept(t, k)
            && t.bindings[k].auto == s.bindings[k].auto
            && (k in s.endpoints ==> k in t.endpoints)
  {
    if steps != [] {
      var init := steps[..|steps| - 1];
      GapRunKeeps(s, init, k);
      GapStepKeeps(Exec(s, init), steps[|steps| - 1], k);
      SoundStep(Exec(s, init), steps[|steps| - 1]);
    }
  }

  /** In particular the automatic ids of a settled state never shrink. */
  lemma AutoIdsNeverShrink(s: State, steps: seq<Step>)
    requires Sound(s) && AutoMatches(s) && GapRun(s, steps)
    ensures forall k :: k in s.bindings && s.bindings[k].auto ==>
              k in Exec(s, steps).bindings && Exec(s, steps).bindings[k].auto
  {
    forall k | k in s.bindings && s.bindings[k].auto
      ensures k in Exec(s, steps).bindings && Exec(s, steps).bindings[k].auto
    {
      GapRunKeeps(s, steps, k);
    }
  }

  /** An entry that is not marked automatic is deleted as well, if it has a domain and carries the automatic id of
      its own names: the store's method can be handed one, and a state file can hold one. */
  lemma ManualAutoNamedIsDeleted(s: State, b: Binding, now: string, order: seq<Binding>)
    requires CarriesOwnID(b)
    requires b.id !in Rec.DesiredIds(s) && !Rec.MatchesMembers(b, s.members)
    requires Rec.Enumerates(order, Op.AddBinding(s, b, now))
    ensures b.id !in Rec.Reconcile(Op.AddBinding(s, b, now), order).bindings
  {
    var t := Op.AddBinding(s, b, now);
    assert Rec.WorldOf(t) == Rec.WorldOf(s);
    DeletedIff(t, order, b.id);
  }
}
