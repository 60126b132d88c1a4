/** Bindings added by hand, as the command line adds them: not automatic, and of no domain. No pass rewrites or
    deletes them, and they never keep a desired binding out except by holding its id. */
module ByHand {
  import opened Model
  import opened Runs
  import Op = Operations
  import Rec = Reconciler
  import Boundaries

  predicate Manual(b: Binding) {
    !b.auto && b.domainID == ""
  }

  // ---------- They stay ----------

  /** The step neither adds `b`'s id again nor deletes one of its nodes. */
  predicate Leaves(step: Step, b: Binding) {
    match step
    case AddBinding(c, _) => c.id != b.id
    case Delete(node) => !Op.Touches(b, node)
    case _ => true
  }

  predicate AllLeave(steps: seq<Step>, b: Binding) {
    forall i :: 0 <= i < |steps| ==> Leaves(steps[i], b)
  }

  /** The entry is there, and an endpoint stored for it still is. */
  predicate Keeps(s: State, t: State, k: string) {
    && k in s.bindings && k in t.bindings && t.bindings[k] == s.bindings[k]
    && (k in s.endpoints ==> k in t.endpoints)
  }

  lemma PassKeepsManual(s: State, order: seq<Binding>, k: string)
    requires SoundBindings(s.bindings) && Rec.Enumerates(order, s) && k in s.bindings && Manual(s.bindings[k])
    ensures Keeps(s, Rec.Reconcile(s, order), k)
  {
    Rec.PlaceAllFrame(s.bindings, order);
    hide Rec.PlaceAll, Rec.Enumerates, Rec.AutoID;
  }

  lemma DeletionKeeps(s: State, node: string, k: string)
    requires k in s.bindings && !Op.Touches(s.bindings[k], node)
    ensures Keeps(s, Op.DeleteNode(s, node), k)
  {
    if node != "" && node in s.nodes {
      DeleteFrame(s, node);
      hide Op.DeleteNode;
    }
  }

  lemma AdditionKeeps(s: State, b: Binding, now: string, k: string)
    requires k in s.bindings && b.id != k
    ensures Keeps(s, Op.AddBinding(s, b, now), k)
  {
    AddBindingFrame(s, b, now);
    hide Op.AddBinding;
  }

  lemma ApprovalKeeps(s: State, node: string, a: Op.Approval, single: string, now: string, k: string)
    requires k in s.bindings
    ensures Keeps(s, Op.Approve(s, node, a, single, now), k)
  {
    if Op.ApproveError(s, node, a, single).None? {
      ApproveFrame(s, node, a, single, now);
      hide Op.Approve, Op.ApproveError;
      assert Keeps(s, Op.Approve(s, node, a, single, now), k);
    }
  }

  lemma LeaseKeeps(s: State, node: string, lease: Lease, now: string, k: string)
    requires k in s.bindings
    ensures Keeps(s, Op.SaveLease(s, node, lease, now), k)
  {
    SaveLeaseFrame(s, node, lease, now);
    hide Op.SaveLease;
  }

  lemma QuietKeeps(s: State, step: Step, k: string)
    requires Sound(s) && IsQuiet(step) && k in s.bindings
    ensures Keeps(s, Do(s, step), k)
  {
    QuietFrame(s, step);
    hide Do, Sound;
  }

  /** Passes, additions and deletions apart, no step drops or rewrites any binding. */
  lemma OthersKeepBindings(s: State, step: Step, k: string)
    requires Sound(s) && k in s.bindings && !step.Reconcile? && !step.AddBinding? && !step.Delete?
    ensures Keeps(s, Do(s, step), k)
  {
    hide SoundNodes, SoundMembers, SoundRows, SoundDomains, SoundBindings, Keeps;
    if IsQuiet(step) {
      QuietKeeps(s, step, k);
    } else {
      match step
      case Approve(node, a, single, now) => ApprovalKeeps(s, node, a, single, now, k);
      case SaveLease(node, lease, matched, now) => LeaseKeeps(s, node, lease, now, k);
    }
  }

  lemma EntryKey(bindings: map<string, Binding>, k: string)
    requires SoundBindings(bindings) && k in bindings
    ensures bindings[k].id == k
  {
  }

  lemma StepKeepsManual(s: State, step: Step, k: string)
    requires Sound(s) && Possible(s, step) && k in s.bindings && Manual(s.bindings[k]) && Leaves(step, s.bindings[k])
    ensures Keeps(s, Do(s, step), k)
  {
    hide SoundNodes, SoundMembers, SoundRows, SoundDomains, SoundBindings, Op.Touches, Keeps, Manual;
    EntryKey(s.bindings, k);
    if !step.Reconcile? && !step.AddBinding? && !step.Delete? {
      OthersKeepBindings(s, step, k);
    } else {
      match step
      case Reconcile(order) => PassKeepsManual(s, order, k);
      case Delete(node) => DeletionKeeps(s, node, k);
      case AddBinding(b, now) => AdditionKeeps(s, b, now, k);
    }
  }

  /** Over every run that does not add its id again nor delete one of its nodes, such an entry stays exactly as it
      is, whatever passes and other requests come in between, and keeps having an endpoint if it has one. */
  lemma {:induction false} RunKeepsManual(s: State, steps: seq<Step>, k: string)
    requires Sound(s) && IsRun(s, steps) && k in s.bindings && Manual(s.bindings[k]) && AllLeave(steps, s.bindings[k])
    ensures Sound(Exec(s, steps)) && Keeps(s, Exec(s, steps), k)
  {
    if steps != [] {
      var init, last := steps[..|steps| - 1], steps[|steps| - 1];
      assert AllLeave(init, s.bindings[k]) by {
        assert forall i :: 0 <= i < |init| ==> init[i] == steps[i];
      }
      RunKeepsManual(s, init, k);
      assert Leaves(last, s.bindings[k]);
      hide Sound, Do, Possible, Leaves, AllLeave;
      StepKeepsManual(Exec(s, init), last, k);
      SoundStep(Exec(s, init), last);
    }
  }

  /** The record the store keeps of an added binding. */
  function Stored(b: Binding): Binding {
    ClearEndpoint(DefaultBindingFields(b)).(enabled := true)
  }

  /** In particular from the empty store: what is added by hand is there unchanged, whatever was done before and
      is done after. */
  lemma AddedStays(before: seq<Step>, b: Binding, now: string, after: seq<Step>)
    requires Manual(b) && AllLeave(after, b)
    requires IsRun(EMPTY, before + [AddBinding(b, now)] + after)
    ensures var t := Exec(EMPTY, before + [AddBinding(b, now)] + after);
            b.id in t.bindings && t.bindings[b.id] == Stored(b)
  {
    var add := AddBinding(b, now);
    ExecConcat(EMPTY, before + [add], after);
    ExecConcat(EMPTY, before, [add]);
    ReachableIsSound(before + [add]);
    var s := Exec(EMPTY, before + [add]);
    assert [add][..0] == [];
    assert s == Op.AddBinding(Exec(EMPTY, before), b, now);
    assert s.bindings[b.id] == Stored(b);
    assert AllLeave(after, s.bindings[b.id]) by {
      assert forall step :: Leaves(step, s.bindings[b.id]) <==> Leaves(step, b);
    }
    hide Sound, IsRun, Exec, Stored, AllLeave;
    RunKeepsManual(s, after, b.id);
  }

  // ---------- They keep nothing out ----------

  /** Every entry that is not automatic is of no domain. */
  predicate AllManual(bindings: map<string, Binding>) {
    forall k :: k in bindings && !bindings[k].auto ==> bindings[k].domainID == ""
  }

  predicate ManualStep(step: Step) {
    step.AddBinding? ==> Manual(step.b)
  }

  predicate ManualSteps(steps: seq<Step>) {
    forall i :: 0 <= i < |steps| ==> ManualStep(steps[i])
  }

  lemma PassKeepsAllManual(s: State, order: seq<Binding>)
    requires AllManual(s.bindings) && Rec.Enumerates(order, s)
    ensures AllManual(Rec.Reconcile(s, order).bindings)
  {
    var t := Rec.Reconcile(s, order);
    Rec.DesiredIsDerived(s);
    hide Rec.Reconcile, Rec.Desired, Rec.AutoID;
    forall k | k in t.bindings && !t.bindings[k].auto ensures t.bindings[k].domainID == "" {
      Rec.Reconciled(s, order, k);
    }
  }

  lemma StepKeepsAllManual(s: State, step: Step)
    requires Sound(s) && Possible(s, step) && ManualStep(step) && AllManual(s.bindings)
    ensures AllManual(Do(s, step).bindings)
  {
    hide SoundNodes, SoundMembers, SoundBindings, SoundRows, SoundDomains;
    if IsQuiet(step) {
      QuietFrame(s, step);
    } else {
      match step
      case Reconcile(order) => PassKeepsAllManual(s, order);
      case Delete(node) =>
        if node != "" && node in s.nodes {
          DeleteFrame(s, node);
        }
      case Approve(node, a, single, now) =>
        if Op.ApproveError(s, node, a, single).None? {
          ApproveFrame(s, node, a, single, now);
        }
      case AddBinding(b, now) =>
        AddBindingFrame(s, b, now);
        assert Op.AddBinding(s, b, now).bindings[b.id].domainID == b.domainID;
        hide Op.AddBinding;
      case SaveLease(node, lease, matched, now) => SaveLeaseFrame(s, node, lease, now);
    }
  }

  lemma {:induction false} RunIsManual(steps: seq<Step>)
    requires IsRun(EMPTY, steps) && ManualSteps(steps)
    ensures AllManual(Exec(EMPTY, steps).bindings)
  {
    if steps != [] {
      var init, last := steps[..|steps| - 1], steps[|steps| - 1];
      assert ManualSteps(init) by {
        assert forall i :: 0 <= i < |init| ==> init[i] == steps[i];
      }
      RunIsManual(init);
      ReachableIsSound(init);
      assert ManualStep(last);
      hide Sound, Do, Possible, AllManual, ManualStep;
      StepKeepsAllManual(Exec(EMPTY, init), last);
    }
  }

  lemma DesiredHasDomain(s: State, d: Binding)
    requires d in Rec.Desired(s)
    ensures d.domainID != ""
  {
    var km, kc, ks, kw := Rec.DesiredSupport(s, d);
  }

  /** No entry stands in for a missing desired binding. */
  lemma NeverCovered(s: State, d: Binding)
    requires SoundBindings(s.bindings) && AllManual(s.bindings) && d in Rec.Desired(s)
    ensures !Rec.ManuallyCovered(s.bindings, d)
    ensures d.id !in s.bindings ==> !Rec.Covered(s.bindings, d)
  {
    DesiredHasDomain(s, d);
    Rec.DesiredIsDerived(s);
    assert Rec.Derived(d);
    hide Rec.Desired;
    forall k | k in s.bindings && Rec.SameSix(s.bindings[k], d) ensures s.bindings[k].auto && k == d.id {
      Rec.SameSixSameID(s.bindings[k], d);
    }
  }

  /** A desired binding cannot get in exactly when its id was taken by hand. */
  lemma InertIff(s: State, d: Binding)
    requires SoundBindings(s.bindings) && AllManual(s.bindings) && d in Rec.Desired(s)
    ensures Rec.Inert(s.bindings, d) <==> d.id in s.bindings && !s.bindings[d.id].auto
  {
    NeverCovered(s, d);
    hide Rec.Desired, Rec.ManuallyCovered, SoundBindings, AllManual;
  }

  /** After a pass the table holds every entry added by hand as it was, and an entry under the id of every desired
      binding: that entry is one of the desired bindings of that id, or was added by hand. */
  ghost predicate Complete(s: State, t: State) {
    && (forall k :: k in s.bindings && !s.bindings[k].auto ==> k in t.bindings && t.bindings[k] == s.bindings[k])
    && (forall d :: d in Rec.Desired(s) ==> Holds(s, t, d.id))
    && (forall k :: k in s.bindings && k !in t.bindings ==> s.bindings[k].auto && k !in Rec.DesiredIds(s))
  }

  ghost predicate Holds(s: State, t: State, k: string) {
    && k in t.bindings
    && if t.bindings[k].auto then exists d :: Stands(s, t, k, d) else k in s.bindings && !s.bindings[k].auto
  }

  ghost predicate Stands(s: State, t: State, k: string, d: Binding) {
    d in Rec.Desired(s) && d.id == k && k in t.bindings && Rec.BindingsEqual(t.bindings[k], d)
  }

  lemma PassHolds(s: State, order: seq<Binding>, d: Binding)
    requires SoundBindings(s.bindings) && AllManual(s.bindings) && Rec.Enumerates(order, s) && d in Rec.Desired(s)
    ensures Holds(s, Rec.Reconcile(s, order), d.id)
  {
    var t, k := Rec.Reconcile(s, order), d.id;
    Rec.DesiredIsDerived(s);
    NeverCovered(s, d);
    Rec.AfterPassSatisfied(s, order, d);
    NeverCoveredAfter(s, order, d);
    Rec.Reconciled(s, order, k);
    if t.bindings[k].auto {
      assert k in Rec.IdsOf(order) by {
        assert d in Rec.Elements(order);
      }
      assert t.bindings[k] == Rec.PlaceAll(s.bindings, order)[k];
      var e := Rec.PlaceAllReflects(s.bindings, order, k);
      assert e in Rec.Elements(order);
      assert Stands(s, t, k, e);
    }
  }

  lemma NeverCoveredAfter(s: State, order: seq<Binding>, d: Binding)
    requires AllManual(s.bindings) && Rec.Enumerates(order, s) && d in Rec.Desired(s)
    ensures !Rec.ManuallyCovered(Rec.Reconcile(s, order).bindings, d)
  {
    DesiredHasDomain(s, d);
    PassKeepsAllManual(s, order);
    hide Rec.Reconcile, Rec.Enumerates, Rec.Desired;
  }

  lemma PassDeletes(s: State, order: seq<Binding>, k: string)
    requires SoundBindings(s.bindings) && AllManual(s.bindings) && Rec.Enumerates(order, s)
    requires k in s.bindings && k !in Rec.Reconcile(s, order).bindings
    ensures s.bindings[k].auto && k !in Rec.DesiredIds(s)
  {
    Boundaries.DeletedIff(s, order, k);
    hide Rec.Reconcile, Rec.Enumerates, Rec.DesiredIds, Rec.MatchesMembers, SoundBindings;
  }

  lemma PassCompletes(s: State, order: seq<Binding>)
    requires SoundBindings(s.bindings) && AllManual(s.bindings) && Rec.Enumerates(order, s)
    ensures Complete(s, Rec.Reconcile(s, order))
  {
    hide SoundBindings, AllManual, Rec.Enumerates, Rec.Reconcile, Rec.Desired, Rec.DesiredIds, Holds;
    var t := Rec.Reconcile(s, order);
    forall k | k in s.bindings && !s.bindings[k].auto ensures k in t.bindings && t.bindings[k] == s.bindings[k] {
      assert Manual(s.bindings[k]) by { IsManual(s.bindings, k); }
      PassKeepsManual(s, order, k);
    }
    forall d | d in Rec.Desired(s) ensures Holds(s, t, d.id) {
      PassHolds(s, order, d);
    }
    forall k | k in s.bindings && k !in t.bindings ensures s.bindings[k].auto && k !in Rec.DesiredIds(s) {
      PassDeletes(s, order, k);
    }
  }

  lemma IsManual(bindings: map<string, Binding>, k: string)
    requires AllManual(bindings) && k in bindings && !bindings[k].auto
    ensures Manual(bindings[k])
  {
  }

  /** So in every state reached with bindings added as the command line does, a pass creates every missing desired
      binding, and rewrites and deletes none that was added by hand. */
  lemma RunsComplete(steps: seq<Step>, order: seq<Binding>)
    requires IsRun(EMPTY, steps) && ManualSteps(steps) && Rec.Enumerates(order, Exec(EMPTY, steps))
    ensures var s := Exec(EMPTY, steps);
            && Complete(s, Rec.Reconcile(s, order))
            && (forall d :: d in Rec.Desired(s) ==>
                  !Rec.ManuallyCovered(s.bindings, d) && (d.id !in s.bindings ==> !Rec.Covered(s.bindings, d)))
  {
    var s := Exec(EMPTY, steps);
    RunIsManual(steps);
    ReachableIsSound(steps);
    hide Exec, IsRun, SoundBindings, AllManual, ManualSteps, Complete, Rec.Covered, Rec.ManuallyCovered, Rec.Enumerates;
    hide Rec.Reconcile, Rec.Desired;
    PassCompletes(s, order);
    forall d | d in Rec.Desired(s)
      ensures !Rec.ManuallyCovered(s.bindings, d) && (d.id !in s.bindings ==> !Rec.Covered(s.bindings, d))
    {
      NeverCovered(s, d);
    }
  }
}
