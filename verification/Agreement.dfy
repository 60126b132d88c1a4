/** Exactly which steps keep stored endpoints in agreement with leases and clients, among those that change
    bindings without looking at leases: a reconcile pass, and a binding added by hand. */
module Agreement {
  import opened Model
  import opened Runs
  import Op = Operations
  import Rec = Reconciler
  import Loops = LoopOrders
  import Conv = Convergence

  // ---------- A pass ----------

  /** The endpoint stored under a desired binding's id, where an automatic entry holds it, is current for that
      binding as well. */
  ghost predicate Fits(s: State, fl: Conv.Air, d: Binding) {
    d.id in s.endpoints && d.id in s.bindings && s.bindings[d.id].auto ==>
      Conv.CurrentFor(s, fl, d.id, d, s.endpoints[d.id])
  }

  ghost predicate AllFit(s: State, fl: Conv.Air) {
    forall d :: d in Rec.Desired(s) ==> Fits(s, fl, d)
  }

  lemma FittingPass(s: State, fl: Conv.Air, order: seq<Binding>, k: string)
    requires SoundBindings(s.bindings) && s.endpoints.Keys <= s.bindings.Keys && Conv.AllCurrent(s, fl)
    requires Rec.Enumerates(order, s) && AllFit(s, fl) && k in Rec.Reconcile(s, order).endpoints
    ensures Conv.Current(Rec.Reconcile(s, order), fl, k)
  {
    var t := Rec.Reconcile(s, order);
    ReconcileFrame(s, order);
    Conv.ReconcileOnlyBindings(s, order);
    hide SoundBindings, Conv.CurrentFor, Rec.Enumerates, Rec.Reconcile, Rec.Desired;
    assert Conv.Current(s, fl, k);
    Rec.Reconciled(s, order, k);
    Conv.CurrentForFrame(s, t, fl, k, t.bindings[k], t.endpoints[k]);
    assert t.bindings[k] in Rec.Desired(s) ==> Fits(s, fl, t.bindings[k]);
  }

  lemma EqualRoutes(a: Binding, b: Binding)
    requires Rec.BindingsEqual(a, b)
    ensures Conv.SameRoute(a, b)
  {
  }

  /** A pass never drops the endpoint of an id that is desired. */
  lemma DesiredKeepsEndpoint(s: State, order: seq<Binding>, d: Binding)
    requires Rec.Enumerates(order, s) && d in Rec.Desired(s) && d.id in s.endpoints
    ensures d.id in Rec.Reconcile(s, order).endpoints
  {
    assert d in order by { assert d in Rec.Elements(order); }
    assert d.id in Rec.IdsOf(order);
    hide Rec.PlaceAll, Rec.Desired, Rec.AutoClass, Rec.MatchesMembers;
  }

  /** Placed last, a desired binding takes over the automatic entry under its id. */
  lemma TakesOver(s: State, order: seq<Binding>, d: Binding)
    requires Rec.KeyedTable(s.bindings) && Rec.Enumerates(order, s) && Loops.EndsIn(order, d) && d in Rec.Desired(s)
    requires d.id in s.bindings && s.bindings[d.id].auto
    ensures var t := Rec.Reconcile(s, order);
            d.id in t.bindings && Conv.SameRoute(t.bindings[d.id], d)
  {
    assert order[..|order| - 1] + [d] == order;
    assert !Rec.Inert(s.bindings, d);
    hide Rec.KeyedTable, Rec.Inert, Rec.Enumerates, Rec.Desired, Rec.Reconcile, Rec.BindingsEqual, Conv.SameRoute;
    Rec.EndsUpAs(s, order[..|order| - 1], d, d);
    EqualRoutes(Rec.Reconcile(s, order).bindings[d.id], d);
  }

  lemma TableIsKeyed(bindings: map<string, Binding>)
    requires SoundBindings(bindings)
    ensures Rec.KeyedTable(bindings)
  {
  }

  /** Where a desired binding does not fit, the loops can run in an order that leaves it there. */
  lemma MisfitBreaks(s: State, fl: Conv.Air, d: Binding) returns (order: seq<Binding>)
    requires SoundBindings(s.bindings) && d in Rec.Desired(s) && !Fits(s, fl, d)
    ensures Loops.LoopOrder(s, order) && !Conv.AllCurrent(Rec.Reconcile(s, order), fl)
  {
    hide Loops.LoopOrder, Loops.EndsIn, Rec.Enumerates, Rec.Desired, Rec.Reconcile, Rec.KeyedTable, SoundBindings;
    order := Loops.LoopOrderEndingIn(s, d);
    Loops.LoopOrderEnumerates(s, order);
    var t, k := Rec.Reconcile(s, order), d.id;
    TableIsKeyed(s.bindings);
    TakesOver(s, order, d);
    DesiredKeepsEndpoint(s, order, d);
    hide Conv.CurrentFor, Conv.SameRoute;
    Conv.ReconcileOnlyBindings(s, order);
    Conv.CurrentForFrame(s, t, fl, k, d, t.endpoints[k]);
    Conv.RouteDecides(t, fl, k, t.bindings[k], d, t.endpoints[k]);
    assert !Conv.Current(t, fl, k);
  }

  /** A pass keeps every stored endpoint current, in whatever order its loops run, exactly when the endpoints
      fit the desired bindings that meet them. */
  lemma PassKeepsCurrentIff(s: State, fl: Conv.Air)
    requires SoundBindings(s.bindings) && s.endpoints.Keys <= s.bindings.Keys && Conv.AllCurrent(s, fl)
    ensures (forall order :: Loops.LoopOrder(s, order) ==> Conv.AllCurrent(Rec.Reconcile(s, order), fl)) <==>
            AllFit(s, fl)
  {
    hide Loops.LoopOrder, Rec.Enumerates, Rec.Desired, Rec.Reconcile, Conv.Current, Fits, SoundBindings;
    if AllFit(s, fl) {
      forall order | Loops.LoopOrder(s, order) ensures Conv.AllCurrent(Rec.Reconcile(s, order), fl) {
        Loops.LoopOrderEnumerates(s, order);
        forall k | k in Rec.Reconcile(s, order).endpoints ensures Conv.Current(Rec.Reconcile(s, order), fl, k) {
          FittingPass(s, fl, order, k);
        }
      }
    } else {
      var d :| d in Rec.Desired(s) && !Fits(s, fl, d);
      var order := MisfitBreaks(s, fl, d);
    }
  }

  // ---------- A binding added by hand ----------

  /** The endpoint that will be stored under the binding's id, if any, is current for it. */
  predicate AddFits(s: State, fl: Conv.Air, b: Binding, now: string) {
    if Op.GivesEndpoint(b) then Conv.CurrentFor(s, fl, b.id, b, Endpoint(b.endpointHost, b.endpointPort, now))
    else b.id in s.endpoints ==> Conv.CurrentFor(s, fl, b.id, b, s.endpoints[b.id])
  }

  lemma CurrentForBindings(s: State, t: State, fl: Conv.Air, k: string, b: Binding, e: Endpoint)
    requires t == s.(bindings := t.bindings, endpoints := t.endpoints)
    ensures Conv.CurrentFor(t, fl, k, b, e) == Conv.CurrentFor(s, fl, k, b, e)
  {
  }

  lemma AddedUnderItsId(s: State, b: Binding, now: string)
    ensures var t := Op.AddBinding(s, b, now);
            && b.id in t.bindings && Conv.SameRoute(t.bindings[b.id], b)
            && (b.id in t.endpoints <==> Op.GivesEndpoint(b) || b.id in s.endpoints)
            && (b.id in t.endpoints ==>
                  t.endpoints[b.id] == if Op.GivesEndpoint(b) then Endpoint(b.endpointHost, b.endpointPort, now)
                                       else s.endpoints[b.id])
  {
  }

  lemma AddedCurrentIff(s: State, fl: Conv.Air, b: Binding, now: string)
    ensures var t := Op.AddBinding(s, b, now);
            (b.id in t.endpoints ==> Conv.Current(t, fl, b.id)) <==> AddFits(s, fl, b, now)
  {
    var t, k := Op.AddBinding(s, b, now), b.id;
    AddBindingFrame(s, b, now);
    AddedUnderItsId(s, b, now);
    hide Op.AddBinding, Conv.CurrentFor, Conv.SameRoute;
    if k in t.endpoints {
      CurrentForBindings(s, t, fl, k, b, t.endpoints[k]);
      Conv.RouteDecides(t, fl, k, t.bindings[k], b, t.endpoints[k]);
    }
  }

  lemma OthersStayCurrent(s: State, fl: Conv.Air, b: Binding, now: string, k: string)
    requires Conv.AllCurrent(s, fl) && k != b.id && k in Op.AddBinding(s, b, now).endpoints
    ensures Conv.Current(Op.AddBinding(s, b, now), fl, k)
  {
    var t := Op.AddBinding(s, b, now);
    AddBindingFrame(s, b, now);
    hide Op.AddBinding, Conv.CurrentFor;
    assert Conv.Current(s, fl, k);
    CurrentForBindings(s, t, fl, k, t.bindings[k], t.endpoints[k]);
  }

  /** Adding a binding by hand, under a known id or a new one, keeps every stored endpoint current exactly when
      the one stored under its id afterwards, given or found there, is current for it. */
  lemma AddKeepsCurrentIff(s: State, fl: Conv.Air, b: Binding, now: string)
    requires Conv.AllCurrent(s, fl)
    ensures Conv.AllCurrent(Op.AddBinding(s, b, now), fl) <==> AddFits(s, fl, b, now)
  {
    var t := Op.AddBinding(s, b, now);
    AddedCurrentIff(s, fl, b, now);
    hide Op.AddBinding, Conv.Current, AddFits;
    forall k | k in t.endpoints && k != b.id ensures Conv.Current(t, fl, k) {
      OthersStayCurrent(s, fl, b, now, k);
    }
  }

  /** A known id keeps agreement when its route stays, or when no endpoint is stored under it. */
  lemma SameRouteFits(s: State, fl: Conv.Air, b: Binding, now: string)
    requires Conv.AllCurrent(s, fl) && Conv.Readds(s, b)
    ensures AddFits(s, fl, b, now)
  {
    hide Conv.CurrentFor, Conv.SameRoute;
    if b.id in s.endpoints {
      assert Conv.Current(s, fl, b.id);
      Conv.RouteDecides(s, fl, b.id, s.bindings[b.id], b, s.endpoints[b.id]);
    }
  }

  /** It loses agreement when an endpoint is stored under it and the new server interface has no lease. */
  lemma UnleasedMisfits(s: State, fl: Conv.Air, b: Binding, now: string)
    requires !Op.GivesEndpoint(b) && b.id in s.endpoints
    requires Conv.NewestLease(s.leases, b.serverNode, b.serverIface).None?
    ensures !AddFits(s, fl, b, now)
  {
  }
}
