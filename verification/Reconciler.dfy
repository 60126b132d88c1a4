/** Automatic bindings: what one reconcile pass does to the binding table, and what no
    iteration order can change about it. */
module Reconciler {
  import opened Model
  import Names

  // ---------- Which bindings are desired ----------

  function AutoID(b: Binding): string {
    Names.AutoBindingID(b.domainID, b.serverNode, b.serverIface, b.clientNode, b.clientIface)
  }

  /** The part of the state the desired bindings depend on. */
  datatype World = World(
    nodes: map<string, Node>, members: map<string, DomainMember>, inventory: map<string, WGInterface>)

  function WorldOf(s: State): World {
    World(s.nodes, s.members, s.inventory)
  }

  predicate Approved(w: World, m: DomainMember) {
    m.nodeID in w.nodes && w.nodes[m.nodeID].approved && m.domainID != ""
  }

  /** The inventory rows a membership speaks for. */
  predicate Selects(m: DomainMember, row: WGInterface) {
    row.nodeID == m.nodeID && (m.iface == "" || row.name == m.iface)
  }

  predicate Pairs(server: DomainMember, client: DomainMember) {
    && server.domainID == client.domainID
    && server.role == "server" && client.role == "client"
    && client.nodeID != server.nodeID
  }

  /** The client's interface lists the server interface's key as a peer. */
  predicate Peers(si: WGInterface, ci: WGInterface) {
    si.publicKey != "" && si.publicKey in ci.peers
  }

  function Derive(server: DomainMember, client: DomainMember, si: WGInterface, ci: WGInterface): Binding {
    DefaultBindingFields(Binding(
      Names.AutoBindingID(server.domainID, server.nodeID, si.name, client.nodeID, ci.name),
      server.domainID, true, server.nodeID, si.name, client.nodeID, ci.name, si.publicKey,
      FirstNonEmpty(client.configType, ci.configType), ci.configPath, client.reloadMethod, "", 0, true))
  }

  /** The four tables' keys km, kc, ks, kw support one derived binding. */
  predicate Supports(w: World, km: string, kc: string, ks: string, kw: string) {
    && km in w.members && kc in w.members && ks in w.inventory && kw in w.inventory
    && Approved(w, w.members[km]) && Approved(w, w.members[kc])
    && Pairs(w.members[km], w.members[kc])
    && Selects(w.members[km], w.inventory[ks]) && Selects(w.members[kc], w.inventory[kw])
    && Peers(w.inventory[ks], w.inventory[kw])
  }

  function DeriveAt(w: World, km: string, kc: string, ks: string, kw: string): Binding
    requires Supports(w, km, kc, ks, kw)
  {
    Derive(w.members[km], w.members[kc], w.inventory[ks], w.inventory[kw])
  }

  ghost function DesiredIn(w: World): set<Binding> {
    set km, kc, ks, kw | km in w.members && kc in w.members && ks in w.inventory && kw in w.inventory &&
                         Supports(w, km, kc, ks, kw) :: DeriveAt(w, km, kc, ks, kw)
  }

  ghost function Desired(s: State): set<Binding> {
    DesiredIn(WorldOf(s))
  }

  // ---------- One pass over a given order of the desired bindings ----------

  predicate SameSix(a: Binding, b: Binding) {
    && a.domainID == b.domainID && a.serverNode == b.serverNode && a.serverIface == b.serverIface
    && a.clientNode == b.clientNode && a.clientIface == b.clientIface && a.peerKey == b.peerKey
  }

  /** Equality up to the deprecated inline endpoint. */
  predicate BindingsEqual(a: Binding, b: Binding) {
    ClearEndpoint(a) == ClearEndpoint(b)
  }

  predicate Covered(bs: map<string, Binding>, d: Binding) {
    exists k :: k in bs && SameSix(bs[k], d)
  }

  function Place(bs: map<string, Binding>, d: Binding): map<string, Binding> {
    if d.id in bs then
      if bs[d.id].auto && !BindingsEqual(bs[d.id], d) then bs[d.id := d] else bs
    else if Covered(bs, d) then bs
    else bs[d.id := d]
  }

  function PlaceAll(bs: map<string, Binding>, order: seq<Binding>): map<string, Binding> {
    if order == [] then bs
    else Place(PlaceAll(bs, order[..|order| - 1]), order[|order| - 1])
  }

  /** The bindings a pass creates, in the order it creates them. */
  function Created(bs: map<string, Binding>, order: seq<Binding>): seq<Binding> {
    if order == [] then []
    else
      var init, d := order[..|order| - 1], order[|order| - 1];
      var before := PlaceAll(bs, init);
      Created(bs, init) + if d.id !in before && !Covered(before, d) then [d] else []
  }

  /** `created` lists the entries of `placed` that are not in `bs`, by their ids and once each. */
  ghost predicate ListsNew(bs: map<string, Binding>, placed: map<string, Binding>, created: seq<Binding>) {
    && (forall i, j :: 0 <= i < j < |created| ==> created[i].id != created[j].id)
    && (forall i :: 0 <= i < |created| ==> created[i].id !in bs && created[i].id in placed)
    && (forall k :: k in placed && k !in bs ==> exists i :: 0 <= i < |created| && created[i].id == k)
    && bs.Keys <= placed.Keys
  }

  lemma ListsOneMore(bs: map<string, Binding>, placed: map<string, Binding>, created: seq<Binding>, d: Binding)
    requires ListsNew(bs, placed, created) && d.id !in placed
    ensures ListsNew(bs, placed[d.id := d], created + [d])
  {
    var after, all := placed[d.id := d], created + [d];
    forall k | k in after && k !in bs ensures exists i :: 0 <= i < |all| && all[i].id == k {
      if k == d.id {
        assert all[|created|].id == k;
      } else {
        var i :| 0 <= i < |created| && created[i].id == k;
        assert all[i].id == k;
      }
    }
  }

  lemma ListsNoMore(bs: map<string, Binding>, placed: map<string, Binding>, created: seq<Binding>,
                    after: map<string, Binding>)
    requires ListsNew(bs, placed, created) && after.Keys == placed.Keys
    ensures ListsNew(bs, after, created)
  {
  }

  lemma ListsNone(bs: map<string, Binding>)
    ensures ListsNew(bs, bs, [])
  {
  }

  /** What a pass says it created is what is new. */
  lemma {:induction false} CreatedAreNew(bs: map<string, Binding>, order: seq<Binding>)
    ensures ListsNew(bs, PlaceAll(bs, order), Created(bs, order))
  {
    if order != [] {
      var n := |order| - 1;
      var placed, created := PlaceAll(bs, order[..n]), Created(bs, order[..n]);
      CreatedAreNew(bs, order[..n]);
      hide Covered, BindingsEqual, ListsNew;
      if order[n].id !in placed && !Covered(placed, order[n]) {
        ListsOneMore(bs, placed, created, order[n]);
      } else {
        assert created + [] == created;
        ListsNoMore(bs, placed, created, PlaceAll(bs, order));
      }
    } else {
      ListsNone(bs);
    }
  }

  predicate IsAutoBindingID(b: Binding) {
    && b.domainID != "" && b.serverNode != "" && b.serverIface != "" && b.clientNode != "" && b.clientIface != ""
    && b.id == AutoID(b)
  }

  /** Entries the second loop may delete. */
  predicate AutoClass(b: Binding) {
    b.auto || IsAutoBindingID(b)
  }

  predicate MatchesMembers(b: Binding, members: map<string, DomainMember>) {
    var sk, ck := Names.MemberKey(b.domainID, b.serverNode), Names.MemberKey(b.domainID, b.clientNode);
    && sk in members && members[sk].role == "server" && members[sk].iface == b.serverIface
    && ck in members && members[ck].role == "client" && members[ck].iface == b.clientIface
  }

  predicate Survives(k: string, b: Binding, valid: set<string>, members: map<string, DomainMember>) {
    !AutoClass(b) || k in valid || MatchesMembers(b, members)
  }

  function Prune(bs: map<string, Binding>, valid: set<string>, members: map<string, DomainMember>): map<string, Binding>
  {
    map k | k in bs && Survives(k, bs[k], valid, members) :: bs[k]
  }

  function IdsOf(order: seq<Binding>): set<string> {
    set d | d in order :: d.id
  }

  function Elements(order: seq<Binding>): set<Binding> {
    set d | d in order
  }

  /** `order` lists the desired bindings, each at least once. */
  ghost predicate Enumerates(order: seq<Binding>, s: State) {
    Elements(order) == Desired(s)
  }

  /** An endpoint goes with its pruned binding. */
  function PrunedEndpoints(endpoints: map<string, Endpoint>, placed: map<string, Binding>,
                           kept: map<string, Binding>): map<string, Endpoint>
  {
    map k | k in endpoints && !(k in placed && k !in kept) :: endpoints[k]
  }

  function Reconcile(s: State, order: seq<Binding>): State {
    var placed := PlaceAll(s.bindings, order);
    var kept := Prune(placed, IdsOf(order), s.members);
    s.(bindings := kept, endpoints := PrunedEndpoints(s.endpoints, placed, kept))
  }

  // ---------- Facts about the desired bindings ----------

  /** What a pass leaves under an id is what was there, or a desired binding of that id, which then replaced
      an automatic entry or none. */
  lemma Reconciled(s: State, order: seq<Binding>, k: string)
    requires Enumerates(order, s) && k in Reconcile(s, order).bindings
    ensures var b := Reconcile(s, order).bindings[k];
            (k in s.bindings && b == s.bindings[k]) ||
            (b in Desired(s) && b.id == k && (k in s.bindings ==> s.bindings[k].auto))
  {
    PlaceAllFrame(s.bindings, order);
    assert forall d :: d in order ==> d in Elements(order);
  }

  predicate Derived(d: Binding) {
    d.auto && d.enabled && d.id == AutoID(d) && ClearEndpoint(d) == d
  }

  ghost predicate AllDerived(ds: set<Binding>) {
    forall d :: d in ds ==> Derived(d)
  }

  lemma DesiredIsDerived(s: State)
    ensures AllDerived(Desired(s))
  {
  }

  /** Distinct desired bindings have distinct ids. */
  ghost predicate InjectiveIds(ds: set<Binding>) {
    forall d, e :: d in ds && e in ds && d.id == e.id ==> d == e
  }

  // ---------- What holds for every order, colliding ids included ----------

  /** Entries that are not automatic are never rewritten; entries never disappear or change id class
      while placing; every new value is one of the placed bindings, under its own id. */
  lemma {:induction false} PlaceAllFrame(bs: map<string, Binding>, order: seq<Binding>)
    ensures var r := PlaceAll(bs, order);
            && bs.Keys <= r.Keys
            && (forall k :: k in bs && !bs[k].auto ==> r[k] == bs[k])
            && (forall k :: k in r && !(k in bs && r[k] == bs[k]) ==> r[k] in order && r[k].id == k)
            && (forall k :: k in r && k !in IdsOf(order) ==> k in bs && r[k] == bs[k])
  {
    if order != [] {
      var init, d := order[..|order| - 1], order[|order| - 1];
      PlaceAllFrame(bs, init);
      assert order == init + [d];
      assert d.id in IdsOf(order);
      assert forall e :: e in init ==> e in order;
    }
  }

  // ---------- The closed form ----------

  ghost function Pick(ds: set<Binding>, k: string): (d: Binding)
    requires exists e :: e in ds && e.id == k
    ensures d in ds && d.id == k
  {
    var d :| d in ds && d.id == k;
    d
  }

  ghost predicate Wanted(ds: set<Binding>, k: string) {
    exists d :: d in ds && d.id == k
  }

  /** The table after placing `ds`, entry by entry, with no reference to an order. */
  ghost function Closed(bs: map<string, Binding>, ds: set<Binding>): map<string, Binding> {
    map k | k in bs.Keys + (set d | d in ds :: d.id) &&
            (k in bs || (Wanted(ds, k) && !Covered(bs, Pick(ds, k)))) ::
      if k !in bs then Pick(ds, k)
      else if bs[k].auto && Wanted(ds, k) && !BindingsEqual(bs[k], Pick(ds, k)) then Pick(ds, k)
      else bs[k]
  }

  /** A missing desired binding that is covered at all is covered by an entry the pass leaves alone. */
  ghost predicate StableCover(bs: map<string, Binding>, ds: set<Binding>) {
    forall d :: d in ds && d.id !in bs && Covered(bs, d) ==> exists k :: Anchors(bs, ds, d, k)
  }

  ghost predicate Anchors(bs: map<string, Binding>, ds: set<Binding>, d: Binding, k: string) {
    k in bs && SameSix(bs[k], d) && !(bs[k].auto && Wanted(ds, k))
  }

  lemma SameSixSameID(a: Binding, b: Binding)
    requires SameSix(a, b)
    ensures AutoID(a) == AutoID(b)
  {
  }

  lemma PickUnique(ds: set<Binding>, d: Binding)
    requires InjectiveIds(ds) && d in ds
    ensures Wanted(ds, d.id) && Pick(ds, d.id) == d
  {
  }

  /** What an entry of the closed form is. */
  lemma ClosedAt(bs: map<string, Binding>, ds: set<Binding>, d: Binding)
    requires InjectiveIds(ds) && d in ds
    ensures d.id in Closed(bs, ds) <==> d.id in bs || !Covered(bs, d)
    ensures d.id !in bs && !Covered(bs, d) ==> Closed(bs, ds)[d.id] == d
    ensures d.id in bs ==> Closed(bs, ds)[d.id] ==
                           if bs[d.id].auto && !BindingsEqual(bs[d.id], d) then d else bs[d.id]
  {
    PickUnique(ds, d);
  }

  lemma ClosedUnwanted(bs: map<string, Binding>, ds: set<Binding>, k: string)
    requires !Wanted(ds, k)
    ensures k in Closed(bs, ds) <==> k in bs
    ensures k in bs ==> Closed(bs, ds)[k] == bs[k]
  {
  }

  /** Placing a part of the desired bindings does not change whether a missing one is covered. */
  lemma ClosedKeepsCover(bs: map<string, Binding>, part: set<Binding>, ds: set<Binding>, d: Binding)
    requires part <= ds && d in ds && d !in part && d.id !in bs
    requires InjectiveIds(ds) && AllDerived(ds) && StableCover(bs, ds)
    ensures Covered(Closed(bs, part), d) <==> Covered(bs, d)
  {
    var c := Closed(bs, part);
    if Covered(bs, d) {
      var k :| Anchors(bs, ds, d, k);
      assert Wanted(part, k) ==> Wanted(ds, k);
      assert k in c && c[k] == bs[k];
    }
    if Covered(c, d) {
      var k :| k in c && SameSix(c[k], d);
      if !(k in bs && c[k] == bs[k]) {
        assert c[k] in part && c[k].id == k;
        SameSixSameID(c[k], d);
        assert false;
      }
    }
  }

  lemma ClosedElsewhere(bs: map<string, Binding>, part: set<Binding>, d: Binding, k: string)
    requires InjectiveIds(part + {d}) && k != d.id
    ensures var c, c' := Closed(bs, part), Closed(bs, part + {d});
            (k in c <==> k in c') && (k in c ==> c[k] == c'[k])
  {
    assert Wanted(part, k) <==> Wanted(part + {d}, k);
    if Wanted(part, k) {
      var e := Pick(part, k);
      assert Pick(part + {d}, k) == e;
      ClosedAt(bs, part, e);
      ClosedAt(bs, part + {d}, e);
    }
  }

  lemma ClosedAgain(bs: map<string, Binding>, part: set<Binding>, ds: set<Binding>, d: Binding)
    requires part <= ds && d in part
    requires InjectiveIds(ds) && AllDerived(ds) && StableCover(bs, ds)
    ensures Place(Closed(bs, part), d) == Closed(bs, part)
  {
    var c := Closed(bs, part);
    ClosedAt(bs, part, d);
    if d.id !in c {
      var k :| Anchors(bs, ds, d, k);
      assert Wanted(part, k) ==> Wanted(ds, k);
      assert k in c && c[k] == bs[k];
    }
  }

  lemma ClosedStep(bs: map<string, Binding>, part: set<Binding>, ds: set<Binding>, d: Binding)
    requires part <= ds && d in ds
    requires InjectiveIds(ds) && AllDerived(ds) && StableCover(bs, ds)
    ensures Place(Closed(bs, part), d) == Closed(bs, part + {d})
  {
    hide AutoID, StableCover, AllDerived, Closed, ClearEndpoint;
    if d in part {
      assert part + {d} == part;
      ClosedAgain(bs, part, ds, d);
    } else {
      var c, c' := Closed(bs, part), Closed(bs, part + {d});
      assert InjectiveIds(part + {d});
      assert !Wanted(part, d.id);
      ClosedAt(bs, part + {d}, d);
      ClosedUnwanted(bs, part, d.id);
      if d.id !in bs {
        ClosedKeepsCover(bs, part, ds, d);
      }
      var p := Place(c, d);
      forall k
        ensures k in p <==> k in c'
        ensures k in p ==> p[k] == c'[k]
      {
        if k != d.id {
          ClosedElsewhere(bs, part, d, k);
        }
      }
    }
  }

  lemma {:induction false} PlaceAllPart(bs: map<string, Binding>, order: seq<Binding>, ds: set<Binding>)
    requires Elements(order) <= ds
    requires InjectiveIds(ds) && AllDerived(ds) && StableCover(bs, ds)
    ensures PlaceAll(bs, order) == Closed(bs, Elements(order))
  {
    if order == [] {
      assert Closed(bs, {}) == bs;
      assert Elements(order) == {};
    } else {
      var init, d := order[..|order| - 1], order[|order| - 1];
      assert order == init + [d];
      assert Elements(order) == Elements(init) + {d};
      PlaceAllPart(bs, init, ds);
      ClosedStep(bs, Elements(init), ds, d);
    }
  }

  /** The closed form: every order of the desired bindings leaves the same table. */
  lemma PlaceAllClosedForm(bs: map<string, Binding>, order: seq<Binding>, ds: set<Binding>)
    requires Elements(order) == ds
    requires InjectiveIds(ds) && AllDerived(ds) && StableCover(bs, ds)
    ensures PlaceAll(bs, order) == Closed(bs, ds)
  {
    PlaceAllPart(bs, order, ds);
  }

  // ---------- When the order matters ----------

  /** With unambiguous ids, an automatic entry that is wanted ends up as the binding wanted there. */
  lemma {:induction false} PlaceAllReaches(bs: map<string, Binding>, order: seq<Binding>, d: Binding)
    requires InjectiveIds(Elements(order)) && d in order
    ensures var r := PlaceAll(bs, order);
            d.id in r && r[d.id].auto ==> BindingsEqual(r[d.id], d)
  {
    var init, e := order[..|order| - 1], order[|order| - 1];
    assert order == init + [e];
    assert d in Elements(order) && e in Elements(order);
    assert e.id == d.id ==> e == d;
    assert BindingsEqual(d, d);
    ElementsConcat(init, [e]);
    assert d in init || d == e;
    hide Covered, BindingsEqual, Elements;
    if d in init {
      PlaceAllReaches(bs, init, d);
    }
  }

  lemma {:induction false} PlaceAllAppend(bs: map<string, Binding>, first: seq<Binding>, rest: seq<Binding>)
    ensures PlaceAll(bs, first + rest) == PlaceAll(PlaceAll(bs, first), rest)
  {
    if rest == [] {
      assert first + rest == first;
    } else {
      var init, d := rest[..|rest| - 1], rest[|rest| - 1];
      var all := first + rest;
      assert all[..|all| - 1] == first + init;
      PlaceAllAppend(bs, first, init);
    }
  }

  /** Once the rest is placed, an entry is left as it was only if nothing different was wanted there. */
  lemma PlacedEntry(bs: map<string, Binding>, rest: seq<Binding>, k: string)
    requires InjectiveIds(Elements(rest)) && k in PlaceAll(bs, rest)
    ensures var r := PlaceAll(bs, rest);
            || (r[k] in rest && r[k].id == k)
            || (k in bs && r[k] == bs[k] && (bs[k].auto && k in IdsOf(rest) ==>
                                               exists e :: e in rest && e.id == k && BindingsEqual(bs[k], e)))
  {
    PlaceAllFrame(bs, rest);
    if k in IdsOf(rest) {
      var e :| e in rest && e.id == k;
      PlaceAllReaches(bs, rest, e);
    }
  }

  /** No other desired binding agrees with `d` on the six fields: its id would be the same. */
  lemma NoTwin(ds: set<Binding>, d: Binding, e: Binding)
    requires InjectiveIds(ds) && AllDerived(ds) && d in ds && e in ds && SameSix(e, d)
    ensures e == d
  {
    SameSixSameID(e, d);
  }

  /** `rest` lists all of `ds` but perhaps `d`. */
  ghost predicate AllBut(rest: seq<Binding>, ds: set<Binding>, d: Binding) {
    Elements(rest) <= ds && ds <= Elements(rest) + {d}
  }

  /** An unanchored cover is gone once everything else is placed. */
  lemma UnanchoredCoverVanishes(bs: map<string, Binding>, rest: seq<Binding>, ds: set<Binding>, d: Binding, k: string)
    requires AllBut(rest, ds, d) && d in ds && InjectiveIds(ds) && AllDerived(ds)
    requires k in PlaceAll(bs, rest) && SameSix(PlaceAll(bs, rest)[k], d) && !Anchors(bs, ds, d, k)
    ensures k == d.id
  {
    var r := PlaceAll(bs, rest);
    assert InjectiveIds(Elements(rest));
    assert forall e :: e in rest ==> e in Elements(rest);
    PlacedEntry(bs, rest, k);
    forall e | e in rest && SameSix(e, d) ensures e == d {
      NoTwin(ds, d, e);
    }
    hide AutoID, PlaceAll, InjectiveIds, AllDerived;
    if Wanted(ds, k) && k != d.id {
      WantedElsewhere(rest, ds, d, k);
    }
  }

  lemma WantedElsewhere(rest: seq<Binding>, ds: set<Binding>, d: Binding, k: string)
    requires AllBut(rest, ds, d) && Wanted(ds, k) && k != d.id
    ensures k in IdsOf(rest)
  {
    var e :| e in ds && e.id == k;
    assert e in Elements(rest);
  }

  lemma ElementsConcat(a: seq<Binding>, b: seq<Binding>)
    ensures Elements(a + b) == Elements(a) + Elements(b)
  {
  }

  /** Placed after all others, an unanchored binding gets in. */
  lemma UnanchoredGetsIn(bs: map<string, Binding>, rest: seq<Binding>, ds: set<Binding>, d: Binding)
    requires AllBut(rest, ds, d) && d in ds && InjectiveIds(ds) && AllDerived(ds)
    requires !exists k :: Anchors(bs, ds, d, k)
    ensures d.id in PlaceAll(bs, rest + [d])
  {
    var r := PlaceAll(bs, rest);
    PlaceAllSnoc(bs, rest, d);
    hide AutoID, PlaceAll, InjectiveIds, AllDerived, AllBut;
    forall k | k in r && SameSix(r[k], d) ensures k == d.id {
      assert !Anchors(bs, ds, d, k);
      UnanchoredCoverVanishes(bs, rest, ds, d, k);
    }
  }

  /** Placed before all others, and only then, a covered binding stays out. */
  lemma CoveredStaysOut(bs: map<string, Binding>, rest: seq<Binding>, ds: set<Binding>, d: Binding)
    requires AllBut(rest, ds, d) && d in ds && InjectiveIds(ds) && d !in rest && d.id !in bs && Covered(bs, d)
    ensures d.id !in PlaceAll(bs, [d] + rest)
  {
    PlaceAllAppend(bs, [d], rest);
    PlaceAllOne(bs, d);
    forall e | e in rest ensures e.id != d.id {
      assert e in Elements(rest);
    }
    PlaceAllFrame(bs, rest);
    hide PlaceAll;
  }

  lemma PlaceAllOne(bs: map<string, Binding>, d: Binding)
    ensures PlaceAll(bs, [d]) == Place(bs, d)
  {
    hide Place;
    assert [d][..0] == [];
  }

  /** With stable covers and distinct ids a pass ends in one state for every iteration order. */
  lemma StableIsOneOutcome(s: State, o1: seq<Binding>, o2: seq<Binding>)
    requires InjectiveIds(Desired(s)) && StableCover(s.bindings, Desired(s)) && Enumerates(o1, s) && Enumerates(o2, s)
    ensures Reconcile(s, o1) == Reconcile(s, o2)
  {
    DesiredIsDerived(s);
    SameIds(o1, o2);
    hide InjectiveIds, StableCover, PlaceAll, AllDerived, Closed;
    PlaceAllClosedForm(s.bindings, o1, Desired(s));
    PlaceAllClosedForm(s.bindings, o2, Desired(s));
  }

  lemma SameIds(o1: seq<Binding>, o2: seq<Binding>)
    requires Elements(o1) == Elements(o2)
    ensures IdsOf(o1) == IdsOf(o2)
  {
    assert forall d :: d in o1 <==> d in Elements(o1);
    assert forall d :: d in o2 <==> d in Elements(o2);
  }

  /** The table keys behind a desired binding. */
  lemma DesiredSupport(s: State, d: Binding) returns (km: string, kc: string, ks: string, kw: string)
    requires d in Desired(s)
    ensures Supports(WorldOf(s), km, kc, ks, kw) && d == DeriveAt(WorldOf(s), km, kc, ks, kw)
  {
    km, kc, ks, kw :| Supports(WorldOf(s), km, kc, ks, kw) && d == DeriveAt(WorldOf(s), km, kc, ks, kw);
  }

  lemma SupportedIsDesired(s: State, km: string, kc: string, ks: string, kw: string)
    requires Supports(WorldOf(s), km, kc, ks, kw)
    ensures DeriveAt(WorldOf(s), km, kc, ks, kw) in Desired(s)
  {
  }

  /** A binding derived from memberships that sit under their own keys matches those memberships. */
  lemma DerivedMatches(members: map<string, DomainMember>, km: string, kc: string, si: WGInterface, ci: WGInterface)
    requires km in members && km == Names.MemberKey(members[km].domainID, members[km].nodeID) && members[km].iface != ""
    requires kc in members && kc == Names.MemberKey(members[kc].domainID, members[kc].nodeID) && members[kc].iface != ""
    requires Pairs(members[km], members[kc]) && Selects(members[km], si) && Selects(members[kc], ci)
    ensures MatchesMembers(Derive(members[km], members[kc], si, ci), members)
  {
  }

  ghost function DesiredIds(s: State): set<string> {
    set d | d in Desired(s) :: d.id
  }

  /** The whole pass in closed form. */
  lemma ReconcileClosedForm(s: State, order: seq<Binding>)
    requires Enumerates(order, s)
    requires InjectiveIds(Desired(s)) && StableCover(s.bindings, Desired(s))
    ensures Reconcile(s, order).bindings == Prune(Closed(s.bindings, Desired(s)), DesiredIds(s), s.members)
  {
    DesiredIsDerived(s);
    PlaceAllClosedForm(s.bindings, order, Desired(s));
    assert IdsOf(order) == DesiredIds(s) by {
      assert forall d :: d in order <==> d in Elements(order);
    }
  }

  // ---------- Tables whose automatic entries carry their own id ----------

  /** Every entry is stored under its id, and an automatic one under its own automatic id. */
  predicate KeyedTable(bs: map<string, Binding>) {
    forall k :: k in bs ==> bs[k].id == k && (bs[k].auto ==> AutoID(bs[k]) == k)
  }

  lemma KeyedIsStable(bs: map<string, Binding>, ds: set<Binding>)
    requires KeyedTable(bs) && AllDerived(ds)
    ensures StableCover(bs, ds)
  {
    forall d | d in ds && d.id !in bs && Covered(bs, d) ensures exists k :: Anchors(bs, ds, d, k) {
      var k :| k in bs && SameSix(bs[k], d);
      SameSixSameID(bs[k], d);
      assert Anchors(bs, ds, d, k);
    }
  }

  lemma ReconcileKeepsKeyed(s: State, order: seq<Binding>)
    requires KeyedTable(s.bindings) && Enumerates(order, s)
    ensures KeyedTable(Reconcile(s, order).bindings)
  {
    DesiredIsDerived(s);
    PlaceAllFrame(s.bindings, order);
    assert forall d :: d in order ==> d in Elements(order);
  }

  predicate ManuallyCovered(bs: map<string, Binding>, d: Binding) {
    exists k :: k in bs && !bs[k].auto && SameSix(bs[k], d)
  }

  /** Colliding ids or not, every placed binding is present by id or covered by a manual entry. */
  lemma {:induction false} PlaceAllSatisfies(bs: map<string, Binding>, order: seq<Binding>, d: Binding)
    requires KeyedTable(bs) && AllDerived(Elements(order)) && d in order
    ensures d.id in PlaceAll(bs, order) || ManuallyCovered(bs, d)
  {
    var init, e := order[..|order| - 1], order[|order| - 1];
    assert order == init + [e];
    assert Elements(init) <= Elements(order);
    PlaceAllFrame(bs, order);
    PlaceAllFrame(bs, init);
    var p := PlaceAll(bs, init);
    if d in init {
      PlaceAllSatisfies(bs, init, d);
    } else if d.id !in p && Covered(p, d) {
      var k :| k in p && SameSix(p[k], d);
      SameSixSameID(p[k], d);
      assert d in Elements(order);
      assert forall f :: f in init ==> f in Elements(order);
      assert k in bs && p[k] == bs[k];
    }
  }

  /** An automatic entry whose id was placed equals one of the bindings placed under that id. */
  lemma {:induction false} PlaceAllReflects(bs: map<string, Binding>, order: seq<Binding>, k: string)
    returns (d: Binding)
    requires AllDerived(Elements(order)) && k in IdsOf(order)
    requires k in PlaceAll(bs, order) && PlaceAll(bs, order)[k].auto
    ensures d in order && d.id == k && BindingsEqual(PlaceAll(bs, order)[k], d)
  {
    var init, e := order[..|order| - 1], order[|order| - 1];
    assert order == init + [e];
    assert Elements(init) <= Elements(order);
    if e.id == k {
      d := e;
    } else {
      d := PlaceAllReflects(bs, init, k);
    }
  }

  // ---------- Colliding ids: exactly when the order matters ----------

  /** A desired binding that cannot get into the table: its id is taken by an entry that is not automatic, or
      is free and an entry that is not automatic covers it. */
  predicate Inert(bs: map<string, Binding>, d: Binding) {
    if d.id in bs then !bs[d.id].auto else ManuallyCovered(bs, d)
  }

  /** Different desired bindings share an id only when none of them can get into the table. */
  ghost predicate CollisionsInert(bs: map<string, Binding>, ds: set<Binding>) {
    forall d, e :: d in ds && e in ds && d.id == e.id && d != e ==> Inert(bs, d) && Inert(bs, e)
  }

  function ActiveOrder(bs: map<string, Binding>, order: seq<Binding>): seq<Binding> {
    if order == [] then []
    else
      var init, d := ActiveOrder(bs, order[..|order| - 1]), order[|order| - 1];
      if Inert(bs, d) then init else init + [d]
  }

  ghost function Active(bs: map<string, Binding>, ds: set<Binding>): set<Binding> {
    set d | d in ds && !Inert(bs, d)
  }

  lemma {:induction false} ActiveElements(bs: map<string, Binding>, order: seq<Binding>)
    ensures Elements(ActiveOrder(bs, order)) == Active(bs, Elements(order))
  {
    hide Inert;
    if order != [] {
      var init, d := order[..|order| - 1], order[|order| - 1];
      ActiveElements(bs, init);
      assert order == init + [d];
      ElementsConcat(init, [d]);
      ElementsConcat(ActiveOrder(bs, init), [d]);
      assert Elements([d]) == {d};
    }
  }

  lemma {:induction false} NeverCreated(bs: map<string, Binding>, order: seq<Binding>, k: string)
    requires k !in bs && forall e :: e in order && e.id == k ==> ManuallyCovered(bs, e)
    ensures k !in PlaceAll(bs, order)
  {
    if order != [] {
      var init, e := order[..|order| - 1], order[|order| - 1];
      assert order == init + [e];
      assert forall f :: f in init ==> f in order;
      NeverCreated(bs, init, k);
      if e.id == k {
        assert e in order;
        StillCovered(bs, init, e);
      }
    }
  }

  lemma StillCovered(bs: map<string, Binding>, order: seq<Binding>, d: Binding)
    requires ManuallyCovered(bs, d)
    ensures Covered(PlaceAll(bs, order), d)
  {
    PlaceAllFrame(bs, order);
    var k :| k in bs && !bs[k].auto && SameSix(bs[k], d);
    assert PlaceAll(bs, order)[k] == bs[k];
  }

  lemma InertIdles(bs: map<string, Binding>, order: seq<Binding>, ds: set<Binding>, d: Binding)
    requires Elements(order) <= ds && d in ds && CollisionsInert(bs, ds) && Inert(bs, d)
    ensures Place(PlaceAll(bs, order), d) == PlaceAll(bs, order)
  {
    PlaceAllFrame(bs, order);
    if d.id !in bs {
      forall e | e in order && e.id == d.id ensures ManuallyCovered(bs, e) {
        assert e in Elements(order);
      }
      NeverCreated(bs, order, d.id);
      StillCovered(bs, order, d);
    }
  }

  lemma {:induction false} ActiveOnly(bs: map<string, Binding>, order: seq<Binding>, ds: set<Binding>)
    requires Elements(order) <= ds && CollisionsInert(bs, ds)
    ensures PlaceAll(bs, order) == PlaceAll(bs, ActiveOrder(bs, order))
  {
    if order != [] {
      hide Inert, CollisionsInert, Place, PlaceAll;
      var init, d := order[..|order| - 1], order[|order| - 1];
      assert order == init + [d];
      ElementsConcat(init, [d]);
      assert d in Elements(order);
      hide Elements;
      ActiveOnly(bs, init, ds);
      PlaceAllSnoc(bs, init, d);
      PlaceAllSnoc(bs, ActiveOrder(bs, init), d);
      if Inert(bs, d) {
        InertIdles(bs, init, ds, d);
      }
    }
  }

  lemma PlaceAllSnoc(bs: map<string, Binding>, init: seq<Binding>, d: Binding)
    ensures PlaceAll(bs, init + [d]) == Place(PlaceAll(bs, init), d)
  {
    hide Place;
    assert (init + [d])[..|init|] == init;
  }

  /** With colliding ids that cannot get in, every order still leaves the one closed form. */
  lemma InertCollisionsClosedForm(bs: map<string, Binding>, order: seq<Binding>, ds: set<Binding>)
    requires Elements(order) == ds && KeyedTable(bs) && AllDerived(ds) && CollisionsInert(bs, ds)
    ensures PlaceAll(bs, order) == Closed(bs, Active(bs, ds))
  {
    ActiveOnly(bs, order, ds);
    ActiveElements(bs, order);
    assert InjectiveIds(Active(bs, ds)) && AllDerived(Active(bs, ds));
    hide Inert, CollisionsInert, KeyedTable, Closed;
    KeyedIsStable(bs, Active(bs, ds));
    PlaceAllClosedForm(bs, ActiveOrder(bs, order), Active(bs, ds));
  }

  lemma AutoSlot(bs: map<string, Binding>, order: seq<Binding>, k: string)
    requires AllDerived(Elements(order)) && k in PlaceAll(bs, order) && (k in bs ==> bs[k].auto)
    ensures PlaceAll(bs, order)[k].auto
  {
    PlaceAllFrame(bs, order);
    assert forall e :: e in order ==> e in Elements(order);
  }

  lemma SlotFilled(bs: map<string, Binding>, order: seq<Binding>, active: Binding)
    requires KeyedTable(bs) && AllDerived(Elements(order)) && active in order && !Inert(bs, active)
    ensures active.id in PlaceAll(bs, order) && PlaceAll(bs, order)[active.id].auto
  {
    if active.id in bs {
      PlaceAllFrame(bs, order);
    } else {
      PlaceAllSatisfies(bs, order, active);
    }
    AutoSlot(bs, order, active.id);
  }

  /** The binding placed last under an id that one of them can get into is the one that stays. */
  lemma LastPlacedWins(bs: map<string, Binding>, rest: seq<Binding>, d: Binding, active: Binding)
    requires KeyedTable(bs) && AllDerived(Elements(rest + [d]))
    requires active in rest + [d] && !Inert(bs, active) && active.id == d.id
    ensures var r := PlaceAll(bs, rest + [d]);
            d.id in r && BindingsEqual(r[d.id], d)
  {
    var order := rest + [d];
    assert order[..|rest|] == rest;
    ElementsConcat(rest, [d]);
    SlotFilled(bs, order, active);
    var p := PlaceAll(bs, rest);
    if d.id in p {
      AutoSlot(bs, rest, d.id);
    }
  }

  lemma InertIsOneOutcome(s: State, o1: seq<Binding>, o2: seq<Binding>)
    requires KeyedTable(s.bindings) && CollisionsInert(s.bindings, Desired(s)) && Enumerates(o1, s) && Enumerates(o2, s)
    ensures Reconcile(s, o1) == Reconcile(s, o2)
  {
    DesiredIsDerived(s);
    SameIds(o1, o2);
    hide KeyedTable, CollisionsInert, Closed, Active, PlaceAll, AllDerived;
    InertCollisionsClosedForm(s.bindings, o1, Desired(s));
    InertCollisionsClosedForm(s.bindings, o2, Desired(s));
  }

  /** An order that ends in `d` leaves `d` under the id, if any desired binding of that id can get in. */
  lemma EndsUpAs(s: State, rest: seq<Binding>, d: Binding, active: Binding)
    requires KeyedTable(s.bindings) && Enumerates(rest + [d], s)
    requires active in Desired(s) && !Inert(s.bindings, active) && active.id == d.id
    ensures var r := Reconcile(s, rest + [d]).bindings;
            d.id in r && BindingsEqual(r[d.id], d)
  {
    var order := rest + [d];
    DesiredIsDerived(s);
    assert active in order by { assert active in Elements(order); }
    assert d.id in IdsOf(order) by { assert order[|rest|] == d; }
    hide BindingsEqual, PlaceAll, KeyedTable, Inert;
    LastPlacedWins(s.bindings, rest, d, active);
  }

  lemma DerivedAreEqual(s: State, d: Binding, e: Binding, r: Binding)
    requires d in Desired(s) && e in Desired(s) && BindingsEqual(r, d) && BindingsEqual(r, e)
    ensures d == e
  {
    DesiredIsDerived(s);
    assert Derived(d) && Derived(e);
    hide Desired;
  }

  /** Placing only bindings that are present by id or manually covered adds no entry. */
  lemma {:induction false} PlaceAllNoGrowth(bs: map<string, Binding>, order: seq<Binding>)
    requires forall d :: d in order ==> d.id in bs || ManuallyCovered(bs, d)
    ensures PlaceAll(bs, order).Keys == bs.Keys
  {
    if order != [] {
      var init, d := order[..|order| - 1], order[|order| - 1];
      assert order == init + [d];
      assert forall e :: e in init ==> e in order;
      PlaceAllNoGrowth(bs, init);
      PlaceAllFrame(bs, init);
    }
  }

  /** Placing bindings the table already agrees with changes nothing. */
  lemma {:induction false} PlaceAllIdle(bs: map<string, Binding>, order: seq<Binding>)
    requires forall d :: d in order ==>
               if d.id in bs then !bs[d.id].auto || BindingsEqual(bs[d.id], d) else Covered(bs, d)
    ensures PlaceAll(bs, order) == bs
  {
    if order != [] {
      var init, d := order[..|order| - 1], order[|order| - 1];
      assert order == init + [d];
      assert forall e :: e in init ==> e in order;
      PlaceAllIdle(bs, init);
    }
  }

  /** A manual cover of a missing binding is outside the second loop's reach. */
  lemma AfterPassSatisfied(s: State, order: seq<Binding>, d: Binding)
    requires KeyedTable(s.bindings) && Enumerates(order, s) && d in Desired(s)
    ensures var bs := Reconcile(s, order).bindings;
            d.id in bs || ManuallyCovered(bs, d)
  {
    DesiredIsDerived(s);
    assert d in order by { assert d in Elements(order); }
    var bs, placed := Reconcile(s, order).bindings, PlaceAll(s.bindings, order);
    PlaceAllFrame(s.bindings, order);
    PlaceAllSatisfies(s.bindings, order, d);
    assert d.id in IdsOf(order);
    if d.id !in placed {
      var k :| k in s.bindings && !s.bindings[k].auto && SameSix(s.bindings[k], d);
      SameSixSameID(s.bindings[k], d);
      assert placed[k] == s.bindings[k];
      assert k in bs;
    }
  }

  /** What a pass left is out of reach of the same pass's second loop, whatever is rewritten under its ids. */
  lemma SurvivorsSurvive(t: State, valid: set<string>, order: seq<Binding>)
    requires IdsOf(order) == valid && PlaceAll(t.bindings, order).Keys == t.bindings.Keys
    requires forall k :: k in t.bindings ==> Survives(k, t.bindings[k], valid, t.members)
    ensures var u := Reconcile(t, order);
            u.bindings == PlaceAll(t.bindings, order) && u.endpoints == t.endpoints
  {
    PlaceAllFrame(t.bindings, order);
    hide PlaceAll, AutoClass, MatchesMembers;
    var placed := PlaceAll(t.bindings, order);
    forall k | k in placed ensures Survives(k, placed[k], valid, t.members) {
      if placed[k] == t.bindings[k] {
        assert Survives(k, t.bindings[k], valid, t.members);
      } else {
        assert placed[k].id in IdsOf(order);
      }
    }
  }

  lemma PassSurvivors(s: State, order: seq<Binding>)
    ensures var t := Reconcile(s, order);
            && WorldOf(t) == WorldOf(s)
            && forall k :: k in t.bindings ==> Survives(k, t.bindings[k], IdsOf(order), t.members)
  {
  }

  /** A second pass over an unchanged world creates nothing and deletes nothing, even with colliding ids. */
  lemma SecondPassKeepsKeys(s: State, o1: seq<Binding>, o2: seq<Binding>)
    requires KeyedTable(s.bindings) && Enumerates(o1, s) && Enumerates(o2, Reconcile(s, o1))
    ensures var t := Reconcile(s, o1);
            var u := Reconcile(t, o2);
            u.bindings.Keys == t.bindings.Keys && u.endpoints == t.endpoints
  {
    var t := Reconcile(s, o1);
    PassSurvivors(s, o1);
    SameIds(o1, o2);
    forall d | d in o2 ensures d.id in t.bindings || ManuallyCovered(t.bindings, d) {
      assert d in Elements(o2);
      AfterPassSatisfied(s, o1, d);
    }
    hide Reconcile, ManuallyCovered, Survives;
    PlaceAllNoGrowth(t.bindings, o2);
    SurvivorsSurvive(t, IdsOf(o1), o2);
  }

  /** When ids do not collide, a pass leaves the table in agreement with every desired binding. */
  lemma AfterPassAgrees(s: State, order: seq<Binding>, d: Binding)
    requires KeyedTable(s.bindings) && Enumerates(order, s) && d in Desired(s) && InjectiveIds(Desired(s))
    ensures var bs := Reconcile(s, order).bindings;
            if d.id in bs then !bs[d.id].auto || BindingsEqual(bs[d.id], d) else Covered(bs, d)
  {
    assert d in order by { assert d in Elements(order); }
    AfterPassSatisfied(s, order, d);
    PlaceAllReaches(s.bindings, order, d);
  }

  /** When ids do not collide, the second pass is the identity. */
  lemma SecondPassIsIdentity(s: State, o1: seq<Binding>, o2: seq<Binding>)
    requires KeyedTable(s.bindings) && Enumerates(o1, s) && Enumerates(o2, Reconcile(s, o1))
    requires InjectiveIds(Desired(s))
    ensures Reconcile(Reconcile(s, o1), o2) == Reconcile(s, o1)
  {
    var t := Reconcile(s, o1);
    PassSurvivors(s, o1);
    SameIds(o1, o2);
    forall d | d in o2
      ensures if d.id in t.bindings then !t.bindings[d.id].auto || BindingsEqual(t.bindings[d.id], d)
              else Covered(t.bindings, d)
    {
      assert d in Elements(o2);
      AfterPassAgrees(s, o1, d);
    }
    hide Reconcile, Covered, BindingsEqual, Survives;
    PlaceAllIdle(t.bindings, o2);
    SurvivorsSurvive(t, IdsOf(o1), o2);
    ReconcileTouches(t, o2);
  }

  lemma ReconcileTouches(s: State, order: seq<Binding>)
    ensures var t := Reconcile(s, order); t == s.(bindings := t.bindings, endpoints := t.endpoints)
  {
  }
}
