/** What a pass stores, read off the tables of nodes, memberships and inventory field by field. */
module Links {
  import opened Model
  import opened Runs
  import Names
  import Op = Operations
  import Rec = Reconciler
  import Boundaries
  import ByHand

  /** An approved node has the role in the membership's domain, and the row is one of its interfaces there. */
  predicate Speaks(s: State, km: string, ks: string, role: string) {
    && km in s.members && ks in s.inventory
    && s.members[km].domainID != "" && s.members[km].role == role
    && s.members[km].nodeID in s.nodes && s.nodes[s.members[km].nodeID].approved
    && s.inventory[ks].nodeID == s.members[km].nodeID
    && (s.members[km].iface == "" || s.members[km].iface == s.inventory[ks].name)
  }

  /** Two nodes of one domain, a server and a client, and an interface of each: the client's lists the public
      key of the server's as a peer. */
  predicate Link(s: State, km: string, kc: string, ks: string, kw: string) {
    && Speaks(s, km, ks, "server") && Speaks(s, kc, kw, "client")
    && s.members[km].domainID == s.members[kc].domainID && s.members[km].nodeID != s.members[kc].nodeID
    && s.inventory[ks].publicKey != "" && s.inventory[ks].publicKey in s.inventory[kw].peers
  }

  function LinkID(s: State, km: string, kc: string, ks: string, kw: string): string
    requires Link(s, km, kc, ks, kw)
  {
    Names.CleanID(s.members[km].domainID + "-" + s.members[km].nodeID + "-" + s.inventory[ks].name + "-to-" +
                  s.members[kc].nodeID + "-" + s.inventory[kw].name)
  }

  predicate HasID(s: State, km: string, kc: string, ks: string, kw: string, k: string) {
    Link(s, km, kc, ks, kw) && LinkID(s, km, kc, ks, kw) == k
  }

  /** The binding is the link's: its ends, the server's key, and where and how the client applies it. */
  predicate IsOf(s: State, km: string, kc: string, ks: string, kw: string, b: Binding)
    requires Link(s, km, kc, ks, kw)
  {
    var server, client, si, ci := s.members[km], s.members[kc], s.inventory[ks], s.inventory[kw];
    && b.auto && b.enabled && b.domainID == server.domainID
    && b.serverNode == server.nodeID && b.serverIface == si.name
    && b.clientNode == client.nodeID && b.clientIface == ci.name
    && b.peerKey == si.publicKey
    && b.configType == (if client.configType != "" then client.configType
                        else if ci.configType != "" then ci.configType else "openwrt_uci")
    && b.configPath == ci.configPath
    && b.reloadMethod == (if client.reloadMethod != "" then client.reloadMethod else "none")
    && b.endpointHost == "" && b.endpointPort == 0
  }

  ghost predicate Linked(s: State, k: string) {
    exists km, kc, ks, kw :: HasID(s, km, kc, ks, kw, k)
  }

  predicate HoldsLink(s: State, km: string, kc: string, ks: string, kw: string, k: string) {
    HasID(s, km, kc, ks, kw, k) && k in s.bindings && s.bindings[k].id == k && IsOf(s, km, kc, ks, kw, s.bindings[k])
  }

  // ---------- Links and desired bindings ----------

  lemma LinkIsDesired(s: State, km: string, kc: string, ks: string, kw: string)
    requires Link(s, km, kc, ks, kw)
    ensures Rec.Supports(Rec.WorldOf(s), km, kc, ks, kw)
    ensures var d := Rec.DeriveAt(Rec.WorldOf(s), km, kc, ks, kw);
            d in Rec.Desired(s) && d.id == LinkID(s, km, kc, ks, kw) && IsOf(s, km, kc, ks, kw, d)
  {
    hide Names.CleanID;
    Rec.SupportedIsDesired(s, km, kc, ks, kw);
  }

  lemma DesiredIsLink(s: State, d: Binding) returns (km: string, kc: string, ks: string, kw: string)
    requires d in Rec.Desired(s)
    ensures HasID(s, km, kc, ks, kw, d.id) && IsOf(s, km, kc, ks, kw, d)
  {
    km, kc, ks, kw := Rec.DesiredSupport(s, d);
    hide Names.CleanID;
  }

  lemma LinkedIff(s: State, k: string)
    ensures Linked(s, k) <==> k in Rec.DesiredIds(s)
  {
    hide Rec.Desired, Link, LinkID;
    if Linked(s, k) {
      var km, kc, ks, kw :| HasID(s, km, kc, ks, kw, k);
      LinkIsDesired(s, km, kc, ks, kw);
    }
    if k in Rec.DesiredIds(s) {
      var d :| d in Rec.Desired(s) && d.id == k;
      var km, kc, ks, kw := DesiredIsLink(s, d);
    }
  }

  lemma SameTables(s: State, t: State, km: string, kc: string, ks: string, kw: string)
    requires Rec.WorldOf(s) == Rec.WorldOf(t)
    ensures Link(s, km, kc, ks, kw) == Link(t, km, kc, ks, kw)
    ensures Link(s, km, kc, ks, kw) ==> LinkID(s, km, kc, ks, kw) == LinkID(t, km, kc, ks, kw)
    ensures forall b :: Link(s, km, kc, ks, kw) ==> IsOf(s, km, kc, ks, kw, b) == IsOf(t, km, kc, ks, kw, b)
  {
    hide Names.CleanID;
  }

  lemma SameLinked(s: State, t: State, k: string)
    requires Rec.WorldOf(s) == Rec.WorldOf(t)
    ensures Linked(s, k) == Linked(t, k)
  {
    hide Link, LinkID;
    if km, kc, ks, kw :| HasID(s, km, kc, ks, kw, k) {
      SameTables(s, t, km, kc, ks, kw);
      assert HasID(t, km, kc, ks, kw, k);
    }
    if km, kc, ks, kw :| HasID(t, km, kc, ks, kw, k) {
      SameTables(t, s, km, kc, ks, kw);
      assert HasID(s, km, kc, ks, kw, k);
    }
  }

  // ---------- After a pass ----------

  /** A pass leaves an automatic entry under a link's id as the binding of a link with that id. */
  lemma PassHoldsLink(s: State, order: seq<Binding>, k: string)
    returns (km: string, kc: string, ks: string, kw: string)
    requires SoundBindings(s.bindings) && s.endpoints.Keys <= s.bindings.Keys && Rec.Enumerates(order, s)
    requires var t := Rec.Reconcile(s, order); Linked(t, k) && k in t.bindings && t.bindings[k].auto
    ensures HoldsLink(Rec.Reconcile(s, order), km, kc, ks, kw, k)
  {
    var t := Rec.Reconcile(s, order);
    assert Rec.WorldOf(t) == Rec.WorldOf(s);
    ReconcileFrame(s, order);
    SameLinked(s, t, k);
    LinkedIff(s, k);
    assert k in Rec.IdsOf(order) by {
      var d :| d in Rec.Desired(s) && d.id == k;
      assert d in Rec.Elements(order);
    }
    assert t.bindings[k] == Rec.PlaceAll(s.bindings, order)[k];
    Rec.DesiredIsDerived(s);
    var e := Rec.PlaceAllReflects(s.bindings, order, k);
    assert e in Rec.Elements(order);
    km, kc, ks, kw := DesiredIsLink(s, e);
    SameTables(s, t, km, kc, ks, kw);
    hide Rec.Reconcile, Rec.Enumerates, Rec.Desired, Link, LinkID;
    EqualIsOf(s, km, kc, ks, kw, e, t.bindings[k]);
  }

  /** So does a pass at the end of any run. */
  lemma RunsHoldLinks(steps: seq<Step>, order: seq<Binding>, k: string)
    returns (km: string, kc: string, ks: string, kw: string)
    requires IsRun(EMPTY, steps + [Reconcile(order)])
    requires var t := Exec(EMPTY, steps + [Reconcile(order)]); Linked(t, k) && k in t.bindings && t.bindings[k].auto
    ensures HoldsLink(Exec(EMPTY, steps + [Reconcile(order)]), km, kc, ks, kw, k)
  {
    ExecSnoc(EMPTY, steps, Reconcile(order));
    ReachableIsSound(steps);
    hide Exec, IsRun, Linked, HoldsLink, SoundBindings, Rec.Reconcile, Rec.Enumerates;
    km, kc, ks, kw := PassHoldsLink(Exec(EMPTY, steps), order, k);
  }

  lemma EqualIsOf(s: State, km: string, kc: string, ks: string, kw: string, d: Binding, b: Binding)
    requires Link(s, km, kc, ks, kw) && IsOf(s, km, kc, ks, kw, d)
    requires Rec.BindingsEqual(b, d) && ClearEndpoint(b) == b
    ensures IsOf(s, km, kc, ks, kw, b)
  {
  }

  // ---------- Which entries memberships back ----------

  /** Memberships with these roles on the binding's interfaces. */
  predicate Backs(s: State, km: string, kc: string, b: Binding) {
    && km in s.members && kc in s.members
    && s.members[km].domainID == b.domainID && s.members[km].nodeID == b.serverNode
    && s.members[km].role == "server" && s.members[km].iface == b.serverIface
    && s.members[kc].domainID == b.domainID && s.members[kc].nodeID == b.clientNode
    && s.members[kc].role == "client" && s.members[kc].iface == b.clientIface
  }

  ghost predicate Backed(s: State, b: Binding) {
    exists km, kc :: Backs(s, km, kc, b)
  }

  predicate Slashless(domains: map<string, Domain>) {
    forall k :: k in domains ==> '/' !in k
  }

  /** The table key names the domain and the node, where domains have no slash. */
  lemma KeyNames(s: State, domain: string, node: string)
    requires SoundMembers(s.nodes, s.domains, s.members) && Slashless(s.domains) && '/' !in domain
    requires Names.MemberKey(domain, node) in s.members
    ensures var m := s.members[Names.MemberKey(domain, node)]; m.domainID == domain && m.nodeID == node
  {
    var k := Names.MemberKey(domain, node);
    assert SoundMember(s.nodes, s.domains, k, s.members[k]);
    Names.SlashSeparates(domain, node, s.members[k].domainID, s.members[k].nodeID);
  }

  lemma BackedIff(s: State, b: Binding)
    requires SoundMembers(s.nodes, s.domains, s.members) && Slashless(s.domains) && '/' !in b.domainID
    ensures Rec.MatchesMembers(b, s.members) <==> Backed(s, b)
  {
    var sk, ck := Names.MemberKey(b.domainID, b.serverNode), Names.MemberKey(b.domainID, b.clientNode);
    if Rec.MatchesMembers(b, s.members) {
      KeyNames(s, b.domainID, b.serverNode);
      KeyNames(s, b.domainID, b.clientNode);
      assert Backs(s, sk, ck, b);
    }
    if km, kc :| Backs(s, km, kc, b) {
      assert SoundMember(s.nodes, s.domains, km, s.members[km]) && SoundMember(s.nodes, s.domains, kc, s.members[kc]);
      assert km == sk && kc == ck;
    }
  }

  // ---------- Over runs ----------

  /** Automatic entries are of existing domains. */
  predicate AutoDomains(bindings: map<string, Binding>, domains: map<string, Domain>) {
    forall k :: k in bindings && bindings[k].auto ==> bindings[k].domainID in domains
  }

  lemma DesiredDomain(s: State, d: Binding)
    requires SoundMembers(s.nodes, s.domains, s.members) && d in Rec.Desired(s)
    ensures d.domainID in s.domains
  {
    var km, kc, ks, kw := DesiredIsLink(s, d);
    assert SoundMember(s.nodes, s.domains, km, s.members[km]);
    hide LinkID, Names.MemberKey, Rec.Desired;
  }

  lemma PassKeepsAutoDomains(s: State, order: seq<Binding>)
    requires SoundMembers(s.nodes, s.domains, s.members) && Rec.Enumerates(order, s)
    requires AutoDomains(s.bindings, s.domains)
    ensures AutoDomains(Rec.Reconcile(s, order).bindings, s.domains)
  {
    var t := Rec.Reconcile(s, order);
    hide Rec.Reconcile, Rec.Desired, SoundMembers;
    forall k | k in t.bindings && t.bindings[k].auto ensures t.bindings[k].domainID in s.domains {
      Rec.Reconciled(s, order, k);
      if t.bindings[k] in Rec.Desired(s) {
        DesiredDomain(s, t.bindings[k]);
      }
    }
  }

  lemma {:induction false} RunKeepsAutoDomains(steps: seq<Step>)
    requires IsRun(EMPTY, steps)
    ensures AutoDomains(Exec(EMPTY, steps).bindings, Exec(EMPTY, steps).domains)
  {
    if steps != [] {
      var init, last := steps[..|steps| - 1], steps[|steps| - 1];
      RunKeepsAutoDomains(init);
      ReachableIsSound(init);
      hide Sound, Do, Possible, AutoDomains;
      StepKeepsAutoDomains(Exec(EMPTY, init), last);
    }
  }

  lemma StepKeepsAutoDomains(s: State, step: Step)
    requires Sound(s) && Possible(s, step) && AutoDomains(s.bindings, s.domains)
    ensures AutoDomains(Do(s, step).bindings, Do(s, step).domains)
  {
    hide SoundNodes, SoundMembers, SoundBindings, SoundRows, SoundDomains;
    if IsQuiet(step) {
      QuietFrame(s, step);
      DomainsGrow(s, step);
      hide Do;
    } else {
      match step
      case Reconcile(order) => PassKeepsAutoDomains(s, order);
      case Delete(node) =>
        if node != "" && node in s.nodes {
          DeleteFrame(s, node);
        }
      case Approve(node, a, single, now) =>
        if Op.ApproveError(s, node, a, single).None? {
          ApproveFrame(s, node, a, single, now);
        }
      case AddBinding(b, now) => AddBindingFrame(s, b, now);
      case SaveLease(node, lease, matched, now) => SaveLeaseFrame(s, node, lease, now);
    }
  }

  lemma DomainsGrow(s: State, step: Step)
    requires Sound(s) && IsQuiet(step)
    ensures s.domains.Keys <= Do(s, step).domains.Keys
  {
    hide SoundNodes, SoundMembers, SoundBindings, SoundRows, SoundDomains;
    match step
    case Inventory(node, items, now) => InventoryFrame(s, node, items, now);
    case MarkSeen(node, meta, now) =>
    case RunNatter(node, cmd, now) =>
    case Tell(node, b, lease, id, now) =>
    case Next(node) =>
    case Complete(node, id, result) =>
    case _ => IdentityStepFrame(s, step);
  }

  /** In every reachable state, once a pass has followed the last approval or deletion, memberships with the right
      roles on its interfaces back every automatic entry, where domains have no slash. */
  lemma SettledRunsBacked(steps: seq<Step>)
    requires IsRun(EMPTY, steps) && Boundaries.Settled(steps) && Slashless(Exec(EMPTY, steps).domains)
    ensures var t := Exec(EMPTY, steps);
            forall k :: k in t.bindings && t.bindings[k].auto ==> Backed(t, t.bindings[k])
  {
    var t := Exec(EMPTY, steps);
    ReachableIsSound(steps);
    RunKeepsAutoDomains(steps);
    Boundaries.SettledRunsMatch(steps);
    hide Exec, IsRun, Boundaries.Settled, SoundMembers, Rec.MatchesMembers;
    forall k | k in t.bindings && t.bindings[k].auto ensures Backed(t, t.bindings[k]) {
      BackedIff(t, t.bindings[k]);
    }
  }

  /** What a pass leaves, `s` being the state before and `t` the one after: an entry under the id of every link;
      under such an id an automatic entry is the binding of a link with that id; everything else is as it was,
      except that automatic entries go that no link wants and, where domains have no slash, no memberships back. */
  ghost predicate Passed(s: State, t: State) {
    && (forall km, kc, ks, kw :: Link(t, km, kc, ks, kw) ==> LinkID(t, km, kc, ks, kw) in t.bindings)
    && (forall k :: Linked(t, k) && k in t.bindings && t.bindings[k].auto ==>
          exists km, kc, ks, kw :: HoldsLink(t, km, kc, ks, kw, k))
    && (forall k :: k in t.bindings && !(Linked(t, k) && t.bindings[k].auto) ==>
          k in s.bindings && t.bindings[k] == s.bindings[k])
    && (forall k :: k in s.bindings && k !in t.bindings ==> s.bindings[k].auto && !Linked(t, k))
    && (Slashless(t.domains) ==>
          forall k :: k in s.bindings && s.bindings[k].auto && !Linked(t, k) ==>
            (k in t.bindings <==> Backed(t, s.bindings[k])))
  }

  lemma PassLinks(s: State, order: seq<Binding>, km: string, kc: string, ks: string, kw: string)
    requires SoundBindings(s.bindings) && ByHand.AllManual(s.bindings) && Rec.Enumerates(order, s)
    requires Link(Rec.Reconcile(s, order), km, kc, ks, kw)
    ensures LinkID(s, km, kc, ks, kw) == LinkID(Rec.Reconcile(s, order), km, kc, ks, kw)
    ensures LinkID(s, km, kc, ks, kw) in Rec.Reconcile(s, order).bindings
  {
    var t := Rec.Reconcile(s, order);
    assert Rec.WorldOf(t) == Rec.WorldOf(s);
    SameTables(t, s, km, kc, ks, kw);
    LinkIsDesired(s, km, kc, ks, kw);
    hide Rec.Reconcile, Rec.Enumerates, Rec.Desired, Link, LinkID, SoundBindings, ByHand.AllManual;
    ByHand.PassHolds(s, order, Rec.DeriveAt(Rec.WorldOf(s), km, kc, ks, kw));
  }

  lemma PassElsewhere(s: State, order: seq<Binding>, k: string)
    requires Rec.Enumerates(order, s)
    requires var t := Rec.Reconcile(s, order); k in t.bindings && !(Linked(t, k) && t.bindings[k].auto)
    ensures k in s.bindings && Rec.Reconcile(s, order).bindings[k] == s.bindings[k]
  {
    var t := Rec.Reconcile(s, order);
    assert Rec.WorldOf(t) == Rec.WorldOf(s);
    SameLinked(s, t, k);
    LinkedIff(s, k);
    Rec.DesiredIsDerived(s);
    hide Rec.Reconcile, Rec.Enumerates, Rec.Desired, Linked;
    Rec.Reconciled(s, order, k);
  }

  lemma PassDrops(s: State, order: seq<Binding>, k: string)
    requires SoundMembers(s.nodes, s.domains, s.members)
    requires SoundBindings(s.bindings) && AutoDomains(s.bindings, s.domains) && ByHand.AllManual(s.bindings)
    requires Rec.Enumerates(order, s) && k in s.bindings
    ensures var t := Rec.Reconcile(s, order);
            && (k !in t.bindings ==> s.bindings[k].auto && !Linked(t, k))
            && (Slashless(t.domains) && s.bindings[k].auto && !Linked(t, k) ==>
                  (k in t.bindings <==> Backed(t, s.bindings[k])))
  {
    var t := Rec.Reconcile(s, order);
    assert Rec.WorldOf(t) == Rec.WorldOf(s) && t.members == s.members && t.domains == s.domains;
    assert Backed(t, s.bindings[k]) == Backed(s, s.bindings[k]) by {
      assert forall km, kc :: Backs(t, km, kc, s.bindings[k]) == Backs(s, km, kc, s.bindings[k]);
    }
    SameLinked(s, t, k);
    LinkedIff(s, k);
    hide Rec.Reconcile, Rec.Enumerates, Rec.DesiredIds, Linked, SoundMembers, Backed, Rec.MatchesMembers;
    if k !in t.bindings {
      ByHand.PassDeletes(s, order, k);
    }
    hide SoundBindings;
    Boundaries.DeletedIff(s, order, k);
    if s.bindings[k].auto && Slashless(s.domains) {
      BackedIff(s, s.bindings[k]);
    }
  }

  lemma PassPasses(s: State, order: seq<Binding>)
    requires Sound(s) && AutoDomains(s.bindings, s.domains) && ByHand.AllManual(s.bindings)
    requires Rec.Enumerates(order, s)
    ensures Passed(s, Rec.Reconcile(s, order))
  {
    var t := Rec.Reconcile(s, order);
    hide SoundNodes, SoundMembers, SoundRows, SoundDomains, SoundBindings, ByHand.AllManual, AutoDomains, Slashless;
    hide Rec.Reconcile, Rec.Enumerates, Link, LinkID, Linked, Backed, HoldsLink;
    forall km, kc, ks, kw | Link(t, km, kc, ks, kw) ensures LinkID(t, km, kc, ks, kw) in t.bindings {
      PassLinks(s, order, km, kc, ks, kw);
    }
    forall k | Linked(t, k) && k in t.bindings && t.bindings[k].auto
      ensures exists km, kc, ks, kw :: HoldsLink(t, km, kc, ks, kw, k)
    {
      var km, kc, ks, kw := PassHoldsLink(s, order, k);
    }
    forall k | k in t.bindings && !(Linked(t, k) && t.bindings[k].auto)
      ensures k in s.bindings && t.bindings[k] == s.bindings[k]
    {
      PassElsewhere(s, order, k);
    }
    forall k | k in s.bindings
      ensures k !in t.bindings ==> s.bindings[k].auto && !Linked(t, k)
      ensures Slashless(t.domains) && s.bindings[k].auto && !Linked(t, k) ==>
                (k in t.bindings <==> Backed(t, s.bindings[k]))
    {
      PassDrops(s, order, k);
    }
  }

  /** After a pass in any run whose bindings were added as the command line does. */
  lemma RunsPass(steps: seq<Step>, order: seq<Binding>)
    requires IsRun(EMPTY, steps + [Reconcile(order)]) && ByHand.ManualSteps(steps)
    ensures Passed(Exec(EMPTY, steps), Exec(EMPTY, steps + [Reconcile(order)]))
  {
    ExecSnoc(EMPTY, steps, Reconcile(order));
    ReachableIsSound(steps);
    RunKeepsAutoDomains(steps);
    ByHand.RunIsManual(steps);
    hide Exec, IsRun, Sound, Passed, AutoDomains, Slashless, ByHand.AllManual;
    PassPasses(Exec(EMPTY, steps), order);
  }
}
