/** When a store opened from files has the integrity every run keeps. */
module Opening {
  import opened Model
  import opened Runs
  import Names
  import Rec = Reconciler
  import Loops = LoopOrders
  import Disk = Persistence

  /** A node that migration gives a membership it does not have yet. */
  predicate Migrates(d: Disk.DataFile, n: string) {
    n in d.nodes && Disk.HasLegacyMembership(d.nodes[n]) && Disk.LegacyKey(d.nodes[n]) !in d.members
  }

  /** Nodes are filed under their ids; known memberships are sound, and those to be migrated are of approved nodes
      and existing domains. */
  predicate MembersReady(d: Disk.DataFile) {
    && (forall k :: k in d.nodes ==> d.nodes[k].id == k)
    && (forall k :: k in d.members ==> SoundMember(d.nodes, d.domains, k, d.members[k]))
    && (forall n :: n in d.nodes && Migrates(d, n) ==> d.nodes[n].approved && d.nodes[n].legacy.domainID in d.domains)
  }

  /** Bindings are filed under their ids, automatic ones under their automatic ids, are enabled, and none has half
      an endpoint; every stored endpoint is of a binding. */
  predicate BindingsReady(d: Disk.DataFile, r: Disk.RuntimeFile) {
    && Rec.KeyedTable(d.bindings)
    && (forall k :: k in d.bindings ==>
          d.bindings[k].enabled &&
              (Disk.HasInlineEndpoint(d.bindings[k]) || ClearEndpoint(d.bindings[k]) == d.bindings[k]))
    && r.endpoints.Keys <= d.bindings.Keys
  }

  predicate FilesReady(d: Disk.DataFile, r: Disk.RuntimeFile) {
    && MembersReady(d) && BindingsReady(d, r)
    && SoundDomains(d.domains, r.pendingDomain)
    && SoundRows(r.inventory + d.legacyInventory)
  }

  // ---------- Some outcome of opening ----------

  predicate Claims(nodes: map<string, Node>, n: string, k: string) {
    n in nodes && Disk.HasLegacyMembership(nodes[n]) && Disk.LegacyKey(nodes[n]) == k
  }

  /** The node that gets membership key `k`: `first` if it claims it. */
  ghost function Claimant(nodes: map<string, Node>, first: string, k: string): (n: string)
    requires exists n :: Claims(nodes, n, k)
    ensures Claims(nodes, n, k) && (Claims(nodes, first, k) ==> n == first)
  {
    if Claims(nodes, first, k) then first
    else
      var n :| Claims(nodes, n, k);
      n
  }

  ghost function LegacyKeys(nodes: map<string, Node>): set<string> {
    set n | n in nodes && Disk.HasLegacyMembership(nodes[n]) :: Disk.LegacyKey(nodes[n])
  }

  /** Some way of migrating lets a given node have its membership. */
  lemma SomeMembers(nodes: map<string, Node>, known: map<string, DomainMember>, first: string)
    returns (members: map<string, DomainMember>)
    ensures Disk.MigratedMembers(nodes, known, members)
    ensures first in nodes && Disk.HasLegacyMembership(nodes[first]) && Disk.LegacyKey(nodes[first]) !in known ==>
              Disk.LegacyKey(nodes[first]) in members &&
              members[Disk.LegacyKey(nodes[first])] == Disk.LegacyMember(nodes[first])
  {
    hide Disk.LegacyKey, Disk.LegacyMember, Disk.HasLegacyMembership;
    forall k | k in LegacyKeys(nodes) ensures exists n :: Claims(nodes, n, k) {
      var n :| n in nodes && Disk.HasLegacyMembership(nodes[n]) && Disk.LegacyKey(nodes[n]) == k;
      assert Claims(nodes, n, k);
    }
    members := map k | k in known.Keys + LegacyKeys(nodes) ::
      if k in known then known[k] else Disk.LegacyMember(nodes[Claimant(nodes, first, k)]);
    forall k | k in members && k !in known ensures exists n :: Disk.FromLegacy(nodes, n, k, members[k]) {
      assert Disk.FromLegacy(nodes, Claimant(nodes, first, k), k, members[k]);
    }
    forall n | n in nodes && Disk.HasLegacyMembership(nodes[n])
      ensures Claims(nodes, n, Disk.LegacyKey(nodes[n])) && Disk.LegacyKey(nodes[n]) in LegacyKeys(nodes)
    {
    }
  }

  lemma SomeOpened(d: Disk.DataFile, r: Disk.RuntimeFile, now: string, first: string) returns (s: State)
    ensures Disk.Opened(d, r, now, s)
    ensures Migrates(d, first) ==>
              var n := d.nodes[first];
              Disk.LegacyKey(n) in s.members && s.members[Disk.LegacyKey(n)] == Disk.LegacyMember(n)
  {
    var members := SomeMembers(d.nodes, d.members, first);
    s := State(Disk.ClearedNodes(d.nodes), d.domains, members, Disk.MigratedBindings(d.bindings),
               Disk.MigratedPresence(d.nodes, r.presence), r.pendingDomain, r.inventory + d.legacyInventory,
               if d.legacyLeases != [] then d.legacyLeases else r.leases,
               Disk.MigratedEndpoints(d.bindings, r.endpoints, now), r.commands + d.legacyCommands);
  }

  // ---------- Table by table ----------

  lemma NodesIff(d: Disk.DataFile)
    ensures SoundNodes(Disk.ClearedNodes(d.nodes)) <==> forall k :: k in d.nodes ==> d.nodes[k].id == k
  {
    assert forall k :: k in d.nodes ==> Disk.ClearedNodes(d.nodes)[k] == ClearNode(d.nodes[k]);
  }

  lemma ClearedMember(d: Disk.DataFile, k: string, m: DomainMember)
    ensures SoundMember(Disk.ClearedNodes(d.nodes), d.domains, k, m) == SoundMember(d.nodes, d.domains, k, m)
  {
    hide Names.MemberKey;
  }

  lemma LegacyMemberIff(d: Disk.DataFile, n: string)
    requires n in d.nodes && d.nodes[n].id == n && Disk.HasLegacyMembership(d.nodes[n])
    ensures SoundMember(d.nodes, d.domains, Disk.LegacyKey(d.nodes[n]), Disk.LegacyMember(d.nodes[n])) <==>
            d.nodes[n].approved && d.nodes[n].legacy.domainID in d.domains
  {
    hide Names.MemberKey;
  }

  lemma ReadyMembers(d: Disk.DataFile, members: map<string, DomainMember>)
    requires MembersReady(d) && Disk.MigratedMembers(d.nodes, d.members, members)
    ensures SoundMembers(Disk.ClearedNodes(d.nodes), d.domains, members)
  {
    hide Disk.LegacyKey, Disk.LegacyMember, Disk.HasLegacyMembership, SoundMember;
    forall k | k in members ensures SoundMember(Disk.ClearedNodes(d.nodes), d.domains, k, members[k]) {
      ClearedMember(d, k, members[k]);
      if k !in d.members {
        var n :| Disk.FromLegacy(d.nodes, n, k, members[k]);
        assert Migrates(d, n);
        LegacyMemberIff(d, n);
      }
    }
  }

  lemma MembersOnly(d: Disk.DataFile, s: State, first: string)
    requires (forall k :: k in d.nodes ==> d.nodes[k].id == k) && Disk.MigratedMembers(d.nodes, d.members, s.members)
    requires SoundMembers(Disk.ClearedNodes(d.nodes), d.domains, s.members)
    requires Migrates(d, first) ==>
               var n := d.nodes[first];
               Disk.LegacyKey(n) in s.members && s.members[Disk.LegacyKey(n)] == Disk.LegacyMember(n)
    ensures forall k :: k in d.members ==> SoundMember(d.nodes, d.domains, k, d.members[k])
    ensures Migrates(d, first) ==> d.nodes[first].approved && d.nodes[first].legacy.domainID in d.domains
  {
    hide Disk.LegacyKey, Disk.LegacyMember, Disk.HasLegacyMembership, SoundMember, Disk.ClearedNodes;
    forall k | k in d.members ensures SoundMember(d.nodes, d.domains, k, d.members[k]) {
      assert SoundMember(Disk.ClearedNodes(d.nodes), d.domains, k, s.members[k]);
      ClearedMember(d, k, d.members[k]);
    }
    if Migrates(d, first) {
      var k := Disk.LegacyKey(d.nodes[first]);
      assert SoundMember(Disk.ClearedNodes(d.nodes), d.domains, k, s.members[k]);
      ClearedMember(d, k, s.members[k]);
      LegacyMemberIff(d, first);
    }
  }

  lemma MigratedEntry(bindings: map<string, Binding>, k: string)
    requires k in bindings
    ensures var b, m := bindings[k], Disk.MigratedBindings(bindings)[k];
            && m.id == b.id && m.auto == b.auto && m.enabled == b.enabled && Rec.AutoID(m) == Rec.AutoID(b)
            && (ClearEndpoint(m) == m <==> Disk.HasInlineEndpoint(b) || ClearEndpoint(b) == b)
  {
    hide Names.AutoBindingID;
  }

  lemma MigratedEntries(bindings: map<string, Binding>, known: map<string, Endpoint>, now: string)
    ensures Disk.MigratedBindings(bindings).Keys == bindings.Keys
    ensures Disk.MigratedEndpoints(bindings, known, now).Keys <= bindings.Keys <==> known.Keys <= bindings.Keys
  {
    var e := Disk.MigratedEndpoints(bindings, known, now);
    assert forall k :: k in e <==> k in known || (k in bindings && Disk.HasInlineEndpoint(bindings[k]));
  }

  lemma BindingsIff(d: Disk.DataFile, r: Disk.RuntimeFile, now: string)
    ensures BindingsReady(d, r) <==>
            && SoundBindings(Disk.MigratedBindings(d.bindings))
            && Disk.MigratedEndpoints(d.bindings, r.endpoints, now).Keys <= d.bindings.Keys
  {
    var m, e := Disk.MigratedBindings(d.bindings), Disk.MigratedEndpoints(d.bindings, r.endpoints, now);
    MigratedEntries(d.bindings, r.endpoints, now);
    hide Disk.MigratedBindings, Disk.MigratedEndpoints, Disk.HasInlineEndpoint, ClearEndpoint, Rec.AutoID;
    forall k | k in d.bindings
      ensures m[k].id == d.bindings[k].id && m[k].auto == d.bindings[k].auto && m[k].enabled == d.bindings[k].enabled
      ensures Rec.AutoID(m[k]) == Rec.AutoID(d.bindings[k])
      ensures ClearEndpoint(m[k]) == m[k] <==>
              Disk.HasInlineEndpoint(d.bindings[k]) || ClearEndpoint(d.bindings[k]) == d.bindings[k]
    {
      MigratedEntry(d.bindings, k);
    }
  }

  // ---------- The whole store ----------

  lemma ReadyOpensSound(d: Disk.DataFile, r: Disk.RuntimeFile, now: string, s: State)
    requires FilesReady(d, r) && Disk.Opened(d, r, now, s)
    ensures Sound(s)
  {
    hide Disk.ClearedNodes, Disk.MigratedBindings, Disk.MigratedPresence, Disk.MigratedEndpoints, Disk.MigratedMembers;
    hide SoundNodes, SoundMembers, SoundBindings, SoundRows, SoundDomains, BindingsReady;
    NodesIff(d);
    ReadyMembers(d, s.members);
    hide MembersReady;
    BindingsIff(d, r, now);
    assert s.bindings.Keys == d.bindings.Keys by { MigratedKeys(d.bindings); }
  }

  lemma MigratedKeys(bindings: map<string, Binding>)
    ensures Disk.MigratedBindings(bindings).Keys == bindings.Keys
  {
  }

  lemma SoundNeedsReady(d: Disk.DataFile, r: Disk.RuntimeFile, now: string, s: State, first: string)
    requires Disk.Opened(d, r, now, s) && Sound(s)
    requires Migrates(d, first) ==>
               var n := d.nodes[first];
               Disk.LegacyKey(n) in s.members && s.members[Disk.LegacyKey(n)] == Disk.LegacyMember(n)
    ensures (forall k :: k in d.nodes ==> d.nodes[k].id == k) && BindingsReady(d, r)
    ensures SoundDomains(d.domains, r.pendingDomain) && SoundRows(r.inventory + d.legacyInventory)
    ensures forall k :: k in d.members ==> SoundMember(d.nodes, d.domains, k, d.members[k])
    ensures Migrates(d, first) ==> d.nodes[first].approved && d.nodes[first].legacy.domainID in d.domains
  {
    hide Disk.ClearedNodes, Disk.MigratedBindings, Disk.MigratedPresence, Disk.MigratedEndpoints, Disk.MigratedMembers;
    hide SoundNodes, SoundMember, SoundMembers, SoundBindings, SoundRows, SoundDomains, BindingsReady, Migrates;
    NodesIff(d);
    BindingsIff(d, r, now);
    MigratedKeys(d.bindings);
    MembersOnly(d, s, first);
  }

  /** Opening two files leaves a store with that integrity, whichever node wins a contested membership, exactly
      when the files are ready: then everything proved about runs and requests applies to it. */
  lemma OpenedIsSoundIff(d: Disk.DataFile, r: Disk.RuntimeFile, now: string)
    ensures (forall s :: Disk.Opened(d, r, now, s) ==> Sound(s)) <==> FilesReady(d, r)
  {
    hide Disk.Opened, Sound, BindingsReady, SoundRows, SoundDomains, SoundMember;
    if FilesReady(d, r) {
      forall s | Disk.Opened(d, r, now, s) ensures Sound(s) {
        ReadyOpensSound(d, r, now, s);
      }
    }
    if forall s :: Disk.Opened(d, r, now, s) ==> Sound(s) {
      var any := SomeOpened(d, r, now, "");
      SoundNeedsReady(d, r, now, any, "");
      forall n | n in d.nodes && Migrates(d, n)
        ensures d.nodes[n].approved && d.nodes[n].legacy.domainID in d.domains
      {
        var s := SomeOpened(d, r, now, n);
        SoundNeedsReady(d, r, now, s, n);
      }
    }
  }

  /** In particular it is keyed, as the results about loop orders ask. */
  lemma SoundIsKeyed(s: State)
    requires Sound(s)
    ensures Loops.KeyedWorld(Rec.WorldOf(s)) && Rec.KeyedTable(s.bindings)
  {
    hide Names.MemberKey, Names.InterfaceKey, Rec.AutoID;
    forall k | k in s.members ensures k == Names.MemberKey(s.members[k].domainID, s.members[k].nodeID) {
      assert SoundMember(s.nodes, s.domains, k, s.members[k]);
    }
  }
}
