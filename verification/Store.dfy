/** The store: tables updated in place under one lock, and two files rewritten as whole values.
    A loop over a map visits its keys in an order the program does not choose. */
module Store {
  import opened Model
  import Names
  import Op = Operations
  import Rec = Reconciler
  import Disk = Persistence
  import CommandQueue
  import Loops = LoopOrders
  import Runs
  import Links
  import Records

  /** The running result of the first reconcile loop. */
  datatype Pass = Pass(created: seq<Binding>, updated: nat, valid: set<string>)

  ghost predicate PassOf(start: map<string, Binding>, now: map<string, Binding>, pass: Pass, placed: seq<Binding>) {
    && now == Rec.PlaceAll(start, placed)
    && pass.created == Rec.Created(start, placed)
    && pass.valid == Rec.IdsOf(placed)
    && (pass.created == [] && pass.updated == 0 ==> now == start)
  }

  lemma PassExtends(start: map<string, Binding>, now: map<string, Binding>, pass: Pass, placed: seq<Binding>,
                    d: Binding, out: Pass)
    requires PassOf(start, now, pass, placed)
    requires out.valid == pass.valid + {d.id}
    requires out.created == pass.created + if d.id !in now && !Rec.Covered(now, d) then [d] else []
    requires out.updated ==
             pass.updated + if d.id in now && now[d.id].auto && !Rec.BindingsEqual(now[d.id], d) then 1 else 0
    ensures PassOf(start, Rec.Place(now, d), out, placed + [d])
  {
    var all := placed + [d];
    assert all[..|all| - 1] == placed;
    assert Rec.IdsOf(all) == Rec.IdsOf(placed) + {d.id};
  }

  class Store {
    var nodes: map<string, Node>
    var domains: map<string, Domain>
    var members: map<string, DomainMember>
    var bindings: map<string, Binding>
    var presence: map<string, Presence>
    var pendingDomain: map<string, string>
    var inventory: map<string, WGInterface>
    var leases: seq<Lease>
    var endpoints: map<string, Endpoint>
    var commands: map<string, seq<QueuedCommand>>
    var dataFile: Disk.DataFile
    var runtimeFile: Disk.RuntimeFile

    function View(): State
      reads this
    {
      State(nodes, domains, members, bindings, presence, pendingDomain, inventory, leases, endpoints, commands)
    }

    /** Both files hold what memory holds. */
    ghost predicate InSync()
      reads this
    {
      dataFile == Disk.SavedData(View()) && runtimeFile == Disk.SavedRuntime(View())
    }

    // ---------- Opening ----------

    /** Without a data file the store starts empty, whatever the runtime file says. */
    constructor Open(data: Option<Disk.DataFile>, runtime: Option<Disk.RuntimeFile>, now: string)
      ensures InSync()
      ensures data.None? ==> View() == EMPTY
      ensures data.Some? ==>
              Disk.Opened(data.value, if runtime.Some? then runtime.value else Disk.NO_RUNTIME, now, View())
    {
      var d := if data.Some? then data.value else Disk.NO_DATA;
      var r := if data.Some? && runtime.Some? then runtime.value else Disk.NO_RUNTIME;
      nodes, domains, members, bindings := d.nodes, d.domains, d.members, d.bindings;
      presence, pendingDomain := r.presence, r.pendingDomain;
      inventory := r.inventory + d.legacyInventory;
      leases := if d.legacyLeases != [] then d.legacyLeases else r.leases;
      endpoints, commands := r.endpoints, r.commands + d.legacyCommands;
      dataFile, runtimeFile := d, r;
      new;
      hide Disk.Opened, InSync;
      Migrate(d, r, now);
      Save();
      if data.None? {
        Disk.NothingOpens(now, View());
      }
    }

    /** The tables as read from the files, before migration. */
    ghost predicate Loaded(d: Disk.DataFile, r: Disk.RuntimeFile)
      reads this
    {
      && nodes == d.nodes && domains == d.domains && members == d.members && bindings == d.bindings
      && presence == r.presence && pendingDomain == r.pendingDomain && endpoints == r.endpoints
      && inventory == r.inventory + d.legacyInventory && commands == r.commands + d.legacyCommands
      && leases == if d.legacyLeases != [] then d.legacyLeases else r.leases
    }

    method Migrate(d: Disk.DataFile, r: Disk.RuntimeFile, now: string)
      requires Loaded(d, r)
      modifies this`members, this`nodes, this`presence, this`bindings, this`endpoints
      ensures Disk.Opened(d, r, now, View())
    {
      hide Disk.MigratedMembers, Disk.MigratedPresence, Disk.MigratedBindings, Disk.MigratedEndpoints;
      hide Disk.ClearedNodes;
      MigrateMembers();
      MigrateNodes();
      MigrateBindings(now);
    }

    /** Gives every node with a legacy membership its record, unless one is already there. */
    method MigrateMembers()
      modifies this`members
      ensures Disk.MigratedMembers(nodes, old(members), members)
    {
      var todo := nodes.Keys;
      ghost var known := members;
      while todo != {}
        invariant todo <= nodes.Keys
        invariant known.Keys <= members.Keys && forall k :: k in known ==> members[k] == known[k]
        invariant forall k :: k in members && k !in known ==> exists n :: Disk.FromLegacy(nodes, n, k, members[k])
        invariant forall n :: n in nodes && n !in todo && Disk.HasLegacyMembership(nodes[n]) ==>
                  Disk.LegacyKey(nodes[n]) in members
        decreases |todo|
      {
        var n :| n in todo;
        todo := todo - {n};
        if Disk.HasLegacyMembership(nodes[n]) {
          var key := Disk.LegacyKey(nodes[n]);
          if key !in members {
            members := members[key := Disk.LegacyMember(nodes[n])];
            assert Disk.FromLegacy(nodes, n, key, members[key]);
          }
        }
      }
    }

    /** Moves presence out of the node records and clears them. */
    method MigrateNodes()
      modifies this`nodes, this`presence
      ensures nodes == Disk.ClearedNodes(old(nodes))
      ensures presence == Disk.MigratedPresence(old(nodes), old(presence))
    {
      hide Disk.NodesSoFar, Disk.ClearedNodes, Disk.MigratedPresence;
      var todo := nodes.Keys;
      ghost var was, seen := nodes, presence;
      Disk.NodesStart(was, seen);
      while todo != {}
        invariant todo <= was.Keys && nodes.Keys == was.Keys
        invariant Disk.NodesSoFar(was, seen, nodes, presence, todo)
        decreases |todo|
      {
        var k :| k in todo;
        assert todo - {k} + {k} == todo;
        Disk.NodesStep(was, seen, nodes, presence, todo - {k}, k);
        if Disk.HasPresence(nodes[k]) {
          presence := presence[k := Disk.LegacyPresence(nodes[k])];
        }
        nodes, todo := nodes[k := ClearNode(nodes[k])], todo - {k};
      }
      Disk.NodesDone(was, seen, nodes, presence);
    }

    /** Moves complete inline endpoints out of the binding records. */
    method MigrateBindings(now: string)
      modifies this`bindings, this`endpoints
      ensures bindings == Disk.MigratedBindings(old(bindings))
      ensures endpoints == Disk.MigratedEndpoints(old(bindings), old(endpoints), now)
    {
      hide Disk.BindingsSoFar, Disk.MigratedBindings, Disk.MigratedEndpoints;
      var todo := bindings.Keys;
      ghost var was, ends := bindings, endpoints;
      Disk.BindingsStart(was, ends, now);
      while todo != {}
        invariant todo <= was.Keys && bindings.Keys == was.Keys
        invariant Disk.BindingsSoFar(was, ends, now, bindings, endpoints, todo)
        decreases |todo|
      {
        var k :| k in todo;
        assert todo - {k} + {k} == todo;
        Disk.BindingsStep(was, ends, now, bindings, endpoints, todo - {k}, k);
        var b := bindings[k];
        if Disk.HasInlineEndpoint(b) {
          endpoints := endpoints[k := Endpoint(b.endpointHost, b.endpointPort, now)];
          bindings := bindings[k := ClearEndpoint(b)];
        }
        todo := todo - {k};
      }
      Disk.BindingsDone(was, ends, now, bindings, endpoints);
    }

    // ---------- Saving ----------

    method ClearNodes() returns (cleared: map<string, Node>)
      ensures cleared == Disk.ClearedNodes(nodes)
    {
      cleared := map[];
      var todo := nodes.Keys;
      while todo != {}
        invariant todo <= nodes.Keys && cleared.Keys == nodes.Keys - todo
        invariant forall k :: k in cleared ==> cleared[k] == ClearNode(nodes[k])
        decreases |todo|
      {
        var k :| k in todo;
        cleared, todo := cleared[k := ClearNode(nodes[k])], todo - {k};
      }
    }

    method ClearBindings() returns (cleared: map<string, Binding>)
      ensures cleared == Disk.ClearedBindings(bindings)
    {
      cleared := map[];
      var todo := bindings.Keys;
      while todo != {}
        invariant todo <= bindings.Keys && cleared.Keys == bindings.Keys - todo
        invariant forall k :: k in cleared ==> cleared[k] == ClearEndpoint(bindings[k])
        decreases |todo|
      {
        var k :| k in todo;
        cleared, todo := cleared[k := ClearEndpoint(bindings[k])], todo - {k};
      }
    }

    method SaveData()
      modifies this`dataFile
      ensures dataFile == Disk.SavedData(View())
    {
      var clearedNodes := ClearNodes();
      var clearedBindings := ClearBindings();
      dataFile := Disk.DataFile(clearedNodes, domains, members, clearedBindings, map[], [], map[]);
    }

    method SaveRuntime()
      modifies this`runtimeFile
      ensures runtimeFile == Disk.SavedRuntime(View())
    {
      runtimeFile := Disk.RuntimeFile(presence, pendingDomain, inventory, leases, endpoints, commands);
    }

    method Save()
      modifies this`dataFile, this`runtimeFile
      ensures InSync() && View() == old(View())
    {
      hide Disk.SavedData, Disk.SavedRuntime;
      SaveData();
      SaveRuntime();
    }

    // ---------- Reconciling ----------

    /** The rows a membership speaks for, each once, in an order the map chooses. */
    method InterfacesFor(m: DomainMember) returns (rows: seq<WGInterface>)
      ensures Loops.Lists(inventory, Loops.RowKeys(inventory, m), rows)
    {
      rows := [];
      var todo := inventory.Keys;
      ghost var keys: seq<string> := [];
      while todo != {}
        invariant todo <= inventory.Keys
        invariant Loops.ListedBy(inventory, Loops.RowKeys(inventory, m) - todo, rows, keys)
        decreases |todo|
      {
        var k :| k in todo;
        Loops.ListedMore(inventory, Loops.RowKeys(inventory, m) - todo, rows, keys, k);
        hide Loops.ListedBy;
        if Rec.Selects(m, inventory[k]) {
          assert Loops.RowKeys(inventory, m) - (todo - {k}) == Loops.RowKeys(inventory, m) - todo + {k};
          rows, keys := rows + [inventory[k]], keys + [k];
        } else {
          assert Loops.RowKeys(inventory, m) - (todo - {k}) == Loops.RowKeys(inventory, m) - todo;
        }
        todo := todo - {k};
      }
      assert Loops.RowKeys(inventory, m) - {} == Loops.RowKeys(inventory, m);
    }

    method BindingExists(d: Binding) returns (found: bool)
      ensures found <==> Rec.Covered(bindings, d)
      ensures found <==>
              exists k :: k in bindings && bindings[k].domainID == d.domainID &&
                          bindings[k].serverNode == d.serverNode && bindings[k].serverIface == d.serverIface &&
                          bindings[k].clientNode == d.clientNode && bindings[k].clientIface == d.clientIface &&
                          bindings[k].peerKey == d.peerKey
    {
      var todo := bindings.Keys;
      while todo != {}
        invariant todo <= bindings.Keys
        invariant forall k :: k in bindings && k !in todo ==> !Rec.SameSix(bindings[k], d)
        decreases |todo|
      {
        var k :| k in todo;
        todo := todo - {k};
        if Rec.SameSix(bindings[k], d) {
          return true;
        }
      }
      return false;
    }

    method PlaceOne(d: Binding, pass: Pass, ghost start: map<string, Binding>, ghost placed: seq<Binding>)
      returns (out: Pass)
      requires PassOf(start, bindings, pass, placed)
      modifies this`bindings
      ensures PassOf(start, bindings, out, placed + [d])
    {
      ghost var now := bindings;
      out := pass.(valid := pass.valid + {d.id});
      if d.id in bindings {
        var known := bindings[d.id];
        if known.auto && !Rec.BindingsEqual(known, d) {
          bindings := bindings[d.id := d];
          out := out.(updated := out.updated + 1);
        }
      } else {
        var found := BindingExists(d);
        if !found {
          bindings := bindings[d.id := d];
          out := out.(created := out.created + [d]);
        }
      }
      PassExtends(start, now, pass, placed, d, out);
    }

    method LinkClientRows(server: DomainMember, client: DomainMember, si: WGInterface, cis: seq<WGInterface>,
                          pass: Pass, ghost start: map<string, Binding>, ghost placed: seq<Binding>)
      returns (out: Pass)
      requires PassOf(start, bindings, pass, placed)
      modifies this`bindings
      ensures PassOf(start, bindings, out, placed + Loops.RowsRun(server, client, si, cis))
    {
      hide PassOf, Rec.Derive, Rec.Peers;
      out := pass;
      assert placed + [] == placed;
      for i := 0 to |cis|
        invariant PassOf(start, bindings, out, placed + Loops.RowsRun(server, client, si, cis[..i]))
      {
        ghost var before := Loops.RowsRun(server, client, si, cis[..i]);
        assert cis[..i + 1][..i] == cis[..i];
        if Rec.Peers(si, cis[i]) {
          var d := Rec.Derive(server, client, si, cis[i]);
          out := PlaceOne(d, out, start, placed + before);
          assert placed + before + [d] == placed + (before + [d]);
        } else {
          assert before + [] == before;
        }
      }
      assert cis[..|cis|] == cis;
    }

    method LinkServerRows(server: DomainMember, client: DomainMember, sis: seq<WGInterface>, cis: seq<WGInterface>,
                          pass: Pass, ghost start: map<string, Binding>, ghost placed: seq<Binding>)
      returns (out: Pass)
      requires PassOf(start, bindings, pass, placed)
      modifies this`bindings
      ensures PassOf(start, bindings, out, placed + Loops.PairRun(server, client, sis, cis))
    {
      hide PassOf, Loops.RowsRun;
      out := pass;
      assert placed + [] == placed;
      for i := 0 to |sis|
        invariant PassOf(start, bindings, out, placed + Loops.PairRun(server, client, sis[..i], cis))
      {
        ghost var before, more :=
            Loops.PairRun(server, client, sis[..i], cis), Loops.RowsRun(server, client, sis[i], cis);
        assert sis[..i + 1][..i] == sis[..i];
        if sis[i].publicKey != "" {
          out := LinkClientRows(server, client, sis[i], cis, out, start, placed + before);
          assert placed + before + more == placed + (before + more);
        } else {
          Loops.KeylessRow(server, client, sis[i], cis);
          assert before + [] == before;
        }
      }
      assert sis[..|sis|] == sis;
    }

    method LinkClients(server: DomainMember, members': seq<DomainMember>, sis: seq<WGInterface>,
                       pass: Pass, ghost start: map<string, Binding>, ghost placed: seq<Binding>)
      returns (out: Pass, ghost run: seq<Binding>)
      requires PassOf(start, bindings, pass, placed)
      modifies this`bindings
      ensures PassOf(start, bindings, out, placed + run) && Loops.ClientsRun(inventory, server, sis, members', run)
    {
      hide PassOf, Loops.PairRun, Loops.Lists, Loops.ClientsRun;
      out, run := pass, [];
      assert placed + [] == placed;
      Loops.NoClients(inventory, server, sis);
      for i := 0 to |members'|
        invariant PassOf(start, bindings, out, placed + run)
        invariant Loops.ClientsRun(inventory, server, sis, members'[..i], run)
      {
        var client := members'[i];
        ghost var part: seq<Binding> := [];
        if client.nodeID != server.nodeID && client.role == "client" {
          var cis := InterfacesFor(client);
          out := LinkServerRows(server, client, sis, cis, out, start, placed + run);
          part := Loops.PairRun(server, client, sis, cis);
        }
        assert Loops.ClientRun(inventory, server, sis, client, part);
        Loops.NextClient(inventory, server, sis, members', i, run, part);
        assert placed + run + part == placed + (run + part) && placed + run + [] == placed + run;
        run := run + part;
      }
      assert members'[..|members'|] == members';
    }

    method LinkServers(members': seq<DomainMember>, pass: Pass, ghost start: map<string, Binding>,
                       ghost placed: seq<Binding>)
      returns (out: Pass, ghost run: seq<Binding>)
      requires PassOf(start, bindings, pass, placed)
      modifies this`bindings
      ensures PassOf(start, bindings, out, placed + run) && Loops.ServersRun(inventory, members', members', run)
    {
      hide PassOf, Loops.Lists, Loops.ClientsRun, Loops.ServersRun;
      out, run := pass, [];
      assert placed + [] == placed;
      Loops.NoServers(inventory, members');
      for i := 0 to |members'|
        invariant PassOf(start, bindings, out, placed + run)
        invariant Loops.ServersRun(inventory, members', members'[..i], run)
      {
        var server := members'[i];
        ghost var part: seq<Binding> := [];
        if server.role == "server" {
          var sis := InterfacesFor(server);
          out, part := LinkClients(server, members', sis, out, start, placed + run);
        }
        assert Loops.ServerRun(inventory, members', server, part);
        Loops.NextServer(inventory, members', members', i, run, part);
        assert placed + run + part == placed + (run + part) && placed + run + [] == placed + run;
        run := run + part;
      }
      assert members'[..|members'|] == members';
    }

    /** Groups the approved members by domain, each list in an order the map chooses. */
    method GroupMembers() returns (byDomain: map<string, seq<DomainMember>>)
      ensures Loops.Grouped(Rec.World(nodes, members, inventory), byDomain)
    {
      hide Loops.ListedBy;
      byDomain := map[];
      var todo := members.Keys;
      ghost var w := Rec.World(nodes, members, inventory);
      ghost var keys: map<string, seq<string>> := map[];
      while todo != {}
        invariant todo <= members.Keys
        invariant Loops.GroupedSoFar(w, byDomain, keys, todo)
        decreases |todo|
      {
        var k :| k in todo;
        var m := members[k];
        Loops.GroupMore(w, byDomain, keys, todo, k);
        hide Loops.GroupedSoFar;
        if m.nodeID in nodes && nodes[m.nodeID].approved && m.domainID != "" {
          var known := if m.domainID in byDomain then byDomain[m.domainID] else [];
          byDomain := byDomain[m.domainID := known + [m]];
          keys := keys[m.domainID := (if m.domainID in keys then keys[m.domainID] else []) + [k]];
        }
        todo := todo - {k};
      }
      Loops.GroupDone(w, byDomain, keys);
    }

    /** The first loop: places the desired bindings in an order that the maps choose and the loops allow. */
    method PlaceDesired() returns (out: Pass, ghost order: seq<Binding>)
      modifies this`bindings
      ensures PassOf(old(bindings), bindings, out, order)
      ensures Loops.LoopOrder(old(View()), order)
    {
      hide PassOf, Loops.Grouped, Loops.ServersRun, Loops.DomainsRun;
      out, order := Pass([], 0, {}), [];
      var byDomain := GroupMembers();
      var todo := byDomain.Keys;
      ghost var start := bindings;
      ghost var doms: seq<string> := [];
      NothingPlaced(start);
      Loops.NoDomains(inventory, byDomain);
      while todo != {}
        invariant todo <= byDomain.Keys
        invariant PassOf(start, bindings, out, order)
        invariant Loops.Once(doms) && forall dom :: dom in doms <==> dom in byDomain && dom !in todo
        invariant Loops.DomainsRun(inventory, byDomain, doms, order)
        decreases |todo|
      {
        var dom :| dom in todo;
        ghost var run;
        out, run := LinkServers(byDomain[dom], out, start, order);
        Loops.NextDomain(inventory, byDomain, doms, dom, order, run);
        order, doms := order + run, doms + [dom];
        todo := todo - {dom};
      }
      assert Loops.LoopOrderBy(old(View()), order, byDomain, doms);
    }

    /** The second loop: drops automatic-class bindings that are neither valid nor backed by memberships. */
    method PruneBindings(valid: set<string>) returns (removed: nat)
      modifies this`bindings, this`endpoints
      ensures bindings == Rec.Prune(old(bindings), valid, members)
      ensures endpoints == Rec.PrunedEndpoints(old(endpoints), old(bindings), bindings)
      ensures removed == 0 ==> bindings == old(bindings) && endpoints == old(endpoints)
    {
      hide Rec.Prune, Rec.PrunedEndpoints, Rec.Survives, Rec.IsAutoBindingID, Rec.MatchesMembers;
      removed := 0;
      var todo := bindings.Keys;
      ghost var was, ends, gone: set<string> := bindings, endpoints, {};
      while todo != {}
        invariant todo <= bindings.Keys
        invariant bindings == was - gone && endpoints == ends - gone
        invariant forall k :: k in gone <==> k in was && k !in todo && !Rec.Survives(k, was[k], valid, members)
        invariant removed == 0 ==> gone == {}
        decreases |todo|
      {
        var k :| k in todo;
        todo := todo - {k};
        var b := bindings[k];
        SurvivesIff(k, b, valid, members);
        if (b.auto || Rec.IsAutoBindingID(b)) && k !in valid && !Rec.MatchesMembers(b, members) {
          bindings, endpoints, removed, gone := bindings - {k}, endpoints - {k}, removed + 1, gone + {k};
        }
      }
      PrunedAll(was, ends, gone, valid, members);
    }

    method ReconcileAutoBindings() returns (created: seq<Binding>, ghost order: seq<Binding>)
      requires InSync()
      modifies this
      ensures Loops.LoopOrder(old(View()), order) && Rec.Enumerates(order, old(View()))
      ensures View() == Rec.Reconcile(old(View()), order)
      ensures created == Rec.Created(old(bindings), order)
      ensures Runs.Sound(old(View())) ==> LinksHold(View())
      ensures InSync()
    {
      var pass: Pass;
      hide Loops.LoopOrder, Rec.Enumerates, Rec.Prune, Rec.PrunedEndpoints, Rec.PlaceAll, Rec.Created, Rec.IdsOf;
      pass, order := PlaceDesired();
      Loops.LoopOrderEnumerates(old(View()), order);
      created := pass.created;
      var removed := PruneBindings(pass.valid);
      if |pass.created| == 0 && pass.updated == 0 && removed == 0 {
        assert bindings == old(bindings) && endpoints == old(endpoints);
      } else {
        Save();
      }
      if Runs.Sound(old(View())) {
        PassHoldsLinks(old(View()), order);
      }
    }

    // ---------- Nodes and domains ----------

    method CreateNode(id: string, name: string, token: string)
      requires InSync()
      modifies this
      ensures View() == Op.CreateNode(old(View()), id, name, token) && InSync()
    {
      nodes := nodes[id := Node(id, name, token, true, NO_LEGACY, UNSEEN)];
      presence := presence[id := Presence("offline", "", "", "")];
      Save();
      hide InSync;
    }

    method MarkSeen(id: string, meta: Option<Op.Meta>, now: string)
      requires InSync()
      modifies this
      ensures View() == Op.MarkSeen(old(View()), id, meta, now) && InSync()
    {
      var seen := if id in presence then presence[id] else UNSEEN;
      var status := if id in nodes && nodes[id].approved then "online" else "pending";
      presence := presence[id := Op.Seen(seen, status, meta, now)];
      SaveRuntime();
    }

    method CreateDomain(id: string, name: string, joinCode: string, description: string, now: string)
      returns (error: Option<Error>)
      requires InSync()
      modifies this
      ensures error == Op.CreateDomainError(old(View()), id)
      ensures View() == Op.CreateDomain(old(View()), id, name, joinCode, description, now) && InSync()
    {
      if id == "" {
        return Some(DomainIdRequired);
      }
      if id in domains {
        return Some(DomainExists);
      }
      domains := domains[id := Domain(id, FirstNonEmpty(name, id), joinCode, now, description)];
      SaveData();
      return None;
    }

    /** Some domain with the given non-empty join code, when there is one. */
    method DomainByJoinCode(joinCode: string) returns (found: Option<string>)
      ensures found.Some? ==> found.value in domains && domains[found.value].joinCode == joinCode != ""
      ensures found.None? ==> forall k :: k in domains ==> domains[k].joinCode == "" || domains[k].joinCode != joinCode
    {
      var todo := domains.Keys;
      while todo != {}
        invariant todo <= domains.Keys
        invariant forall k :: k in domains && k !in todo ==>
                  domains[k].joinCode == "" || domains[k].joinCode != joinCode
        decreases |todo|
      {
        var k :| k in todo;
        todo := todo - {k};
        if domains[k].joinCode != "" && domains[k].joinCode == joinCode {
          return Some(k);
        }
      }
      return None;
    }

    method UpsertJoinedNode(domain: string, node: string, name: string, token: string, meta: Option<Op.Meta>,
                            now: string)
      returns (error: Option<Error>)
      requires InSync()
      modifies this
      ensures error == Op.JoinError(old(View()), domain, node, token)
      ensures View() == Op.Join(old(View()), domain, node, name, token, meta, now) && InSync()
      ensures error.None? ==>
                && Records.Introduced(old(View()), node, name, token, View())
                && Records.Heard(old(View()), node, "pending", meta, now, View())
                && pendingDomain == old(pendingDomain)[node := domain]
    {
      error := Op.JoinError(View(), domain, node, token);
      if error.Some? {
        return;
      }
      Records.JoinIntroduces(View(), domain, node, name, token, meta, now);
      hide InSync, Op.PendingPresence, Op.JoinError, Records.Introduced, Records.Heard;
      if node in nodes {
        RefreshJoined(domain, node, meta, now);
      } else {
        AddJoined(domain, node, name, token, meta, now);
      }
    }

    method RefreshJoined(domain: string, node: string, meta: Option<Op.Meta>, now: string)
      requires InSync() && node in nodes
      modifies this
      ensures InSync()
      ensures View() == old(View()).(presence := presence, pendingDomain := pendingDomain)
      ensures presence == old(presence)[node := Op.PendingPresence(old(View()), node, meta, now)]
      ensures pendingDomain == old(pendingDomain)[node := domain]
    {
      var seen := if node in presence then presence[node] else UNSEEN;
      presence := presence[node := Op.Seen(seen, "pending", meta, now)];
      pendingDomain := pendingDomain[node := domain];
      SaveRuntime();
    }

    method AddJoined(domain: string, node: string, name: string, token: string, meta: Option<Op.Meta>, now: string)
      requires InSync() && node !in nodes
      modifies this
      ensures InSync()
      ensures View() == old(View()).(nodes := nodes, presence := presence, pendingDomain := pendingDomain)
      ensures nodes == Op.JoinedNodes(old(nodes), node, name, token)
      ensures presence == old(presence)[node := Op.PendingPresence(old(View()), node, meta, now)]
      ensures pendingDomain == old(pendingDomain)[node := domain]
    {
      nodes := nodes[node := Op.NewNode(node, name, token)];
      presence := presence[node := Op.Seen(UNSEEN, "pending", meta, now)];
      pendingDomain := pendingDomain[node := domain];
      Save();
      hide InSync;
    }

    method UpsertPendingNode(node: string, name: string, token: string, meta: Option<Op.Meta>, now: string)
      returns (error: Option<Error>)
      requires InSync()
      modifies this
      ensures error == Op.IdentityError(old(View()), node, token)
      ensures View() == Op.Register(old(View()), node, name, token, meta, now) && InSync()
      ensures error.None? ==>
                && Records.Introduced(old(View()), node, name, token, View())
                && Records.Heard(old(View()), node, "pending", meta, now, View())
    {
      error := Op.IdentityError(View(), node, token);
      if error.Some? {
        return;
      }
      Records.RegisterIntroduces(View(), node, name, token, meta, now);
      hide InSync, Op.PendingPresence, Op.IdentityError, Op.RegisteredNodes, Records.Introduced, Records.Heard;
      if node in nodes {
        RefreshPending(node, name, token, meta, now);
      } else {
        AddPending(node, name, token, meta, now);
      }
    }

    method RefreshPending(node: string, name: string, token: string, meta: Option<Op.Meta>, now: string)
      requires InSync() && node in nodes
      modifies this
      ensures InSync()
      ensures View() == old(View()).(nodes := nodes, presence := presence)
      ensures nodes == Op.RegisteredNodes(old(nodes), node, name, token)
      ensures presence == old(presence)[node := Op.PendingPresence(old(View()), node, meta, now)]
    {
      var known := nodes[node];
      if known.name == "" && name != "" {
        known := known.(name := name);
      }
      var seen := if node in presence then presence[node] else UNSEEN;
      nodes, presence := nodes[node := known], presence[node := Op.Seen(seen, "pending", meta, now)];
      Save();
      hide InSync;
    }

    method AddPending(node: string, name: string, token: string, meta: Option<Op.Meta>, now: string)
      requires InSync() && node !in nodes
      modifies this
      ensures InSync()
      ensures View() == old(View()).(nodes := nodes, presence := presence)
      ensures nodes == Op.RegisteredNodes(old(nodes), node, name, token)
      ensures presence == old(presence)[node := Op.PendingPresence(old(View()), node, meta, now)]
    {
      nodes := nodes[node := Op.NewNode(node, name, token)];
      presence := presence[node := Op.Seen(UNSEEN, "pending", meta, now)];
      Save();
      hide InSync;
    }

    // ---------- Memberships ----------

    method SingleMemberDomain(node: string) returns (domain: string)
      ensures Op.SingleDomain(View(), node, domain)
    {
      domain := "";
      var todo := members.Keys;
      ghost var source: string := "";
      while todo != {}
        invariant todo <= members.Keys
        invariant forall k :: Op.MemberOf(View(), k, node) && k !in todo ==>
                  members[k].domainID == domain || members[k].domainID == ""
        invariant domain != "" ==> Op.MemberOf(View(), source, node) && members[source].domainID == domain
        decreases |todo|
      {
        var k :| k in todo;
        todo := todo - {k};
        if members[k].nodeID == node {
          if domain != "" && domain != members[k].domainID {
            assert Op.MemberOf(View(), k, node);
            return "";
          }
          domain, source := members[k].domainID, k;
        }
      }
    }

    /** `single` is what the search for the node's only domain came up with. */
    method ApproveNode(node: string, a: Op.Approval, now: string) returns (error: Option<Error>, ghost single: string)
      requires InSync()
      modifies this
      ensures Op.SingleDomain(old(View()), node, single)
      ensures error == Op.ApproveError(old(View()), node, a, single)
      ensures View() == Op.Approve(old(View()), node, a, single, now) && InSync()
    {
      var found := SingleMemberDomain(node);
      single := found;
      error := Op.ApproveError(View(), node, a, found);
      if error.None? {
        StoreApproval(node, a, found, now);
      }
    }

    method StoreApproval(node: string, a: Op.Approval, single: string, now: string)
      requires InSync() && Op.ApproveError(View(), node, a, single).None?
      modifies this
      ensures View() == Op.Approve(old(View()), node, a, single, now) && InSync()
    {
      var domain := Op.ApprovalDomain(View(), node, a, single);
      var member := Op.ApprovedMember(View(), node, a, domain, now);
      assert node in nodes;
      hide InSync, Op.ApprovedMember, Op.ApprovalDomain, Op.ApproveError;
      members, pendingDomain := members[Names.MemberKey(domain, node) := member], pendingDomain - {node};
      MarkApproved(node, a.name);
      Save();
    }

    method MarkApproved(node: string, name: string)
      requires node in nodes
      modifies this`nodes, this`presence
      ensures nodes == old(nodes)[node := ClearNode(old(nodes)[node]).(
                                    name := FirstNonEmpty(name, old(nodes)[node].name), approved := true)]
      ensures var seen := Op.PresenceOf(old(View()), node);
              var status := if seen.status == "pending" || seen.status == "" then "offline" else seen.status;
              presence == old(presence)[node := seen.(status := status)]
    {
      var seen := if node in presence then presence[node] else UNSEEN;
      if seen.status == "pending" || seen.status == "" {
        seen := seen.(status := "offline");
      }
      presence := presence[node := seen];
      nodes := nodes[node := ClearNode(nodes[node]).(name := FirstNonEmpty(name, nodes[node].name), approved := true)];
    }

    // ---------- Bindings, deletion, inventory ----------

    method AddBinding(b: Binding, now: string)
      requires InSync()
      modifies this
      ensures View() == Op.AddBinding(old(View()), b, now) && InSync()
    {
      bindings := bindings[b.id := ClearEndpoint(DefaultBindingFields(b)).(enabled := true)];
      if b.endpointHost != "" && b.endpointPort > 0 {
        endpoints := endpoints[b.id := Endpoint(b.endpointHost, b.endpointPort, now)];
      }
      Save();
      hide InSync;
    }

    method DropMembers(node: string)
      modifies this`members
      ensures members == Op.MembersWithout(old(members), node)
    {
      var todo := members.Keys;
      ghost var was := members;
      while todo != {}
        invariant todo <= members.Keys
        invariant members == map k | k in was && (k in todo || was[k].nodeID != node) :: was[k]
        decreases |todo|
      {
        var k :| k in todo;
        todo := todo - {k};
        if members[k].nodeID == node {
          members := members - {k};
        }
      }
    }

    method DropInventory(node: string)
      modifies this`inventory
      ensures inventory == Op.RowsWithout(old(inventory), node)
    {
      var todo := inventory.Keys;
      ghost var was := inventory;
      while todo != {}
        invariant todo <= inventory.Keys
        invariant inventory == map k | k in was && (k in todo || was[k].nodeID != node) :: was[k]
        decreases |todo|
      {
        var k :| k in todo;
        todo := todo - {k};
        if inventory[k].nodeID == node {
          inventory := inventory - {k};
        }
      }
    }

    method DropBindings(node: string)
      modifies this`bindings, this`endpoints
      ensures bindings == Op.BindingsWithout(old(bindings), node)
      ensures endpoints == Op.EndpointsWithout(old(endpoints), old(bindings), node)
    {
      hide Op.BindingsWithout, Op.EndpointsWithout, Op.Touches;
      var todo := bindings.Keys;
      ghost var was, ends, gone: set<string> := bindings, endpoints, {};
      while todo != {}
        invariant todo <= bindings.Keys
        invariant bindings == was - gone && endpoints == ends - gone
        invariant forall k :: k in gone <==> k in was && k !in todo && Op.Touches(was[k], node)
        decreases |todo|
      {
        var k :| k in todo;
        todo := todo - {k};
        if Op.Touches(bindings[k], node) {
          bindings, endpoints, gone := bindings - {k}, endpoints - {k}, gone + {k};
        }
      }
      DroppedAll(was, ends, gone, node);
    }

    method DropLeases(node: string)
      modifies this`leases
      ensures leases == Op.LeasesWithout(old(leases), node)
    {
      var kept: seq<Lease> := [];
      for i := 0 to |leases|
        invariant kept == Op.LeasesWithout(leases[..i], node)
      {
        assert leases[..i + 1][..i] == leases[..i];
        if leases[i].serverNode != node {
          kept := kept + [leases[i]];
        }
      }
      assert leases[..|leases|] == leases;
      leases := kept;
    }

    method DeleteNode(node: string) returns (error: Option<Error>)
      requires InSync()
      modifies this
      ensures error ==
              if node == "" then Some(NodeIdRequired) else if node !in old(nodes) then Some(NodeNotFound) else None
      ensures View() == Op.DeleteNode(old(View()), node) && InSync()
    {
      hide InSync;
      if node == "" {
        return Some(NodeIdRequired);
      }
      if node !in nodes {
        return Some(NodeNotFound);
      }
      EraseNode(node);
      return None;
    }

    method DropReports(node: string)
      modifies this`members, this`inventory, this`leases
      ensures members == Op.MembersWithout(old(members), node)
      ensures inventory == Op.RowsWithout(old(inventory), node)
      ensures leases == Op.LeasesWithout(old(leases), node)
    {
      hide Op.MembersWithout, Op.RowsWithout, Op.LeasesWithout;
      DropMembers(node);
      DropInventory(node);
      DropLeases(node);
    }

    method DropIdentity(node: string)
      modifies this`nodes, this`presence, this`commands
      ensures nodes == old(nodes) - {node} && presence == old(presence) - {node} && commands == old(commands) - {node}
    {
      nodes, presence, commands := nodes - {node}, presence - {node}, commands - {node};
    }

    method EraseNode(node: string)
      requires node != "" && node in nodes
      modifies this
      ensures View() == Op.DeleteNode(old(View()), node) && InSync()
    {
      hide InSync, Op.MembersWithout, Op.RowsWithout, Op.BindingsWithout, Op.EndpointsWithout, Op.LeasesWithout;
      DropIdentity(node);
      DropReports(node);
      DropBindings(node);
      Save();
    }

    method UpdateWGInterfaces(node: string, items: seq<WGInterface>, now: string)
      requires InSync()
      modifies this
      ensures View() == Op.UpdateInventory(old(View()), node, items, now) && InSync()
    {
      if node == "" || |items| == 0 {
        return;
      }
      DropInventory(node);
      ghost var others := inventory;
      for i := 0 to |items|
        invariant inventory == Op.PutRows(others, node, items[..i], now)
        invariant View() == old(View()).(inventory := inventory) && dataFile == old(dataFile)
      {
        assert items[..i + 1][..i] == items[..i];
        if items[i].name != "" {
          inventory := inventory[Names.InterfaceKey(node, items[i].name) :=
                                 items[i].(nodeID := node, updatedAt := now)];
        }
      }
      assert items[..|items|] == items;
      SaveRuntime();
    }

    // ---------- Commands and endpoints ----------

    method QueueCommand(node: string, cmd: Command, now: string)
      requires InSync()
      modifies this
      ensures View() == Op.Queue(old(View()), node, cmd, now) && InSync()
    {
      var queue := if node in commands then commands[node] else [];
      commands := commands[node := queue + [QueuedCommand(cmd, Pending, None, now)]];
      SaveRuntime();
    }

    method NextCommand(node: string) returns (cmd: Option<Command>)
      requires InSync()
      modifies this
      ensures cmd == Op.NextCommand(old(View()), node)
      ensures View() == Op.Deliver(old(View()), node) && InSync()
    {
      var queue := if node in commands then commands[node] else [];
      for i := 0 to |queue|
        invariant forall j :: 0 <= j < i ==> !queue[j].status.Pending?
      {
        if queue[i].status.Pending? {
          CommandQueue.FirstPendingIs(queue, i);
          commands := commands[node := queue[i := queue[i].(status := Delivered)]];
          SaveRuntime();
          return Some(queue[i].command);
        }
      }
      CommandQueue.FirstPendingIs(queue, |queue|);
      return None;
    }

    method CompleteCommand(node: string, id: string, result: string)
      requires InSync()
      modifies this
      ensures View() == Op.Complete(old(View()), node, id, result) && InSync()
    {
      var queue := if node in commands then commands[node] else [];
      var done := queue;
      for i := 0 to |queue|
        invariant forall j :: 0 <= j < i ==> queue[j].command.id != id
        invariant done == queue
      {
        if queue[i].command.id == id {
          done := queue[i := queue[i].(status := Completed, result := Some(result))];
          break;
        }
      }
      commands := commands[node := done];
      SaveRuntime();
    }

    /** Sets the endpoint of every binding the lease speaks for and returns those bindings. */
    method SetEndpoints(node: string, lease: Lease, now: string) returns (matched: seq<Binding>)
      modifies this`endpoints
      ensures endpoints == Op.ServedEndpoints(old(endpoints), bindings, node, lease, now)
      ensures KeyedById(bindings) ==> Op.Matches(bindings, node, lease, matched)
    {
      hide MatchedSoFar, KeyedById, ServedSoFar, Op.ServedEndpoints, Op.Matches;
      matched := [];
      var todo := bindings.Keys;
      ghost var table, ends := bindings, endpoints;
      NothingServed(table, node, lease, now, ends);
      while todo != {}
        invariant todo <= table.Keys
        invariant ServedSoFar(table, node, lease, now, ends, endpoints, todo)
        invariant KeyedById(table) ==> MatchedSoFar(table, node, lease, matched, todo)
        decreases |todo|
      {
        var k :| k in todo;
        var b := bindings[k];
        assert todo - {k} + {k} == todo;
        MatchStep(table, node, lease, matched, todo - {k}, k);
        ServeStep(table, node, lease, now, ends, endpoints, todo - {k}, k);
        if b.enabled && b.serverNode == node && b.serverIface == lease.serverIface {
          endpoints := endpoints[k := Endpoint(lease.publicIP, lease.publicPort, now)];
          matched := matched + [Op.WithEndpoint(b, lease)];
        }
        todo := todo - {k};
      }
      AllServed(table, node, lease, now, ends, endpoints, matched);
    }

    method SaveEndpointLease(node: string, lease: Lease, now: string) returns (matched: seq<Binding>)
      requires InSync()
      modifies this
      ensures View() == Op.SaveLease(old(View()), node, lease, now) && InSync()
      ensures KeyedById(bindings) ==> Op.Matches(bindings, node, lease, matched)
    {
      matched := SetEndpoints(node, lease, now);
      leases := leases + [lease.(serverNode := node, createdAt := now)];
      hide Op.Matches;
      SaveRuntime();
    }
  }

  /** Every automatic entry under the id of a link is the binding of such a link. */
  ghost predicate LinksHold(t: State) {
    forall k :: Links.Linked(t, k) && k in t.bindings && t.bindings[k].auto ==>
      exists km, kc, ks, kw :: Links.HoldsLink(t, km, kc, ks, kw, k)
  }

  lemma PassHoldsLinks(s: State, order: seq<Binding>)
    requires Runs.Sound(s) && Rec.Enumerates(order, s)
    ensures LinksHold(Rec.Reconcile(s, order))
  {
    var t := Rec.Reconcile(s, order);
    hide Rec.Reconcile, Rec.Enumerates, Links.Linked, Links.HoldsLink, Runs.SoundBindings;
    forall k | Links.Linked(t, k) && k in t.bindings && t.bindings[k].auto
      ensures exists km, kc, ks, kw :: Links.HoldsLink(t, km, kc, ks, kw, k)
    {
      var km, kc, ks, kw := Links.PassHoldsLink(s, order, k);
    }
  }

  lemma NothingPlaced(start: map<string, Binding>)
    ensures PassOf(start, start, Pass([], 0, {}), [])
  {
  }

  lemma SurvivesIff(k: string, b: Binding, valid: set<string>, members: map<string, DomainMember>)
    ensures Rec.Survives(k, b, valid, members) <==>
            !((b.auto || Rec.IsAutoBindingID(b)) && k !in valid && !Rec.MatchesMembers(b, members))
  {
    hide Rec.IsAutoBindingID, Rec.MatchesMembers;
  }

  lemma PrunedAll(was: map<string, Binding>, ends: map<string, Endpoint>, gone: set<string>,
                  valid: set<string>, members: map<string, DomainMember>)
    requires forall k :: k in gone <==> k in was && !Rec.Survives(k, was[k], valid, members)
    ensures was - gone == Rec.Prune(was, valid, members)
    ensures ends - gone == Rec.PrunedEndpoints(ends, was, was - gone)
    ensures gone == {} ==> was - gone == was && ends - gone == ends
  {
    hide Rec.Survives;
  }

  lemma DroppedAll(was: map<string, Binding>, ends: map<string, Endpoint>, gone: set<string>, node: string)
    requires forall k :: k in gone <==> k in was && Op.Touches(was[k], node)
    ensures was - gone == Op.BindingsWithout(was, node)
    ensures ends - gone == Op.EndpointsWithout(ends, was, node)
  {
    hide Op.Touches;
  }

  ghost predicate ServedSoFar(table: map<string, Binding>, node: string, lease: Lease, now: string,
                              before: map<string, Endpoint>, endpoints: map<string, Endpoint>, todo: set<string>) {
    && (forall k :: k in endpoints <==> k in before || (k !in todo && Op.Serves(table, k, node, lease.serverIface)))
    && (forall k :: k in endpoints ==>
          endpoints[k] == if k !in todo && Op.Serves(table, k, node, lease.serverIface)
                          then Endpoint(lease.publicIP, lease.publicPort, now) else before[k])
  }

  lemma ServeStep(table: map<string, Binding>, node: string, lease: Lease, now: string,
                  before: map<string, Endpoint>, endpoints: map<string, Endpoint>, rest: set<string>, k: string)
    requires k !in rest && ServedSoFar(table, node, lease, now, before, endpoints, rest + {k})
    ensures ServedSoFar(table, node, lease, now, before,
                        if Op.Serves(table, k, node, lease.serverIface)
                        then endpoints[k := Endpoint(lease.publicIP, lease.publicPort, now)] else endpoints, rest)
  {
  }

  lemma NothingServed(table: map<string, Binding>, node: string, lease: Lease, now: string,
                      before: map<string, Endpoint>)
    ensures ServedSoFar(table, node, lease, now, before, before, table.Keys)
    ensures MatchedSoFar(table, node, lease, [], table.Keys)
  {
  }

  lemma AllServed(table: map<string, Binding>, node: string, lease: Lease, now: string,
                  before: map<string, Endpoint>, endpoints: map<string, Endpoint>, matched: seq<Binding>)
    requires ServedSoFar(table, node, lease, now, before, endpoints, {})
    ensures endpoints == Op.ServedEndpoints(before, table, node, lease, now)
    ensures MatchedSoFar(table, node, lease, matched, {}) ==> Op.Matches(table, node, lease, matched)
  {
  }

  predicate KeyedById(bindings: map<string, Binding>) {
    forall k :: k in bindings ==> bindings[k].id == k
  }

  lemma MatchStep(table: map<string, Binding>, node: string, lease: Lease, matched: seq<Binding>, rest: set<string>,
                  k: string)
    requires k !in rest && k in table
    ensures KeyedById(table) && MatchedSoFar(table, node, lease, matched, rest + {k}) ==>
            MatchedSoFar(table, node, lease,
                         if Op.Serves(table, k, node, lease.serverIface)
                         then matched + [Op.WithEndpoint(table[k], lease)] else matched, rest)
  {
    if KeyedById(table) && MatchedSoFar(table, node, lease, matched, rest + {k}) &&
        Op.Serves(table, k, node, lease.serverIface) {
      var all := matched + [Op.WithEndpoint(table[k], lease)];
      forall l | l !in rest && Op.Serves(table, l, node, lease.serverIface)
        ensures exists i :: 0 <= i < |all| && all[i].id == l
      {
        if l == k {
          assert all[|matched|].id == k;
        } else {
          var i :| 0 <= i < |matched| && matched[i].id == l;
          assert all[i].id == l;
        }
      }
    }
  }

  ghost predicate MatchedSoFar(table: map<string, Binding>, node: string, lease: Lease, matched: seq<Binding>,
                               todo: set<string>)
  {
    && (forall i, j :: 0 <= i < j < |matched| ==> matched[i].id != matched[j].id)
    && (forall i :: 0 <= i < |matched| ==>
          Op.Serves(table, matched[i].id, node, lease.serverIface) && matched[i].id !in todo &&
          matched[i] == Op.WithEndpoint(table[matched[i].id], lease))
    && (forall k :: k !in todo && Op.Serves(table, k, node, lease.serverIface) ==>
          exists i :: 0 <= i < |matched| && matched[i].id == k)
  }
}
