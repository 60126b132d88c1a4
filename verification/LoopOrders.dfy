/** The orders in which the four nested reconcile loops can visit the desired bindings: maps choose the order
    of domains, members and inventory rows, and each loop runs to its end inside the one around it. */
module LoopOrders {
  import opened Model
  import Names
  import Rec = Reconciler

  // ---------- Lists the maps yield ----------

  ghost predicate ListedBy<V>(table: map<string, V>, keep: set<string>, list: seq<V>, keys: seq<string>) {
    && |keys| == |list|
    && (forall i, j :: 0 <= i < j < |keys| ==> keys[i] != keys[j])
    && (forall k :: k in keys <==> k in keep)
    && (forall i :: 0 <= i < |keys| ==> keys[i] in table && list[i] == table[keys[i]])
  }

  /** `list` holds the records under the keys of `keep`, each once, in some order. */
  ghost predicate Lists<V(!new)>(table: map<string, V>, keep: set<string>, list: seq<V>) {
    exists keys :: ListedBy(table, keep, list, keys)
  }

  ghost function RowKeys(inventory: map<string, WGInterface>, m: DomainMember): set<string> {
    set k | k in inventory && Rec.Selects(m, inventory[k])
  }

  ghost function MemberKeys(w: Rec.World, domain: string): set<string> {
    set k | k in w.members && w.members[k].domainID == domain && Rec.Approved(w, w.members[k])
  }

  /** The approved members of each domain, in the order one loop over the memberships meets them. */
  ghost predicate Grouped(w: Rec.World, byDomain: map<string, seq<DomainMember>>) {
    && (forall dom :: dom in byDomain ==> Lists(w.members, MemberKeys(w, dom), byDomain[dom]))
    && (forall k :: k in w.members && Rec.Approved(w, w.members[k]) ==> w.members[k].domainID in byDomain)
  }

  predicate Once(keys: seq<string>) {
    forall i, j :: 0 <= i < j < |keys| ==> keys[i] != keys[j]
  }

  // ---------- The loops, innermost first ----------

  function RowsRun(server: DomainMember, client: DomainMember, si: WGInterface, cis: seq<WGInterface>): seq<Binding> {
    if cis == [] then []
    else
      var ci := cis[|cis| - 1];
      RowsRun(server, client, si, cis[..|cis| - 1]) +
      if Rec.Peers(si, ci) then [Rec.Derive(server, client, si, ci)] else []
  }

  function PairRun(server: DomainMember, client: DomainMember, sis: seq<WGInterface>,
                   cis: seq<WGInterface>): seq<Binding>
  {
    if sis == [] then []
    else PairRun(server, client, sis[..|sis| - 1], cis) + RowsRun(server, client, sis[|sis| - 1], cis)
  }

  predicate IsClientOf(server: DomainMember, client: DomainMember) {
    client.nodeID != server.nodeID && client.role == "client"
  }

  ghost predicate ClientRun(inventory: map<string, WGInterface>, server: DomainMember, sis: seq<WGInterface>,
                            client: DomainMember, part: seq<Binding>) {
    if IsClientOf(server, client) then
      exists cis :: Lists(inventory, RowKeys(inventory, client), cis) && part == PairRun(server, client, sis, cis)
    else part == []
  }

  ghost predicate ClientsRun(inventory: map<string, WGInterface>, server: DomainMember, sis: seq<WGInterface>,
                             clients: seq<DomainMember>, order: seq<Binding>) {
    if clients == [] then order == []
    else
      exists init, part :: order == init + part
                           && ClientsRun(inventory, server, sis, clients[..|clients| - 1], init)
                           && ClientRun(inventory, server, sis, clients[|clients| - 1], part)
  }

  ghost predicate ServerRun(inventory: map<string, WGInterface>, members: seq<DomainMember>, server: DomainMember,
                            part: seq<Binding>)
  {
    if server.role == "server" then
      exists sis :: Lists(inventory, RowKeys(inventory, server), sis) &&
                    ClientsRun(inventory, server, sis, members, part)
    else part == []
  }

  ghost predicate ServersRun(inventory: map<string, WGInterface>, members: seq<DomainMember>,
                             servers: seq<DomainMember>, order: seq<Binding>)
  {
    if servers == [] then order == []
    else
      exists init, part :: order == init + part
                           && ServersRun(inventory, members, servers[..|servers| - 1], init)
                           && ServerRun(inventory, members, servers[|servers| - 1], part)
  }

  ghost predicate DomainsRun(inventory: map<string, WGInterface>, byDomain: map<string, seq<DomainMember>>,
                             doms: seq<string>, order: seq<Binding>)
    requires forall dom :: dom in doms ==> dom in byDomain
  {
    if doms == [] then order == []
    else
      var dom := doms[|doms| - 1];
      exists init, part :: order == init + part
                           && DomainsRun(inventory, byDomain, doms[..|doms| - 1], init)
                           && ServersRun(inventory, byDomain[dom], byDomain[dom], part)
  }

  ghost predicate LoopOrderBy(s: State, order: seq<Binding>, byDomain: map<string, seq<DomainMember>>,
                              doms: seq<string>)
  {
    && Grouped(Rec.WorldOf(s), byDomain)
    && Once(doms) && (forall dom :: dom in doms <==> dom in byDomain)
    && DomainsRun(s.inventory, byDomain, doms, order)
  }

  /** An order the loops can run in. */
  ghost predicate LoopOrder(s: State, order: seq<Binding>) {
    exists byDomain, doms :: LoopOrderBy(s, order, byDomain, doms)
  }

  // ---------- One step of each loop ----------

  lemma ListedMore<V>(table: map<string, V>, keep: set<string>, list: seq<V>, keys: seq<string>, k: string)
    requires ListedBy(table, keep, list, keys) && k in table
    ensures k !in keep ==> ListedBy(table, keep + {k}, list + [table[k]], keys + [k])
  {
    if k !in keep {
      assert forall x :: x in keys + [k] <==> x in keys || x == k;
    }
  }

  lemma KeylessRow(server: DomainMember, client: DomainMember, si: WGInterface, cis: seq<WGInterface>)
    requires si.publicKey == ""
    ensures RowsRun(server, client, si, cis) == []
  {
  }

  lemma NoClients(inventory: map<string, WGInterface>, server: DomainMember, sis: seq<WGInterface>)
    ensures ClientsRun(inventory, server, sis, [], [])
  {
  }

  lemma NextClient(inventory: map<string, WGInterface>, server: DomainMember, sis: seq<WGInterface>,
                   clients: seq<DomainMember>, i: nat, init: seq<Binding>, part: seq<Binding>)
    requires i < |clients| && ClientsRun(inventory, server, sis, clients[..i], init)
    requires ClientRun(inventory, server, sis, clients[i], part)
    ensures ClientsRun(inventory, server, sis, clients[..i + 1], init + part)
  {
    hide ClientRun;
    assert clients[..i + 1][..i] == clients[..i];
  }

  lemma NoServers(inventory: map<string, WGInterface>, members: seq<DomainMember>)
    ensures ServersRun(inventory, members, [], [])
  {
  }

  lemma NextServer(inventory: map<string, WGInterface>, members: seq<DomainMember>, servers: seq<DomainMember>,
                   i: nat, init: seq<Binding>, part: seq<Binding>)
    requires i < |servers| && ServersRun(inventory, members, servers[..i], init)
    requires ServerRun(inventory, members, servers[i], part)
    ensures ServersRun(inventory, members, servers[..i + 1], init + part)
  {
    hide ServerRun;
    assert servers[..i + 1][..i] == servers[..i];
  }

  lemma NoDomains(inventory: map<string, WGInterface>, byDomain: map<string, seq<DomainMember>>)
    ensures DomainsRun(inventory, byDomain, [], [])
  {
  }

  lemma NextDomain(inventory: map<string, WGInterface>, byDomain: map<string, seq<DomainMember>>, doms: seq<string>,
                   dom: string, init: seq<Binding>, part: seq<Binding>)
    requires (forall x :: x in doms ==> x in byDomain) && dom in byDomain
    requires DomainsRun(inventory, byDomain, doms, init) && ServersRun(inventory, byDomain[dom], byDomain[dom], part)
    ensures DomainsRun(inventory, byDomain, doms + [dom], init + part)
  {
    hide ServersRun;
    assert (doms + [dom])[..|doms|] == doms;
  }

  /** The memberships outside `todo` have been put into their domains' lists. */
  ghost predicate GroupedSoFar(w: Rec.World, byDomain: map<string, seq<DomainMember>>, keys: map<string, seq<string>>,
                               todo: set<string>)
  {
    && keys.Keys == byDomain.Keys
    && (forall dom :: dom in byDomain ==> ListedBy(w.members, MemberKeys(w, dom) - todo, byDomain[dom], keys[dom]))
    && (forall k :: k in w.members && k !in todo && Rec.Approved(w, w.members[k]) ==> w.members[k].domainID in byDomain)
  }

  lemma GroupMore(w: Rec.World, byDomain: map<string, seq<DomainMember>>, keys: map<string, seq<string>>,
                  todo: set<string>, k: string)
    requires GroupedSoFar(w, byDomain, keys, todo) && k in todo && k in w.members
    ensures var m := w.members[k];
            if Rec.Approved(w, m) then
              GroupedSoFar(w,
                           byDomain[m.domainID := (if m.domainID in byDomain then byDomain[m.domainID] else []) + [m]],
                           keys[m.domainID := (if m.domainID in keys then keys[m.domainID] else []) + [k]], todo - {k})
            else GroupedSoFar(w, byDomain, keys, todo - {k})
  {
    var m := w.members[k];
    var dom := m.domainID;
    if Rec.Approved(w, m) {
      var known, at := if dom in byDomain then byDomain[dom] else [], if dom in keys then keys[dom] else [];
      assert dom !in byDomain ==> MemberKeys(w, dom) - todo == {};
      ListedMore(w.members, MemberKeys(w, dom) - todo, known, at, k);
      assert MemberKeys(w, dom) - (todo - {k}) == MemberKeys(w, dom) - todo + {k};
    }
    forall x | x in byDomain && !(Rec.Approved(w, m) && x == dom)
      ensures MemberKeys(w, x) - (todo - {k}) == MemberKeys(w, x) - todo
    {
    }
    hide ListedBy, Rec.Approved;
  }

  lemma GroupDone(w: Rec.World, byDomain: map<string, seq<DomainMember>>, keys: map<string, seq<string>>)
    requires GroupedSoFar(w, byDomain, keys, {})
    ensures Grouped(w, byDomain)
  {
    hide ListedBy, Rec.Approved;
    forall dom | dom in byDomain ensures Lists(w.members, MemberKeys(w, dom), byDomain[dom]) {
      assert MemberKeys(w, dom) - {} == MemberKeys(w, dom);
    }
  }

  // ---------- They visit exactly the desired bindings ----------

  lemma ListsExactly<V(!new)>(table: map<string, V>, keep: set<string>, list: seq<V>)
    requires Lists(table, keep, list)
    ensures forall v :: v in list <==> exists k :: k in keep && k in table && table[k] == v
  {
    var keys :| ListedBy(table, keep, list, keys);
    forall v ensures v in list <==> exists k :: k in keep && k in table && table[k] == v {
      if v in list {
        var i :| 0 <= i < |list| && list[i] == v;
        assert keys[i] in keys && table[keys[i]] == v;
      }
      if k :| k in keep && k in table && table[k] == v {
        assert k in keys;
        var i :| 0 <= i < |keys| && keys[i] == k;
        assert list[i] == v;
      }
    }
  }

  predicate LinkOf(server: DomainMember, client: DomainMember, si: WGInterface, ci: WGInterface, d: Binding) {
    Rec.Peers(si, ci) && d == Rec.Derive(server, client, si, ci)
  }

  lemma {:induction false} RowsRunHas(server: DomainMember, client: DomainMember, si: WGInterface,
                                      cis: seq<WGInterface>, d: Binding)
    ensures d in RowsRun(server, client, si, cis) <==> exists ci :: ci in cis && LinkOf(server, client, si, ci, d)
  {
    hide Rec.Derive, Rec.Peers;
    if cis != [] {
      var init, ci := cis[..|cis| - 1], cis[|cis| - 1];
      RowsRunHas(server, client, si, init, d);
      assert cis == init + [ci];
      assert LinkOf(server, client, si, ci, d) <==> Rec.Peers(si, ci) && d == Rec.Derive(server, client, si, ci);
      assert d in RowsRun(server, client, si, cis) <==>
          d in RowsRun(server, client, si, init) || LinkOf(server, client, si, ci, d);
      hide RowsRun, LinkOf;
    }
  }

  ghost predicate PairLink(server: DomainMember, client: DomainMember, sis: seq<WGInterface>, cis: seq<WGInterface>,
                           d: Binding)
  {
    exists si, ci :: si in sis && ci in cis && LinkOf(server, client, si, ci, d)
  }

  lemma {:induction false} PairRunHas(server: DomainMember, client: DomainMember, sis: seq<WGInterface>,
                                      cis: seq<WGInterface>, d: Binding)
    ensures d in PairRun(server, client, sis, cis) <==> PairLink(server, client, sis, cis, d)
  {
    hide LinkOf, RowsRun;
    if sis != [] {
      var init, si := sis[..|sis| - 1], sis[|sis| - 1];
      PairRunHas(server, client, init, cis, d);
      RowsRunHas(server, client, si, cis, d);
      assert sis == init + [si];
    }
  }

  ghost predicate RowsLink(inventory: map<string, WGInterface>, server: DomainMember, client: DomainMember,
                           ks: string, kw: string, d: Binding) {
    ks in RowKeys(inventory, server) && kw in RowKeys(inventory, client) &&
        LinkOf(server, client, inventory[ks], inventory[kw], d)
  }

  ghost predicate ClientLink(inventory: map<string, WGInterface>, server: DomainMember, client: DomainMember,
                             d: Binding)
  {
    IsClientOf(server, client) && exists ks, kw :: RowsLink(inventory, server, client, ks, kw, d)
  }

  lemma ClientRunHas(inventory: map<string, WGInterface>, server: DomainMember, sis: seq<WGInterface>,
                     client: DomainMember, part: seq<Binding>, d: Binding)
    requires Lists(inventory, RowKeys(inventory, server), sis) && ClientRun(inventory, server, sis, client, part)
    ensures d in part <==> ClientLink(inventory, server, client, d)
  {
    if IsClientOf(server, client) {
      var cis :| Lists(inventory, RowKeys(inventory, client), cis) && part == PairRun(server, client, sis, cis);
      PairRunHas(server, client, sis, cis, d);
      ListsExactly(inventory, RowKeys(inventory, server), sis);
      ListsExactly(inventory, RowKeys(inventory, client), cis);
      hide Lists, PairRun, LinkOf;
      PairLinkIff(inventory, server, client, sis, cis, d);
    }
  }

  lemma PairLinkIff(inventory: map<string, WGInterface>, server: DomainMember, client: DomainMember,
                    sis: seq<WGInterface>, cis: seq<WGInterface>, d: Binding)
    requires forall v :: v in sis <==>
             exists k :: k in RowKeys(inventory, server) && k in inventory && inventory[k] == v
    requires forall v :: v in cis <==>
             exists k :: k in RowKeys(inventory, client) && k in inventory && inventory[k] == v
    ensures PairLink(server, client, sis, cis, d) <==> exists ks, kw :: RowsLink(inventory, server, client, ks, kw, d)
  {
    hide LinkOf;
    if PairLink(server, client, sis, cis, d) {
      var si, ci :| si in sis && ci in cis && LinkOf(server, client, si, ci, d);
      var ks :| ks in RowKeys(inventory, server) && ks in inventory && inventory[ks] == si;
      var kw :| kw in RowKeys(inventory, client) && kw in inventory && inventory[kw] == ci;
      assert RowsLink(inventory, server, client, ks, kw, d);
    }
    if ks, kw :| RowsLink(inventory, server, client, ks, kw, d) {
      assert inventory[ks] in sis && inventory[kw] in cis;
    }
  }

  ghost predicate ServerLink(inventory: map<string, WGInterface>, server: DomainMember, clients: seq<DomainMember>,
                             d: Binding)
  {
    exists client :: client in clients && ClientLink(inventory, server, client, d)
  }

  lemma {:induction false} ClientsRunHas(inventory: map<string, WGInterface>, server: DomainMember,
                                         sis: seq<WGInterface>,
                                         clients: seq<DomainMember>, order: seq<Binding>, d: Binding)
    requires Lists(inventory, RowKeys(inventory, server), sis) && ClientsRun(inventory, server, sis, clients, order)
    ensures d in order <==> ServerLink(inventory, server, clients, d)
  {
    if clients != [] {
      var rest, client := clients[..|clients| - 1], clients[|clients| - 1];
      var init, part :| order == init + part && ClientsRun(inventory, server, sis, rest, init)
                        && ClientRun(inventory, server, sis, client, part);
      hide ClientsRun, ClientRun, Lists, ClientLink;
      ClientsRunHas(inventory, server, sis, rest, init, d);
      ClientRunHas(inventory, server, sis, client, part, d);
      assert clients == rest + [client];
    }
  }

  ghost predicate DomainLink(inventory: map<string, WGInterface>, members: seq<DomainMember>,
                             servers: seq<DomainMember>, d: Binding)
  {
    exists server :: server in servers && server.role == "server" && ServerLink(inventory, server, members, d)
  }

  lemma {:induction false} ServersRunHas(inventory: map<string, WGInterface>, members: seq<DomainMember>,
                                         servers: seq<DomainMember>, order: seq<Binding>, d: Binding)
    requires ServersRun(inventory, members, servers, order)
    ensures d in order <==> DomainLink(inventory, members, servers, d)
  {
    if servers != [] {
      var rest, server := servers[..|servers| - 1], servers[|servers| - 1];
      var init, part :| order == init + part && ServersRun(inventory, members, rest, init)
                        && ServerRun(inventory, members, server, part);
      hide ServersRun;
      ServersRunHas(inventory, members, rest, init, d);
      if server.role == "server" {
        var sis :| Lists(inventory, RowKeys(inventory, server), sis) &&
            ClientsRun(inventory, server, sis, members, part);
        hide Lists, ClientsRun;
        ClientsRunHas(inventory, server, sis, members, part, d);
      }
      hide ServerRun, ServerLink;
      assert servers == rest + [server];
    }
  }

  lemma {:induction false} DomainsRunHas(inventory: map<string, WGInterface>, byDomain: map<string, seq<DomainMember>>,
                                         doms: seq<string>, order: seq<Binding>, d: Binding)
    requires (forall dom :: dom in doms ==> dom in byDomain) && DomainsRun(inventory, byDomain, doms, order)
    ensures d in order <==> exists dom :: dom in doms && DomainLink(inventory, byDomain[dom], byDomain[dom], d)
  {
    if doms != [] {
      var rest, dom := doms[..|doms| - 1], doms[|doms| - 1];
      var init, part :| order == init + part && DomainsRun(inventory, byDomain, rest, init)
                        && ServersRun(inventory, byDomain[dom], byDomain[dom], part);
      hide DomainsRun, ServersRun, DomainLink;
      DomainsRunHas(inventory, byDomain, rest, init, d);
      ServersRunHas(inventory, byDomain[dom], byDomain[dom], part, d);
      assert doms == rest + [dom];
    }
  }

  lemma LinkedIsDesired(s: State, byDomain: map<string, seq<DomainMember>>, dom: string, d: Binding)
    requires Grouped(Rec.WorldOf(s), byDomain) && dom in byDomain &&
             DomainLink(s.inventory, byDomain[dom], byDomain[dom], d)
    ensures d in Rec.Desired(s)
  {
    var w := Rec.WorldOf(s);
    var server :| server in byDomain[dom] && server.role == "server" &&
        ServerLink(s.inventory, server, byDomain[dom], d);
    var client :| client in byDomain[dom] && ClientLink(s.inventory, server, client, d);
    var ks, kw :| RowsLink(s.inventory, server, client, ks, kw, d);
    ListsExactly(w.members, MemberKeys(w, dom), byDomain[dom]);
    var km :| km in MemberKeys(w, dom) && km in w.members && w.members[km] == server;
    var kc :| kc in MemberKeys(w, dom) && kc in w.members && w.members[kc] == client;
    hide Rec.Derive, Rec.Approved, Grouped, Lists, ServerLink, ClientLink;
    Rec.SupportedIsDesired(s, km, kc, ks, kw);
  }

  lemma DesiredIsLinked(s: State, byDomain: map<string, seq<DomainMember>>, d: Binding) returns (dom: string)
    requires Grouped(Rec.WorldOf(s), byDomain) && d in Rec.Desired(s)
    ensures dom in byDomain && DomainLink(s.inventory, byDomain[dom], byDomain[dom], d)
  {
    var w := Rec.WorldOf(s);
    var km, kc, ks, kw := Rec.DesiredSupport(s, d);
    var server, client := s.members[km], s.members[kc];
    dom := server.domainID;
    ListsExactly(w.members, MemberKeys(w, dom), byDomain[dom]);
    assert km in MemberKeys(w, dom) && kc in MemberKeys(w, dom);
    assert server in byDomain[dom] && client in byDomain[dom];
    assert RowsLink(s.inventory, server, client, ks, kw, d);
    assert ClientLink(s.inventory, server, client, d);
    assert ServerLink(s.inventory, server, byDomain[dom], d);
  }

  /** Whatever the maps choose, the loops visit exactly the desired bindings. */
  lemma LoopOrderEnumerates(s: State, order: seq<Binding>)
    requires LoopOrder(s, order)
    ensures Rec.Enumerates(order, s)
  {
    var byDomain, doms :| LoopOrderBy(s, order, byDomain, doms);
    forall d ensures d in order <==> d in Rec.Desired(s) {
      DomainsRunHas(s.inventory, byDomain, doms, order, d);
      hide DomainsRun, Grouped, DomainLink, Rec.Desired;
      if d in order {
        var dom :| dom in doms && DomainLink(s.inventory, byDomain[dom], byDomain[dom], d);
        LinkedIsDesired(s, byDomain, dom, d);
      }
      if d in Rec.Desired(s) {
        var dom := DesiredIsLinked(s, byDomain, d);
      }
    }
  }

  // ---------- Any desired binding can come last ----------

  predicate EndsIn(order: seq<Binding>, d: Binding) {
    order != [] && order[|order| - 1] == d
  }

  lemma {:induction false} ListKeys(keep: set<string>) returns (keys: seq<string>)
    ensures Once(keys) && forall k :: k in keys <==> k in keep
  {
    keys := [];
    if keep != {} {
      var k :| k in keep;
      var rest := ListKeys(keep - {k});
      keys := rest + [k];
    }
  }

  /** A listing that ends in two given keys; they may be the same one, which then comes last. */
  lemma ListEndingIn<V(!new)>(table: map<string, V>, keep: set<string>, k: string, last: string) returns (list: seq<V>)
    requires keep <= table.Keys && k in keep && last in keep
    ensures Lists(table, keep, list)
    ensures list != [] && list[|list| - 1] == table[last]
    ensures k != last ==> |list| > 1 && list[|list| - 2] == table[k]
  {
    var others := ListKeys(keep - {k, last});
    var keys := others + (if k == last then [last] else [k, last]);
    forall x ensures x in keys <==> x in keep {
      assert x in keys <==> x in others || x == k || x == last;
    }
    list := seq(|keys|, i requires 0 <= i < |keys| => if keys[i] in table then table[keys[i]] else table[last]);
    assert ListedBy(table, keep, list, keys);
  }

  lemma SomeList<V(!new)>(table: map<string, V>, keep: set<string>) returns (list: seq<V>)
    requires keep <= table.Keys
    ensures Lists(table, keep, list)
  {
    if keep == {} {
      list := [];
      assert ListedBy(table, keep, [], []);
    } else {
      var k :| k in keep;
      list := ListEndingIn(table, keep, k, k);
    }
  }

  lemma RowKeysAreKeys(inventory: map<string, WGInterface>, m: DomainMember)
    ensures RowKeys(inventory, m) <= inventory.Keys
  {
  }

  lemma {:induction false} SomeClientsRun(inventory: map<string, WGInterface>, server: DomainMember,
                                          sis: seq<WGInterface>,
                                          clients: seq<DomainMember>) returns (order: seq<Binding>)
    ensures ClientsRun(inventory, server, sis, clients, order)
  {
    order := [];
    if clients != [] {
      var rest, client := clients[..|clients| - 1], clients[|clients| - 1];
      var init := SomeClientsRun(inventory, server, sis, rest);
      RowKeysAreKeys(inventory, client);
      var cis := SomeList(inventory, RowKeys(inventory, client));
      var part := if IsClientOf(server, client) then PairRun(server, client, sis, cis) else [];
      assert ClientRun(inventory, server, sis, client, part);
      hide ClientRun, Lists, PairRun;
      order := init + part;
    }
  }

  lemma {:induction false} SomeServersRun(inventory: map<string, WGInterface>, members: seq<DomainMember>,
                                          servers: seq<DomainMember>)
    returns (order: seq<Binding>)
    ensures ServersRun(inventory, members, servers, order)
  {
    order := [];
    if servers != [] {
      var rest, server := servers[..|servers| - 1], servers[|servers| - 1];
      var init := SomeServersRun(inventory, members, rest);
      RowKeysAreKeys(inventory, server);
      var sis := SomeList(inventory, RowKeys(inventory, server));
      var run := SomeClientsRun(inventory, server, sis, members);
      var part := if server.role == "server" then run else [];
      assert ServerRun(inventory, members, server, part);
      hide ServerRun, Lists, ClientsRun;
      order := init + part;
    }
  }

  lemma {:induction false} SomeDomainsRun(inventory: map<string, WGInterface>, byDomain: map<string, seq<DomainMember>>,
                                          doms: seq<string>)
    returns (order: seq<Binding>)
    requires forall dom :: dom in doms ==> dom in byDomain
    ensures DomainsRun(inventory, byDomain, doms, order)
  {
    order := [];
    if doms != [] {
      var rest, dom := doms[..|doms| - 1], doms[|doms| - 1];
      var init := SomeDomainsRun(inventory, byDomain, rest);
      var part := SomeServersRun(inventory, byDomain[dom], byDomain[dom]);
      hide ServersRun;
      order := init + part;
    }
  }

  lemma PairRunEnds(server: DomainMember, client: DomainMember, sis: seq<WGInterface>, cis: seq<WGInterface>,
                    d: Binding)
    requires sis != [] && cis != [] && LinkOf(server, client, sis[|sis| - 1], cis[|cis| - 1], d)
    ensures EndsIn(PairRun(server, client, sis, cis), d)
  {
    hide Rec.Derive, Rec.Peers;
    var si := sis[|sis| - 1];
    assert EndsIn(RowsRun(server, client, si, cis), d);
  }

  lemma AppendEnds(init: seq<Binding>, part: seq<Binding>, d: Binding)
    requires EndsIn(part, d)
    ensures EndsIn(init + part, d)
  {
  }

  /** With the client next to last and the server itself last, the server's run ends in the binding. */
  lemma ClientsRunEnds(inventory: map<string, WGInterface>, server: DomainMember, sis: seq<WGInterface>,
                       cis: seq<WGInterface>,
                       members: seq<DomainMember>, d: Binding) returns (order: seq<Binding>)
    requires |members| > 1 && members[|members| - 1] == server && IsClientOf(server, members[|members| - 2])
    requires Lists(inventory, RowKeys(inventory, members[|members| - 2]), cis)
    requires EndsIn(PairRun(server, members[|members| - 2], sis, cis), d)
    ensures ClientsRun(inventory, server, sis, members, order) && EndsIn(order, d)
  {
    var n := |members|;
    var client, part := members[n - 2], PairRun(server, members[n - 2], sis, cis);
    assert ClientRun(inventory, server, sis, client, part);
    assert ClientRun(inventory, server, sis, server, []);
    hide ClientRun, Lists, PairRun;
    var init := SomeClientsRun(inventory, server, sis, members[..n - 2]);
    assert members[..n - 1][..n - 2] == members[..n - 2];
    assert ClientsRun(inventory, server, sis, members[..n - 1], init + part);
    AppendEnds(init, part, d);
    assert init + part + [] == init + part;
    order := init + part;
  }

  lemma ServersRunEnds(inventory: map<string, WGInterface>, members: seq<DomainMember>, sis: seq<WGInterface>,
                       run: seq<Binding>, d: Binding) returns (order: seq<Binding>)
    requires members != [] && members[|members| - 1].role == "server"
    requires Lists(inventory, RowKeys(inventory, members[|members| - 1]), sis)
    requires ClientsRun(inventory, members[|members| - 1], sis, members, run) && EndsIn(run, d)
    ensures ServersRun(inventory, members, members, order) && EndsIn(order, d)
  {
    var n := |members| - 1;
    assert ServerRun(inventory, members, members[n], run);
    hide ServerRun, Lists, ClientsRun;
    var init := SomeServersRun(inventory, members, members[..n]);
    AppendEnds(init, run, d);
    order := init + run;
  }

  lemma DomainsRunEnds(inventory: map<string, WGInterface>, byDomain: map<string, seq<DomainMember>>, doms: seq<string>,
                       run: seq<Binding>, d: Binding) returns (order: seq<Binding>)
    requires doms != [] && forall dom :: dom in doms ==> dom in byDomain
    requires var dom := doms[|doms| - 1]; ServersRun(inventory, byDomain[dom], byDomain[dom], run) && EndsIn(run, d)
    ensures DomainsRun(inventory, byDomain, doms, order) && EndsIn(order, d)
  {
    hide ServersRun;
    var init := SomeDomainsRun(inventory, byDomain, doms[..|doms| - 1]);
    AppendEnds(init, run, d);
    order := init + run;
  }

  /** The members of one domain can be met with a given client next to last and a given server last; other
      domains in any order before it. */
  lemma SomeGrouping(w: Rec.World, dom: string, kc: string, km: string)
    returns (byDomain: map<string, seq<DomainMember>>, doms: seq<string>)
    requires kc in MemberKeys(w, dom) && km in MemberKeys(w, dom) && kc != km
    ensures Grouped(w, byDomain) && Once(doms) && (forall x :: x in doms <==> x in byDomain)
    ensures doms != [] && doms[|doms| - 1] == dom && dom in byDomain
    ensures var members := byDomain[dom];
            |members| > 1 && members[|members| - 1] == w.members[km] && members[|members| - 2] == w.members[kc]
  {
    var all := set k | k in w.members && Rec.Approved(w, w.members[k]) :: w.members[k].domainID;
    var rest := ListKeys(all - {dom});
    byDomain := GroupAll(w, all - {dom});
    var members := ListEndingIn(w.members, MemberKeys(w, dom), kc, km);
    byDomain := byDomain[dom := members];
    doms := rest + [dom];
    hide Lists, Rec.Approved;
    forall x ensures x in doms <==> x in byDomain {
      assert x in doms <==> x in rest || x == dom;
    }
  }

  lemma {:induction false} GroupAll(w: Rec.World, doms: set<string>) returns (byDomain: map<string, seq<DomainMember>>)
    ensures byDomain.Keys == doms
    ensures forall dom :: dom in byDomain ==> Lists(w.members, MemberKeys(w, dom), byDomain[dom])
  {
    byDomain := map[];
    if doms != {} {
      var dom :| dom in doms;
      var rest := GroupAll(w, doms - {dom});
      var list := SomeList(w.members, MemberKeys(w, dom));
      hide Lists;
      byDomain := rest[dom := list];
    }
  }

  /** For every desired binding the loops can run in an order that ends in it. */
  lemma LoopOrderEndingIn(s: State, d: Binding) returns (order: seq<Binding>)
    requires d in Rec.Desired(s)
    ensures LoopOrder(s, order) && EndsIn(order, d)
  {
    var w := Rec.WorldOf(s);
    var km, kc, ks, kw := Rec.DesiredSupport(s, d);
    var server, client := s.members[km], s.members[kc];
    RowKeysAreKeys(s.inventory, server);
    RowKeysAreKeys(s.inventory, client);
    var byDomain, doms := SomeGrouping(w, server.domainID, kc, km);
    var members := byDomain[server.domainID];
    var sis := ListEndingIn(s.inventory, RowKeys(s.inventory, server), ks, ks);
    var cis := ListEndingIn(s.inventory, RowKeys(s.inventory, client), kw, kw);
    PairRunEnds(server, client, sis, cis, d);
    hide Grouped, Lists, PairRun, ClientsRun, ServersRun, DomainsRun, Rec.Desired, EndsIn;
    var run := ClientsRunEnds(s.inventory, server, sis, cis, members, d);
    var servers := ServersRunEnds(s.inventory, members, sis, run, d);
    order := DomainsRunEnds(s.inventory, byDomain, doms, servers, d);
    assert LoopOrderBy(s, order, byDomain, doms);
  }

  // ---------- Any desired binding can come first, and only then ----------

  /** Memberships and inventory rows sit under the keys made of their own fields. */
  predicate KeyedWorld(w: Rec.World) {
    && (forall k :: k in w.members ==> k == Names.MemberKey(w.members[k].domainID, w.members[k].nodeID))
    && (forall k :: k in w.inventory ==> k == Names.InterfaceKey(w.inventory[k].nodeID, w.inventory[k].name))
  }

  predicate StartsOnce(order: seq<Binding>, d: Binding) {
    order != [] && order[0] == d && d !in order[1..]
  }

  lemma AppendStarts(init: seq<Binding>, part: seq<Binding>, d: Binding)
    requires StartsOnce(init, d) && d !in part
    ensures StartsOnce(init + part, d)
  {
    assert (init + part)[1..] == init[1..] + part;
  }

  lemma DerivedNames(server: DomainMember, client: DomainMember, si: WGInterface, ci: WGInterface)
    ensures var d := Rec.Derive(server, client, si, ci);
            && d.domainID == server.domainID && d.serverNode == server.nodeID && d.serverIface == si.name
            && d.clientNode == client.nodeID && d.clientIface == ci.name
  {
    hide Names.AutoBindingID;
  }

  /** Rows with names of their own. */
  predicate Apart(rows: seq<WGInterface>) {
    forall i, j :: 0 <= i < j < |rows| ==> rows[i].name != rows[j].name
  }

  lemma {:induction false} RowsRunStarts(server: DomainMember, client: DomainMember, si: WGInterface,
                                         cis: seq<WGInterface>, d: Binding)
    requires cis != [] && Apart(cis) && LinkOf(server, client, si, cis[0], d)
    ensures StartsOnce(RowsRun(server, client, si, cis), d)
  {
    hide Rec.Derive, Rec.Peers;
    var init, ci := cis[..|cis| - 1], cis[|cis| - 1];
    DerivedNames(server, client, si, cis[0]);
    DerivedNames(server, client, si, ci);
    var part := if Rec.Peers(si, ci) then [Rec.Derive(server, client, si, ci)] else [];
    if init == [] {
      assert RowsRun(server, client, si, init) == [];
    } else {
      RowsRunStarts(server, client, si, init, d);
      AppendStarts(RowsRun(server, client, si, init), part, d);
    }
  }

  lemma {:induction false} PairRunStarts(server: DomainMember, client: DomainMember, sis: seq<WGInterface>,
                                         cis: seq<WGInterface>, d: Binding)
    requires sis != [] && cis != [] && Apart(sis) && Apart(cis) && LinkOf(server, client, sis[0], cis[0], d)
    ensures StartsOnce(PairRun(server, client, sis, cis), d)
  {
    hide RowsRun;
    var init, si := sis[..|sis| - 1], sis[|sis| - 1];
    if init == [] {
      RowsRunStarts(server, client, si, cis, d);
      assert PairRun(server, client, init, cis) == [];
      assert PairRun(server, client, sis, cis) == RowsRun(server, client, si, cis);
    } else {
      PairRunStarts(server, client, init, cis, d);
      NotOfRow(server, client, si, sis[0], cis, cis[0], d);
      AppendStarts(PairRun(server, client, init, cis), RowsRun(server, client, si, cis), d);
    }
  }

  lemma NotOfRow(server: DomainMember, client: DomainMember, si: WGInterface, own: WGInterface, cis: seq<WGInterface>,
                 ci: WGInterface, d: Binding)
    requires LinkOf(server, client, own, ci, d) && si.name != own.name
    ensures d !in RowsRun(server, client, si, cis)
  {
    RowsRunHas(server, client, si, cis, d);
    DerivedNames(server, client, own, ci);
    forall c ensures !LinkOf(server, client, si, c, d) {
      DerivedNames(server, client, si, c);
    }
    hide RowsRun, LinkOf;
  }

  /** A listing that starts with two given keys; they may be the same one. */
  lemma ListStartingWith<V(!new)>(table: map<string, V>, keep: set<string>, first: string, k: string)
    returns (list: seq<V>)
    requires keep <= table.Keys && k in keep && first in keep
    ensures Lists(table, keep, list)
    ensures list != [] && list[0] == table[first]
    ensures k != first ==> |list| > 1 && list[1] == table[k]
  {
    var others := ListKeys(keep - {k, first});
    var keys := (if k == first then [first] else [first, k]) + others;
    forall x ensures x in keys <==> x in keep {
      assert x in keys <==> x in others || x == k || x == first;
    }
    list := seq(|keys|, i requires 0 <= i < |keys| => if keys[i] in table then table[keys[i]] else table[first]);
    assert ListedBy(table, keep, list, keys);
  }

  lemma RowsAreApart(w: Rec.World, m: DomainMember, list: seq<WGInterface>)
    requires KeyedWorld(w) && Lists(w.inventory, RowKeys(w.inventory, m), list)
    ensures Apart(list)
  {
    var keys :| ListedBy(w.inventory, RowKeys(w.inventory, m), list, keys);
    forall i, j | 0 <= i < j < |list| ensures list[i].name != list[j].name {
      assert keys[i] in keys && keys[j] in keys && keys[i] != keys[j];
    }
  }

  lemma MembersAreApart(w: Rec.World, dom: string, list: seq<DomainMember>)
    requires KeyedWorld(w) && Lists(w.members, MemberKeys(w, dom), list)
    ensures forall i, j :: 0 <= i < j < |list| ==> list[i].nodeID != list[j].nodeID
    ensures forall i :: 0 <= i < |list| ==> list[i].domainID == dom
  {
    var keys :| ListedBy(w.members, MemberKeys(w, dom), list, keys);
    forall i | 0 <= i < |list| ensures list[i].domainID == dom {
      assert keys[i] in keys;
    }
    forall i, j | 0 <= i < j < |list| ensures list[i].nodeID != list[j].nodeID {
      assert keys[i] in keys && keys[j] in keys && keys[i] != keys[j];
    }
  }

  lemma LinkNames(inventory: map<string, WGInterface>, server: DomainMember, client: DomainMember, d: Binding)
    requires ClientLink(inventory, server, client, d)
    ensures d.domainID == server.domainID && d.serverNode == server.nodeID && d.clientNode == client.nodeID
  {
    var ks, kw :| RowsLink(inventory, server, client, ks, kw, d);
    DerivedNames(server, client, inventory[ks], inventory[kw]);
  }

  /** The clients after the given one add nothing of the binding. */
  lemma {:induction false} ClientsRunStarts(inventory: map<string, WGInterface>, server: DomainMember,
                                            sis: seq<WGInterface>, cis: seq<WGInterface>,
                                            members: seq<DomainMember>, d: Binding) returns (order: seq<Binding>)
    requires |members| > 1 && members[0] == server && IsClientOf(server, members[1])
    requires forall i, j :: 0 <= i < j < |members| ==> members[i].nodeID != members[j].nodeID
    requires Lists(inventory, RowKeys(inventory, server), sis) && Lists(inventory, RowKeys(inventory, members[1]), cis)
    requires StartsOnce(PairRun(server, members[1], sis, cis), d) && d.clientNode == members[1].nodeID
    ensures ClientsRun(inventory, server, sis, members, order) && StartsOnce(order, d)
  {
    var n := |members| - 1;
    var client := members[n];
    if n == 1 {
      order := PairRun(server, client, sis, cis);
      assert ClientRun(inventory, server, sis, server, []) && ClientRun(inventory, server, sis, client, order);
      hide ClientRun, Lists, PairRun, StartsOnce;
      assert members[..0] == [] && members[..2] == members;
      NoClients(inventory, server, sis);
      var none: seq<Binding> := [];
      assert none + none == none && none + order == order;
      NextClient(inventory, server, sis, members, 0, none, none);
      NextClient(inventory, server, sis, members, 1, none, order);
    } else {
      hide PairRun;
      var init := ClientsRunStarts(inventory, server, sis, cis, members[..n], d);
      var part := SomeClientRun(inventory, server, sis, client);
      ClientRunHas(inventory, server, sis, client, part, d);
      if ClientLink(inventory, server, client, d) {
        LinkNames(inventory, server, client, d);
      }
      hide ClientRun, Lists, ClientLink;
      AppendStarts(init, part, d);
      order := init + part;
    }
  }

  lemma SomeClientRun(inventory: map<string, WGInterface>, server: DomainMember, sis: seq<WGInterface>,
                      client: DomainMember)
    returns (part: seq<Binding>)
    ensures ClientRun(inventory, server, sis, client, part)
  {
    hide PairRun, Lists;
    RowKeysAreKeys(inventory, client);
    var cis := SomeList(inventory, RowKeys(inventory, client));
    part := if IsClientOf(server, client) then PairRun(server, client, sis, cis) else [];
  }

  lemma SomeServerRun(inventory: map<string, WGInterface>, members: seq<DomainMember>, server: DomainMember)
    returns (part: seq<Binding>)
    ensures ServerRun(inventory, members, server, part)
  {
    hide Lists, ClientsRun;
    RowKeysAreKeys(inventory, server);
    var sis := SomeList(inventory, RowKeys(inventory, server));
    var run := SomeClientsRun(inventory, server, sis, members);
    part := if server.role == "server" then run else [];
  }

  lemma NotOfServer(inventory: map<string, WGInterface>, members: seq<DomainMember>, server: DomainMember,
                    part: seq<Binding>, d: Binding)
    requires ServerRun(inventory, members, server, part) && d.serverNode != server.nodeID
    ensures d !in part
  {
    if server.role == "server" {
      var sis :| Lists(inventory, RowKeys(inventory, server), sis) && ClientsRun(inventory, server, sis, members, part);
      ClientsRunHas(inventory, server, sis, members, part, d);
      hide Lists, ClientsRun, ClientLink;
      forall client | ClientLink(inventory, server, client, d) ensures false {
        LinkNames(inventory, server, client, d);
      }
    }
  }

  lemma {:induction false} ServersRunStarts(inventory: map<string, WGInterface>, members: seq<DomainMember>,
                                            servers: seq<DomainMember>,
                                            run: seq<Binding>, d: Binding) returns (order: seq<Binding>)
    requires servers != [] && ServerRun(inventory, members, servers[0], run) && StartsOnce(run, d)
    requires forall i :: 0 < i < |servers| ==> servers[i].nodeID != d.serverNode
    ensures ServersRun(inventory, members, servers, order) && StartsOnce(order, d)
  {
    var n := |servers| - 1;
    hide ServerRun, StartsOnce;
    if n == 0 {
      order := run;
      assert servers[..0] == [] && [] + run == run;
      assert ServersRun(inventory, members, [], []);
    } else {
      var init := ServersRunStarts(inventory, members, servers[..n], run, d);
      var part := SomeServerRun(inventory, members, servers[n]);
      NotOfServer(inventory, members, servers[n], part, d);
      AppendStarts(init, part, d);
      order := init + part;
    }
  }

  lemma NotOfDomain(w: Rec.World, dom: string, members: seq<DomainMember>, part: seq<Binding>, d: Binding)
    requires KeyedWorld(w) && Lists(w.members, MemberKeys(w, dom), members) && d.domainID != dom
    requires ServersRun(w.inventory, members, members, part)
    ensures d !in part
  {
    MembersAreApart(w, dom, members);
    ServersRunHas(w.inventory, members, members, part, d);
    hide Lists, ServersRun, ClientLink;
    forall server, client | server in members && ClientLink(w.inventory, server, client, d) ensures false {
      LinkNames(w.inventory, server, client, d);
    }
  }

  lemma {:induction false} DomainsRunStarts(w: Rec.World, byDomain: map<string, seq<DomainMember>>, doms: seq<string>,
                                            run: seq<Binding>, d: Binding) returns (order: seq<Binding>)
    requires KeyedWorld(w) && Grouped(w, byDomain) && doms != [] && Once(doms)
    requires forall dom :: dom in doms ==> dom in byDomain
    requires ServersRun(w.inventory, byDomain[doms[0]], byDomain[doms[0]], run) && StartsOnce(run, d) &&
             d.domainID == doms[0]
    ensures DomainsRun(w.inventory, byDomain, doms, order) && StartsOnce(order, d)
  {
    var n := |doms| - 1;
    hide ServersRun, StartsOnce, KeyedWorld, Lists;
    if n == 0 {
      order := run;
      assert doms[..0] == [] && [] + run == run;
      assert DomainsRun(w.inventory, byDomain, [], []);
    } else {
      var init := DomainsRunStarts(w, byDomain, doms[..n], run, d);
      var part := SomeServersRun(w.inventory, byDomain[doms[n]], byDomain[doms[n]]);
      NotOfDomain(w, doms[n], byDomain[doms[n]], part, d);
      AppendStarts(init, part, d);
      order := init + part;
    }
  }

  lemma SomeGroupingFirst(w: Rec.World, dom: string, km: string, kc: string)
    returns (byDomain: map<string, seq<DomainMember>>, doms: seq<string>)
    requires kc in MemberKeys(w, dom) && km in MemberKeys(w, dom) && kc != km
    ensures Grouped(w, byDomain) && Once(doms) && (forall x :: x in doms <==> x in byDomain)
    ensures doms != [] && doms[0] == dom && dom in byDomain
    ensures var members := byDomain[dom];
            |members| > 1 && members[0] == w.members[km] && members[1] == w.members[kc]
  {
    var all := set k | k in w.members && Rec.Approved(w, w.members[k]) :: w.members[k].domainID;
    var rest := ListKeys(all - {dom});
    byDomain := GroupAll(w, all - {dom});
    var members := ListStartingWith(w.members, MemberKeys(w, dom), km, kc);
    byDomain := byDomain[dom := members];
    doms := [dom] + rest;
    hide Lists, Rec.Approved;
    forall x ensures x in doms <==> x in byDomain {
      assert x in doms <==> x in rest || x == dom;
    }
  }

  /** In a keyed world the loops can run in an order that visits a given desired binding first, and then never
      again. */
  lemma LoopOrderStartingWith(s: State, d: Binding) returns (order: seq<Binding>)
    requires KeyedWorld(Rec.WorldOf(s)) && d in Rec.Desired(s)
    ensures LoopOrder(s, order) && StartsOnce(order, d)
  {
    var w := Rec.WorldOf(s);
    var km, kc, ks, kw := Rec.DesiredSupport(s, d);
    var server, client := s.members[km], s.members[kc];
    RowKeysAreKeys(s.inventory, server);
    RowKeysAreKeys(s.inventory, client);
    DerivedNames(server, client, s.inventory[ks], s.inventory[kw]);
    var byDomain, doms := SomeGroupingFirst(w, server.domainID, km, kc);
    var members := byDomain[server.domainID];
    var sis := ListStartingWith(s.inventory, RowKeys(s.inventory, server), ks, ks);
    var cis := ListStartingWith(s.inventory, RowKeys(s.inventory, client), kw, kw);
    RowsAreApart(w, server, sis);
    RowsAreApart(w, client, cis);
    MembersAreApart(w, server.domainID, members);
    PairRunStarts(server, client, sis, cis, d);
    hide Grouped, Lists, PairRun, ClientsRun, ServersRun, DomainsRun, Rec.Desired, StartsOnce, KeyedWorld;
    var run := ClientsRunStarts(s.inventory, server, sis, cis, members, d);
    assert ServerRun(s.inventory, members, server, run);
    var servers := ServersRunStarts(s.inventory, members, members, run, d);
    order := DomainsRunStarts(w, byDomain, doms, servers, d);
    assert LoopOrderBy(s, order, byDomain, doms);
  }

  lemma AllButFirst(order: seq<Binding>, ds: set<Binding>, d: Binding)
    requires StartsOnce(order, d) && Rec.Elements(order) == ds
    ensures Rec.AllBut(order[1..], ds, d)
  {
    assert order == [d] + order[1..];
    Rec.ElementsConcat([d], order[1..]);
    assert Rec.Elements([d]) == {d};
  }

  lemma AllButLast(order: seq<Binding>, ds: set<Binding>, d: Binding)
    requires EndsIn(order, d) && Rec.Elements(order) == ds
    ensures Rec.AllBut(order[..|order| - 1], ds, d)
    ensures d.id in Rec.IdsOf(order)
  {
    assert order == order[..|order| - 1] + [d];
    Rec.ElementsConcat(order[..|order| - 1], [d]);
    assert Rec.Elements([d]) == {d};
  }

  lemma FirstOrLast(s: State, o1: seq<Binding>, o2: seq<Binding>, d: Binding)
    requires Rec.Enumerates(o1, s) && Rec.Enumerates(o2, s) && StartsOnce(o1, d) && EndsIn(o2, d)
    requires Rec.InjectiveIds(Rec.Desired(s)) && d in Rec.Desired(s)
    requires d.id !in s.bindings && Rec.Covered(s.bindings, d)
    requires !exists k :: Rec.Anchors(s.bindings, Rec.Desired(s), d, k)
    ensures d.id !in Rec.Reconcile(s, o1).bindings && d.id in Rec.Reconcile(s, o2).bindings
  {
    var bs, ds := s.bindings, Rec.Desired(s);
    Rec.DesiredIsDerived(s);
    hide Rec.Desired, Rec.InjectiveIds, Rec.Covered, Rec.AllDerived, Rec.Anchors;
    AllButFirst(o1, ds, d);
    AllButLast(o2, ds, d);
    assert [d] + o1[1..] == o1 && o2[..|o2| - 1] + [d] == o2;
    hide Rec.PlaceAll, Rec.AllBut, Rec.IdsOf, Rec.Elements;
    Rec.CoveredStaysOut(bs, o1[1..], ds, d);
    Rec.UnanchoredGetsIn(bs, o2[..|o2| - 1], ds, d);
  }

  /** Without a stable cover the loops have two orders that end differently: one creates an entry the other never
      has. */
  lemma OrderMatters(s: State) returns (o1: seq<Binding>, o2: seq<Binding>, d: Binding)
    requires KeyedWorld(Rec.WorldOf(s)) && Rec.InjectiveIds(Rec.Desired(s)) &&
             !Rec.StableCover(s.bindings, Rec.Desired(s))
    ensures LoopOrder(s, o1) && LoopOrder(s, o2) && d in Rec.Desired(s)
    ensures d.id !in Rec.Reconcile(s, o1).bindings && d.id in Rec.Reconcile(s, o2).bindings
  {
    var bs, ds := s.bindings, Rec.Desired(s);
    d :| d in ds && d.id !in bs && Rec.Covered(bs, d) && !exists k :: Rec.Anchors(bs, ds, d, k);
    hide LoopOrder, KeyedWorld, Rec.Desired, Rec.InjectiveIds, Rec.StableCover, Rec.Covered, Rec.Anchors;
    hide StartsOnce, EndsIn, Rec.Reconcile, Rec.Enumerates;
    o1 := LoopOrderStartingWith(s, d);
    o2 := LoopOrderEndingIn(s, d);
    LoopOrderEnumerates(s, o1);
    LoopOrderEnumerates(s, o2);
    FirstOrLast(s, o1, o2, d);
  }

  /** With distinct ids, over the orders the loops can run in and for any table of bindings, a pass has one outcome
      exactly when covers are stable. */
  lemma DistinctIdsOneOutcomeIff(s: State)
    requires KeyedWorld(Rec.WorldOf(s)) && Rec.InjectiveIds(Rec.Desired(s))
    ensures (forall o1, o2 :: LoopOrder(s, o1) && LoopOrder(s, o2) ==>
                                Rec.Reconcile(s, o1) == Rec.Reconcile(s, o2)) <==>
            Rec.StableCover(s.bindings, Rec.Desired(s))
  {
    hide LoopOrder, KeyedWorld, Rec.Reconcile, Rec.Desired, Rec.InjectiveIds, Rec.StableCover, Rec.Enumerates;
    if Rec.StableCover(s.bindings, Rec.Desired(s)) {
      forall o1, o2 | LoopOrder(s, o1) && LoopOrder(s, o2) ensures Rec.Reconcile(s, o1) == Rec.Reconcile(s, o2) {
        LoopOrderEnumerates(s, o1);
        LoopOrderEnumerates(s, o2);
        Rec.StableIsOneOutcome(s, o1, o2);
      }
    } else {
      var o1, o2, d := OrderMatters(s);
    }
  }

  // ---------- Colliding ids ----------

  /** Over the orders the loops can run in, a pass on a table whose automatic entries sit under their own ids
      has one outcome exactly when different desired bindings that share an id cannot get in. */
  lemma OneOutcomeIff(s: State)
    requires Rec.KeyedTable(s.bindings)
    ensures (forall o1, o2 :: LoopOrder(s, o1) && LoopOrder(s, o2) ==>
                                Rec.Reconcile(s, o1) == Rec.Reconcile(s, o2)) <==>
            Rec.CollisionsInert(s.bindings, Rec.Desired(s))
  {
    hide LoopOrder, Rec.KeyedTable, Rec.Reconcile, Rec.Desired;
    if Rec.CollisionsInert(s.bindings, Rec.Desired(s)) {
      forall o1, o2 | LoopOrder(s, o1) && LoopOrder(s, o2) ensures Rec.Reconcile(s, o1) == Rec.Reconcile(s, o2) {
        LoopOrderEnumerates(s, o1);
        LoopOrderEnumerates(s, o2);
        Rec.InertIsOneOutcome(s, o1, o2);
      }
    } else {
      var d, e :| d in Rec.Desired(s) && e in Rec.Desired(s) && d.id == e.id && d != e &&
                  !(Rec.Inert(s.bindings, d) && Rec.Inert(s.bindings, e));
      var o1, o2 := CollisionDiverges(s, d, e);
    }
  }

  /** Otherwise two orders of the loops leave different bindings under the shared id. */
  lemma CollisionDiverges(s: State, d: Binding, e: Binding) returns (o1: seq<Binding>, o2: seq<Binding>)
    requires Rec.KeyedTable(s.bindings) && d in Rec.Desired(s) && e in Rec.Desired(s) && d.id == e.id && d != e
    requires !(Rec.Inert(s.bindings, d) && Rec.Inert(s.bindings, e))
    ensures LoopOrder(s, o1) && LoopOrder(s, o2)
    ensures d.id in Rec.Reconcile(s, o1).bindings && Rec.BindingsEqual(Rec.Reconcile(s, o1).bindings[d.id], d)
    ensures e.id in Rec.Reconcile(s, o2).bindings && Rec.BindingsEqual(Rec.Reconcile(s, o2).bindings[e.id], e)
    ensures Rec.Reconcile(s, o1) != Rec.Reconcile(s, o2)
  {
    hide LoopOrder, Rec.KeyedTable, Rec.Reconcile, Rec.Desired, Rec.BindingsEqual, Rec.Enumerates;
    var active := if Rec.Inert(s.bindings, d) then e else d;
    o1 := LoopOrderEndingIn(s, d);
    o2 := LoopOrderEndingIn(s, e);
    LoopOrderEnumerates(s, o1);
    LoopOrderEnumerates(s, o2);
    assert o1[..|o1| - 1] + [d] == o1 && o2[..|o2| - 1] + [e] == o2;
    Rec.EndsUpAs(s, o1[..|o1| - 1], d, active);
    Rec.EndsUpAs(s, o2[..|o2| - 1], e, active);
    if Rec.BindingsEqual(Rec.Reconcile(s, o1).bindings[d.id], e) {
      Rec.DerivedAreEqual(s, d, e, Rec.Reconcile(s, o1).bindings[d.id]);
    }
  }
}
