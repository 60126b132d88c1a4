/** A world in which automatic ids collide: domain a-b with server c, domain a with server b-c, and one
    client that is a member of both and lists both servers as peers. */
module Collisions {
  import opened Model
  import Names
  import Rec = Reconciler
  import Op = Operations
  import opened Runs
  import Loops = LoopOrders

  function Known(id: string): Node {
    Node(id, id, "", true, NO_LEGACY, UNSEEN)
  }

  function Member(domain: string, node: string, role: string): DomainMember {
    NO_MEMBER.(domainID := domain, nodeID := node, role := role, iface := "wg0")
  }

  function Row(node: string, key: string, peers: seq<string>): WGInterface {
    WGInterface(node, "wg0", key, 0, peers, "", "", "")
  }

  function Members(): map<string, DomainMember> {
    map["a-b/c" := Member("a-b", "c", "server"), "a-b/x" := Member("a-b", "x", "client"),
        "a/b-c" := Member("a", "b-c", "server"), "a/x" := Member("a", "x", "client")]
  }

  function Rows(): map<string, WGInterface> {
    map["c/wg0" := Row("c", "K", []), "b-c/wg0" := Row("b-c", "L", []), "x/wg0" := Row("x", "", ["K", "L"])]
  }

  function Nodes(): map<string, Node> {
    map["c" := Known("c"), "b-c" := Known("b-c"), "x" := Known("x")]
  }

  function Domains(): map<string, Domain> {
    map["a-b" := Domain("a-b", "a-b", "", "", ""), "a" := Domain("a", "a", "", "", "")]
  }

  function Presences(): map<string, Presence> {
    map["c" := Idle(), "b-c" := Idle(), "x" := Idle()]
  }

  function Idle(): Presence {
    Presence("offline", "", "", "")
  }

  function Registered(): State {
    EMPTY.(nodes := Nodes(), presence := Presences(), domains := Domains())
  }

  function Colliding(): State {
    Registered().(members := Members(), inventory := Rows())
  }

  lemma MembersAre()
    ensures var m := Members();
            && m.Keys == {"a-b/c", "a-b/x", "a/b-c", "a/x"}
            && m["a-b/c"] == Member("a-b", "c", "server") && m["a-b/x"] == Member("a-b", "x", "client")
            && m["a/b-c"] == Member("a", "b-c", "server") && m["a/x"] == Member("a", "x", "client")
  {
    hide Member;
    assert "a-b/c"[4] != "a-b/x"[4] && "a-b/c"[1] != "a/b-c"[1] && "a-b/x"[1] != "a/b-c"[1];
    assert |"a/x"| == 3 && |"a-b/c"| == 5 && |"a-b/x"| == 5 && |"a/b-c"| == 5;
  }

  lemma RowsAre()
    ensures var r := Rows();
            && r.Keys == {"c/wg0", "b-c/wg0", "x/wg0"}
            && r["c/wg0"] == Row("c", "K", []) && r["b-c/wg0"] == Row("b-c", "L", []) &&
               r["x/wg0"] == Row("x", "", ["K", "L"])
  {
    hide Row;
    assert "c/wg0"[0] != "x/wg0"[0];
    assert |"b-c/wg0"| == 7 && |"c/wg0"| == 5 && |"x/wg0"| == 5;
  }

  lemma KeysAre()
    ensures Names.MemberKey("a-b", "c") == "a-b/c" && Names.MemberKey("a-b", "x") == "a-b/x"
    ensures Names.MemberKey("a", "b-c") == "a/b-c" && Names.MemberKey("a", "x") == "a/x"
    ensures Names.InterfaceKey("c", "wg0") == "c/wg0" && Names.InterfaceKey("b-c", "wg0") == "b-c/wg0" &&
            Names.InterfaceKey("x", "wg0") == "x/wg0"
  {
  }

  lemma NodesAre()
    ensures var n := Nodes();
            && n.Keys == {"c", "b-c", "x"}
            && n["c"] == Known("c") && n["b-c"] == Known("b-c") && n["x"] == Known("x")
  {
    hide Known;
    assert "c"[0] != "x"[0] && |"b-c"| == 3 && |"c"| == 1 && |"x"| == 1;
  }

  // ---------- How it comes about ----------

  /** The operator creates domains and nodes and approves memberships; the agents report their interfaces. */
  function Creations(): seq<Step> {
    [CreateDomain("a-b", "a-b", "", "", "")] + [CreateDomain("a", "a", "", "", "")] +
    [CreateNode("c", "c", "")] + [CreateNode("b-c", "b-c", "")] + [CreateNode("x", "x", "")]
  }

  function Joins(domain: string, node: string, role: string, single: string): Step {
    Approve(node, Op.Approval(domain, role, "", "wg0", "", "", NO_NATTER, ""), single, "")
  }

  function Reports(node: string, key: string, peers: seq<string>): Step {
    Inventory(node, [Row(node, key, peers)], "")
  }

  function Approvals(): seq<Step> {
    Creations() + [Joins("a-b", "c", "server", "")] + [Joins("a-b", "x", "client", "")] +
    [Joins("a", "b-c", "server", "")] + [Joins("a", "x", "client", "a-b")]
  }

  function Story(): seq<Step> {
    Approvals() + [Reports("c", "K", [])] + [Reports("b-c", "L", [])] + [Reports("x", "", ["K", "L"])]
  }

  lemma Created()
    ensures IsRun(EMPTY, Creations()) && Exec(EMPTY, Creations()) == Registered()
  {
    assert IsRun(EMPTY, []) && Exec(EMPTY, []) == EMPTY;
    hide Exec, IsRun;
    var d1, d2 := CreateDomain("a-b", "a-b", "", "", ""), CreateDomain("a", "a", "", "", "");
    var n1, n2, n3 := CreateNode("c", "c", ""), CreateNode("b-c", "b-c", ""), CreateNode("x", "x", "");
    ExecSnoc(EMPTY, [], d1);
    ExecSnoc(EMPTY, [] + [d1], d2);
    ExecSnoc(EMPTY, [] + [d1] + [d2], n1);
    ExecSnoc(EMPTY, [] + [d1] + [d2] + [n1], n2);
    ExecSnoc(EMPTY, [] + [d1] + [d2] + [n1] + [n2], n3);
    assert [] + [d1] == [d1];
    assert |"a-b"| != |"a"|;
  }

  lemma JoinAdds(s: State, domain: string, node: string, role: string, single: string)
    requires node in s.nodes && s.nodes[node] == Known(node) && node in s.presence && s.presence[node] == Idle()
    requires domain in s.domains && domain != "" && role != "" && s.pendingDomain == map[]
    requires Names.MemberKey(domain, node) !in s.members
    ensures Do(s, Joins(domain, node, role, single)) ==
            s.(members := s.members[Names.MemberKey(domain, node) := Member(domain, node, role)])
  {
    hide Names.MemberKey;
    var t := Do(s, Joins(domain, node, role, single));
    assert t.nodes == s.nodes && t.presence == s.presence;
  }

  lemma ReportAdds(s: State, node: string, key: string, peers: seq<string>)
    requires node != "" && forall k :: k in s.inventory ==> s.inventory[k].nodeID != node
    ensures Do(s, Reports(node, key, peers)) ==
            s.(inventory := s.inventory[Names.InterfaceKey(node, "wg0") := Row(node, key, peers)])
  {
    hide Names.InterfaceKey;
    assert Op.RowsWithout(s.inventory, node) == s.inventory;
    var items := [Row(node, key, peers)];
    assert items[..0] == [];
    assert Op.PutRows(s.inventory, node, [], "") == s.inventory;
  }

  /** The state after the first few approvals and reports. */
  function After(members: map<string, DomainMember>, rows: map<string, WGInterface>): State {
    Registered().(members := members, inventory := rows)
  }

  lemma PresencesAre()
    ensures var p := Presences();
            p.Keys == {"c", "b-c", "x"} && p["c"] == Idle() && p["b-c"] == Idle() && p["x"] == Idle()
  {
    hide Idle;
    assert "c"[0] != "x"[0] && |"b-c"| == 3 && |"c"| == 1 && |"x"| == 1;
  }

  /** A node and a domain an approval can name. */
  predicate Ready(domain: string, node: string) {
    && node in Nodes() && Nodes()[node] == Known(node) && node in Presences() && Presences()[node] == Idle()
    && domain in Domains() && domain != ""
  }

  lemma AllReady()
    ensures Ready("a-b", "c") && Ready("a-b", "x") && Ready("a", "b-c") && Ready("a", "x")
  {
    NodesAre();
    PresencesAre();
    hide Nodes, Presences, Known, Idle;
  }

  lemma JoinsNext(steps: seq<Step>, members: map<string, DomainMember>, domain: string, node: string, role: string,
                  single: string, key: string)
    requires IsRun(EMPTY, steps) && Exec(EMPTY, steps) == After(members, map[])
    requires Ready(domain, node) && role != "" && key == Names.MemberKey(domain, node) && key !in members
    requires Op.SingleDomain(After(members, map[]), node, single)
    ensures var all := steps + [Joins(domain, node, role, single)];
            IsRun(EMPTY, all) && Exec(EMPTY, all) == After(members[key := Member(domain, node, role)], map[])
  {
    hide Exec, IsRun, Nodes, Presences, Domains, Op.SingleDomain, Do, Names.MemberKey, Member;
    ExecSnoc(EMPTY, steps, Joins(domain, node, role, single));
    JoinAdds(After(members, map[]), domain, node, role, single);
  }

  lemma ReportsNext(steps: seq<Step>, rows: map<string, WGInterface>, node: string, key: string, peers: seq<string>)
    requires IsRun(EMPTY, steps) && Exec(EMPTY, steps) == After(Members(), rows)
    requires node != "" && forall k :: k in rows ==> rows[k].nodeID != node
    ensures var all := steps + [Reports(node, key, peers)];
            && IsRun(EMPTY, all)
            && Exec(EMPTY, all) == After(Members(), rows[Names.InterfaceKey(node, "wg0") := Row(node, key, peers)])
  {
    hide Exec, IsRun, Do, Members, Registered, Names.InterfaceKey, Row;
    ExecSnoc(EMPTY, steps, Reports(node, key, peers));
    ReportAdds(After(Members(), rows), node, key, peers);
  }

  function OneMember(): map<string, DomainMember> {
    map["a-b/c" := Member("a-b", "c", "server")]
  }

  function FirstMembers(): map<string, DomainMember> {
    OneMember()["a-b/x" := Member("a-b", "x", "client")]
  }

  lemma FirstSingles()
    ensures Op.SingleDomain(After(map[], map[]), "c", "") && Op.SingleDomain(After(OneMember(), map[]), "x", "")
    ensures "a-b/x" !in OneMember() && map["a-b/c" := Member("a-b", "c", "server")] == OneMember()
  {
  }

  lemma FirstApprovals()
    ensures var steps := Creations() + [Joins("a-b", "c", "server", "")] + [Joins("a-b", "x", "client", "")];
            IsRun(EMPTY, steps) && Exec(EMPTY, steps) == After(FirstMembers(), map[])
  {
    Created();
    AllReady();
    KeysAre();
    FirstSingles();
    assert Registered() == After(map[], map[]);
    hide Exec, IsRun, Creations, Ready, Names.MemberKey, Op.SingleDomain, Joins, Member, Registered, After, OneMember;
    JoinsNext(Creations(), map[], "a-b", "c", "server", "", "a-b/c");
    JoinsNext(Creations() + [Joins("a-b", "c", "server", "")], OneMember(), "a-b", "x", "client", "", "a-b/x");
  }

  function SecondMembers(): map<string, DomainMember> {
    FirstMembers()["a/b-c" := Member("a", "b-c", "server")]
  }

  /** The client is a member of one domain when it is approved for the second one. */
  lemma SecondSingles()
    ensures Op.SingleDomain(After(FirstMembers(), map[]), "b-c", "")
    ensures Op.SingleDomain(After(SecondMembers(), map[]), "x", "a-b")
  {
    assert Op.MemberOf(After(SecondMembers(), map[]), "a-b/x", "x");
  }

  lemma SecondKeys()
    ensures "a/b-c" !in FirstMembers() && "a/x" !in SecondMembers()
    ensures Members() == SecondMembers()["a/x" := Member("a", "x", "client")]
  {
  }

  lemma Approved()
    ensures IsRun(EMPTY, Approvals()) && Exec(EMPTY, Approvals()) == After(Members(), map[])
  {
    AllReady();
    KeysAre();
    SecondSingles();
    SecondKeys();
    FirstApprovals();
    var s2 := Creations() + [Joins("a-b", "c", "server", "")] + [Joins("a-b", "x", "client", "")];
    hide Exec, IsRun, Creations, Ready, Names.MemberKey, Op.SingleDomain, Joins, Member, Registered;
    hide FirstMembers, Members, After;
    JoinsNext(s2, FirstMembers(), "a", "b-c", "server", "", "a/b-c");
    hide SecondMembers;
    JoinsNext(s2 + [Joins("a", "b-c", "server", "")], SecondMembers(), "a", "x", "client", "a-b", "a/x");
  }

  lemma Reported()
    ensures IsRun(EMPTY, Story()) && Exec(EMPTY, Story()) == Colliding()
  {
    Approved();
    KeysAre();
    var r1 := map["c/wg0" := Row("c", "K", [])];
    var r2 := r1["b-c/wg0" := Row("b-c", "L", [])];
    var s0 := Approvals();
    var s1 := s0 + [Reports("c", "K", [])];
    var s2 := s1 + [Reports("b-c", "L", [])];
    assert "c" != "x" && "b-c" != "x" && "c" != "b-c";
    assert Rows() == r2["x/wg0" := Row("x", "", ["K", "L"])];
    hide Exec, IsRun, Approvals, Members, Registered, Names.InterfaceKey, Reports, Rows;
    ReportsNext(s0, map[], "c", "K", []);
    ReportsNext(s1, r1, "b-c", "L", []);
    ReportsNext(s2, r2, "x", "", ["K", "L"]);
  }

  /** The world is reached by a run from the empty store, so it has the integrity of all such states. */
  lemma CollidingIsReached()
    ensures IsRun(EMPTY, Story()) && Exec(EMPTY, Story()) == Colliding() && Sound(Colliding())
  {
    Reported();
    hide Exec, IsRun, Story, Sound, Colliding;
    ReachableIsSound(Story());
  }

  /** The binding the world derives for one of the two servers. */
  function Link(domain: string, server: string, key: string): Binding {
    Rec.Derive(Member(domain, server, "server"), Member(domain, "x", "client"), Row(server, key, []),
               Row("x", "", ["K", "L"]))
  }

  lemma LinkIsDesired(domain: string, server: string, key: string, km: string, kc: string, ks: string)
    requires km in Members() && kc in Members() && ks in Rows() && server in Nodes() && server != "x" && domain != ""
    requires Members()[km] == Member(domain, server, "server") && Members()[kc] == Member(domain, "x", "client")
    requires Rows()[ks] == Row(server, key, []) && key in ["K", "L"] && key != ""
    ensures Link(domain, server, key) in Rec.Desired(Colliding())
  {
    NodesAre();
    RowsAre();
    hide Members, Rows, Nodes;
    Rec.SupportedIsDesired(Colliding(), km, kc, ks, "x/wg0");
  }

  /** In this reachable world two different bindings are desired under one id. */
  lemma TwoDesiredShareAnId()
    ensures IsRun(EMPTY, Story()) && Exec(EMPTY, Story()) == Colliding()
    ensures var d, e := Link("a-b", "c", "K"), Link("a", "b-c", "L");
            d in Rec.Desired(Colliding()) && e in Rec.Desired(Colliding()) && d.id == e.id && d != e
  {
    CollidingIsReached();
    MembersAre();
    RowsAre();
    NodesAre();
    hide Exec, IsRun, Story;
    assert "K" in ["K", "L"] && "L" in ["K", "L"];
    hide Members, Rows, Nodes;
    LinkIsDesired("a-b", "c", "K", "a-b/c", "a-b/x", "c/wg0");
    LinkIsDesired("a", "b-c", "L", "a/b-c", "a/x", "b-c/wg0");
    Names.DashedNamesCollide("wg0", "x", "wg0");
    assert |"a-b"| != |"a"|;
    hide Names.AutoBindingID;
  }

  /** There a pass on the empty table has two outcomes: each order of the loops creates a different binding. */
  lemma CollidingWorldHasTwoOutcomes() returns (o1: seq<Binding>, o2: seq<Binding>)
    ensures Loops.LoopOrder(Colliding(), o1) && Loops.LoopOrder(Colliding(), o2)
    ensures Rec.Reconcile(Colliding(), o1) != Rec.Reconcile(Colliding(), o2)
  {
    var d, e := Link("a-b", "c", "K"), Link("a", "b-c", "L");
    TwoDesiredShareAnId();
    hide Link, Rec.Desired, IsRun, Exec, Story;
    assert !Rec.Inert(Colliding().bindings, d);
    o1, o2 := Loops.CollisionDiverges(Colliding(), d, e);
  }
}
