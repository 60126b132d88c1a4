/** Whom the daemon answers: over whole sequences of requests, which nodes are let in and by which token, and which
    reports of unreachable peers lead to a run of natter. */
module Callers {
  import opened Model
  import opened Runs
  import opened Handlers
  import Names
  import Op = Operations
  import Cooldown
  import Records
  import Requests

  // ---------- Nodes ----------

  predicate IsAdmin(d: Daemon, token: string) {
    d.adminToken == "" || token == d.adminToken
  }

  predicate Removes(d: Daemon, r: Request, k: string) {
    r.AdminDelete? && r.node == k != "" && IsAdmin(d, r.adminToken)
  }

  /** The request introduces a node: it registers, or asks for a domain by one of the domains' join codes. */
  predicate Introduces(d: Daemon, r: Request, k: string) {
    match r
    case AgentRegister(node, name, token, meta, items, now) => node == k != "" && token != ""
    case AgentJoin(code, node, name, token, meta, items, now) =>
      && node == k != "" && token != "" && code != ""
      && exists domain :: domain in d.store.domains && d.store.domains[domain].joinCode == code
    case _ => false
  }

  function TokenAfter(d: Daemon, r: Request, k: string, known: Option<string>): Option<string> {
    if Removes(d, r, k) then None
    else if r.OfflineCreateNode? && r.id == k then Some(r.token)
    else if known.None? && Introduces(d, r, k) then Some(r.token)
    else known
  }

  predicate LetsIn(d: Daemon, r: Request, c: Choices, k: string) {
    (r.OfflineCreateNode? && r.id == k) || (r.AdminApprove? && r.node == k && !Refused(d, r, c))
  }

  /** The token the node was created with last, or introduced itself with first, since it was last deleted. */
  function TokenBy(d: Daemon, calls: seq<Call>, k: string): Option<string> {
    if calls == [] then None
    else
      var init, last := calls[..|calls| - 1], calls[|calls| - 1];
      TokenAfter(ServeAll(d, init), last.r, k, TokenBy(d, init, k))
  }

  /** Since it was last deleted, the node was created or approved by an administrator. */
  predicate LetInBy(d: Daemon, calls: seq<Call>, k: string) {
    calls != [] &&
    var init, last := calls[..|calls| - 1], calls[|calls| - 1];
    var before := ServeAll(d, init);
    !Removes(before, last.r, k) && (LetsIn(before, last.r, last.c, k) || LetInBy(d, init, k))
  }

  predicate NodeIs(s: State, k: string, token: Option<string>, letIn: bool) {
    && (k in s.nodes <==> token.Some?) && (letIn ==> k in s.nodes)
    && (k in s.nodes ==> s.nodes[k].token == token.value && s.nodes[k].approved == letIn)
  }

  /** Requests that change no node record. */
  predicate Bystander(r: Request) {
    !(r.AgentRegister? || r.AgentJoin? || r.AdminApprove? || r.AdminDelete? || r.OfflineCreateNode?)
  }

  lemma NodesStay(d: Daemon, r: Request, newID: nat -> string, t: State)
    requires Bystander(r) && Requests.Does(d, r, newID, t)
    ensures t.nodes == d.store.nodes
  {
    hide Records.Heard, Requests.Reported, Requests.Reconciled, Requests.IsServed, Requests.ListsServed, Requests.AllIn;
    hide Requests.Orders, Requests.DeliveredAt;
  }

  lemma OthersSame(before: map<string, Node>, after: map<string, Node>, k: string)
    ensures forall n :: n != k && after - {n} == before - {n} ==>
              (k in after <==> k in before) && (k in before ==> after[k] == before[k])
  {
    forall n | n != k && after - {n} == before - {n}
      ensures (k in after <==> k in before) && (k in before ==> after[k] == before[k])
    {
      assert k in after <==> k in after - {n};
      assert k in before <==> k in before - {n};
      assert k in before ==> before[k] == (before - {n})[k];
      assert k in after ==> after[k] == (after - {n})[k];
    }
  }

  lemma NodeIntroduced(d: Daemon, r: Request, c: Choices, newID: nat -> string, k: string, token: Option<string>,
                       letIn: bool, t: State)
    requires r.AgentRegister? || r.AgentJoin?
    requires NodeIs(d.store, k, token, letIn) && !Refused(d, r, c) && Requests.Does(d, r, newID, t)
    ensures NodeIs(t, k, TokenAfter(d, r, k, token), letIn)
  {
    hide Records.Heard, Requests.Reported, Requests.Reconciled, TriggersNatter;
    assert Records.Introduced(d.store, r.node, r.name, r.token, t);
    OthersSame(d.store.nodes, t.nodes, k);
  }

  lemma NodeAdministered(d: Daemon, r: Request, c: Choices, newID: nat -> string, k: string, token: Option<string>,
                         letIn: bool, t: State)
    requires r.AdminApprove? || r.AdminDelete? || r.OfflineCreateNode?
    requires NodeIs(d.store, k, token, letIn) && !Refused(d, r, c) && Requests.Does(d, r, newID, t)
    ensures NodeIs(t, k, TokenAfter(d, r, k, token), !Removes(d, r, k) && (LetsIn(d, r, c, k) || letIn))
  {
    hide Requests.Reconciled, Requests.MemberStored, Op.ApproveError, Op.SingleDomain;
    if r.AdminApprove? {
      assert t.nodes - {r.node} == d.store.nodes - {r.node};
    } else if r.AdminDelete? {
      assert t.nodes == d.store.nodes - {r.node};
    }
    OthersSame(d.store.nodes, t.nodes, k);
  }

  lemma NodeAfter(d: Daemon, r: Request, c: Choices, newID: nat -> string, k: string, token: Option<string>,
                  letIn: bool, t: State)
    requires NodeIs(d.store, k, token, letIn) && !Refused(d, r, c) && Requests.Does(d, r, newID, t)
    ensures NodeIs(t, k, TokenAfter(d, r, k, token), !Removes(d, r, k) && (LetsIn(d, r, c, k) || letIn))
  {
    hide Requests.Does, Refused;
    if Bystander(r) {
      NodesStay(d, r, newID, t);
    } else if r.AgentRegister? || r.AgentJoin? {
      hide NodeIs, TokenAfter;
      NodeIntroduced(d, r, c, newID, k, token, letIn, t);
    } else {
      hide NodeIs, TokenAfter, Removes, LetsIn;
      NodeAdministered(d, r, c, newID, k, token, letIn, t);
    }
  }

  lemma RefusedKnows(d: Daemon, r: Request, c: Choices, k: string, token: Option<string>, letIn: bool)
    requires NodeIs(d.store, k, token, letIn) && Refused(d, r, c) && Found(d, r, c)
    ensures NodeIs(d.store, k, TokenAfter(d, r, k, token), !Removes(d, r, k) && (LetsIn(d, r, c, k) || letIn))
  {
    hide Op.ApproveError, Op.SingleDomain;
  }

  /** Whatever was served: a node is known by the token it was let in or introduced itself with, and approved exactly
      when an administrator let it in since it was last deleted. */
  lemma {:induction false} NodesByCalls(adminToken: string, cooldown: int, calls: seq<Call>, k: string)
    requires AllAllowed(Start(adminToken, cooldown), calls)
    ensures var d := Start(adminToken, cooldown);
            NodeIs(ServeAll(d, calls).store, k, TokenBy(d, calls, k), LetInBy(d, calls, k))
  {
    if calls != [] {
      var d, init, last := Start(adminToken, cooldown), calls[..|calls| - 1], calls[|calls| - 1];
      NodesByCalls(adminToken, cooldown, init, k);
      var before := ServeAll(d, init);
      hide Refused, NodeIs, TokenAfter, Removes, LetsIn, Requests.Does, Serve;
      if Refused(before, last.r, last.c) {
        RefusedKnows(before, last.r, last.c, k, TokenBy(d, init, k), LetInBy(d, init, k));
        RefusedChangesNothing(before, last.r, last.c, last.newID);
      } else {
        Requests.RequestsDo(adminToken, cooldown, init, last.r, last.c, last.newID);
        NodeAfter(before, last.r, last.c, last.newID, k, TokenBy(d, init, k), LetInBy(d, init, k),
                  ServeAll(d, calls).store);
      }
    }
  }

  lemma RefusedChangesNothing(d: Daemon, r: Request, c: Choices, newID: nat -> string)
    requires Refused(d, r, c)
    ensures Serve(d, r, c, newID).store == d.store && (!Restarts(r) ==> Serve(d, r, c, newID) == d)
  {
    hide Refused, TriggersNatter;
  }

  // ---------- Refusals ----------

  predicate FromAgent(r: Request) {
    r.AgentPoll? || r.ActionResult? || r.NatterReport? || r.PeerUnreachable?
  }

  /** What a report must say. */
  predicate Sensible(r: Request) {
    && (r.NatterReport? ==>
          && r.protocol == "udp" && r.lease.serverIface != ""
          && r.lease.publicIP != "" && 1 <= r.lease.publicPort <= 65535)
    && (r.PeerUnreachable? ==> r.serverNode != "" && r.serverIface != "")
  }

  /** Polls, results and reports are taken exactly from nodes an administrator let in since they were last deleted, with
      the token they are known by; refused ones change nothing. */
  lemma CallersAreLetIn(adminToken: string, cooldown: int, calls: seq<Call>, r: Request, c: Choices,
                        newID: nat -> string)
    requires AllAllowed(Start(adminToken, cooldown), calls) && FromAgent(r)
    ensures var start := Start(adminToken, cooldown);
            var d := ServeAll(start, calls);
            && (!Refused(d, r, c) <==>
                  && r.node != "" && r.token != "" && TokenBy(start, calls, r.node) == Some(r.token)
                  && LetInBy(start, calls, r.node) && Sensible(r))
            && (Refused(d, r, c) ==> Serve(d, r, c, newID) == d)
  {
    var d := ServeAll(Start(adminToken, cooldown), calls);
    NodesByCalls(adminToken, cooldown, calls, r.node);
    hide ServeAll, AllAllowed, TokenBy, LetInBy, Serve;
    if Refused(d, r, c) {
      RefusedChangesNothing(d, r, c, newID);
    }
  }

  /** No administrator has created or approved the node. */
  predicate NeverLetIn(calls: seq<Call>, k: string) {
    forall i :: 0 <= i < |calls| ==>
      && !(calls[i].r.AdminApprove? && calls[i].r.node == k)
      && !(calls[i].r.OfflineCreateNode? && calls[i].r.id == k)
  }

  lemma {:induction false} NeverIsNot(d: Daemon, calls: seq<Call>, k: string)
    requires NeverLetIn(calls, k)
    ensures !LetInBy(d, calls, k)
  {
    if calls != [] {
      var n := |calls| - 1;
      hide Refused, Removes;
      assert !LetsIn(ServeAll(d, calls[..n]), calls[n].r, calls[n].c, k);
      hide LetsIn;
      NeverIsNot(d, calls[..n], k);
    }
  }

  /** So a node that has only registered or joined, however often, is refused every poll, result and report. */
  lemma NewcomersAreRefused(adminToken: string, cooldown: int, calls: seq<Call>, r: Request, c: Choices,
                            newID: nat -> string)
    requires AllAllowed(Start(adminToken, cooldown), calls) && FromAgent(r) && NeverLetIn(calls, r.node)
    ensures var d := ServeAll(Start(adminToken, cooldown), calls);
            Refused(d, r, c) && Serve(d, r, c, newID) == d
  {
    NeverIsNot(Start(adminToken, cooldown), calls, r.node);
    CallersAreLetIn(adminToken, cooldown, calls, r, c, newID);
    hide *;
  }

  /** A registration is taken from an unknown node, or with the token the node is known by; a join also needs the join
      code of a domain. */
  lemma IntroductionsAreTaken(adminToken: string, cooldown: int, calls: seq<Call>, r: Request, c: Choices)
    requires AllAllowed(Start(adminToken, cooldown), calls) && (r.AgentRegister? || r.AgentJoin?)
    requires Found(ServeAll(Start(adminToken, cooldown), calls), r, c)
    ensures var start := Start(adminToken, cooldown);
            var d := ServeAll(start, calls);
            !Refused(d, r, c) <==>
              Introduces(d, r, r.node) && TokenBy(start, calls, r.node) in {None, Some(r.token)}
  {
    NodesByCalls(adminToken, cooldown, calls, r.node);
    hide ServeAll, AllAllowed, TokenBy, LetInBy;
  }

  /** Administration needs the administrator's token, if there is one, and is otherwise taken when it names a new
      domain, a known node, or a server interface; an approval must also leave a membership with role and interface in
      an existing domain. */
  lemma AdministrationIsTaken(d: Daemon, r: Request, c: Choices)
    requires r.AdminCreateDomain? || r.AdminApprove? || r.AdminDelete? || r.AdminRunNatter?
    ensures !Refused(d, r, c) <==>
              && IsAdmin(d, r.adminToken)
              && (r.AdminCreateDomain? ==> r.id != "" && r.id !in d.store.domains)
              && (r.AdminDelete? ==> r.node != "" && r.node in d.store.nodes)
              && (r.AdminRunNatter? ==> r.serverNode != "" && r.serverIface != "")
              && (r.AdminApprove? ==>
                    var s, a := d.store, r.approval;
                    var domain := Records.DomainOf(s, r.node, a, c.single);
                    && r.node != "" && r.node in s.nodes && domain != "" && domain in s.domains
                    && Records.Given(a.role, Records.Known(s, domain, r.node).role) != ""
                    && Records.Given(a.iface, Records.Known(s, domain, r.node).iface) != "")
  {
    if r.AdminApprove? {
      Records.ApprovalRefusedIff(d.store, r.node, r.approval, c.single);
    }
    hide Op.ApproveError, Records.DomainOf, Records.Given, Records.Known;
  }

  // ---------- Unreachable reports ----------

  predicate IsAbout(r: Request, serverNode: string, serverIface: string) {
    r.PeerUnreachable? && r.serverNode == serverNode && r.serverIface == serverIface
  }

  /** The times of the reports about a server interface that queued something since the daemon was last started. */
  function RunsOf(d: Daemon, calls: seq<Call>, serverNode: string, serverIface: string): seq<int> {
    if calls == [] then []
    else
      var init, last := calls[..|calls| - 1], calls[|calls| - 1];
      if Restarts(last.r) then []
      else
        RunsOf(d, init, serverNode, serverIface) +
        if IsAbout(last.r, serverNode, serverIface) && ServeAll(d, calls).store != ServeAll(d, init).store
        then [last.r.clock] else []
  }

  predicate Slashless(r: Request) {
    r.PeerUnreachable? ==> '/' !in r.serverNode
  }

  predicate AllSlashless(calls: seq<Call>) {
    forall i :: 0 <= i < |calls| ==> Slashless(calls[i].r)
  }

  lemma AboutIff(r: Request, serverNode: string, serverIface: string)
    requires r.PeerUnreachable? && Slashless(r) && '/' !in serverNode
    ensures Cooldown.Key(r.serverNode, r.serverIface) == Cooldown.Key(serverNode, serverIface) <==>
            IsAbout(r, serverNode, serverIface)
  {
    if Cooldown.Key(r.serverNode, r.serverIface) == Cooldown.Key(serverNode, serverIface) {
      Names.SlashSeparates(r.serverNode, r.serverIface, serverNode, serverIface);
    }
  }

  lemma ReportQueues(d: Daemon, r: Request, c: Choices, newID: nat -> string)
    requires r.PeerUnreachable?
    ensures var t := Serve(d, r, c, newID).store;
            if !Refused(d, r, c) && TriggersNatter(d, r)
            then t != d.store && Requests.NatterQueued(d.store, r.serverNode, r.serverIface, newID(0), r.now, t)
            else t == d.store
  {
    hide Refused, TriggersNatter;
    OneStep(d.store, RunNatter(r.serverNode, NatterRun(newID(0), r.serverIface), r.now));
    Requests.Queues(d.store, r.serverNode, NatterRun(newID(0), r.serverIface), r.now);
    hide Op.Queue, Op.QueueOf;
  }

  lemma {:induction false} RunsAreAccepted(adminToken: string, cooldown: int, calls: seq<Call>, serverNode: string,
                                           serverIface: string)
    requires AllSlashless(calls) && '/' !in serverNode
    ensures var d := Start(adminToken, cooldown);
            RunsOf(d, calls, serverNode, serverIface) ==
            Cooldown.Accepted(cooldown, AttemptsOf(d, calls), Cooldown.Key(serverNode, serverIface))
  {
    if calls != [] {
      var d, init, last := Start(adminToken, cooldown), calls[..|calls| - 1], calls[|calls| - 1];
      assert AllSlashless(init) && Slashless(last.r);
      RunsAreAccepted(adminToken, cooldown, init, serverNode, serverIface);
      LastRunsAreAccepted(adminToken, cooldown, init);
      hide Refused, Serve, Slashless, AllSlashless, Requests.NatterQueued;
      if last.r.PeerUnreachable? {
        ReportQueues(ServeAll(d, init), last.r, last.c, last.newID);
        AboutIff(last.r, serverNode, serverIface);
        var a := Cooldown.Attempt(Cooldown.Key(last.r.serverNode, last.r.serverIface), last.r.clock);
        assert (AttemptsOf(d, init) + [a])[..|AttemptsOf(d, init)|] == AttemptsOf(d, init);
        hide Cooldown.Key, Cooldown.Allowed, Cooldown.Table;
      }
    }
  }

  /** Where server nodes have no slash: an accepted report queues a natter.run for its server interface, on the server
      node, exactly when it is at least a cooldown later than every report about that interface since the start that
      did; otherwise it changes nothing. */
  lemma ReportsQueueIff(adminToken: string, cooldown: int, calls: seq<Call>, r: Request, c: Choices,
                        newID: nat -> string)
    requires cooldown > 0 && r.PeerUnreachable? && Slashless(r) && AllSlashless(calls)
    ensures var start := Start(adminToken, cooldown);
            var d := ServeAll(start, calls);
            var runs, t := RunsOf(start, calls, r.serverNode, r.serverIface), Serve(d, r, c, newID).store;
            if !Refused(d, r, c) && forall i :: 0 <= i < |runs| ==> r.clock - runs[i] >= cooldown
            then t != d.store && Requests.NatterQueued(d.store, r.serverNode, r.serverIface, newID(0), r.now, t)
            else t == d.store
  {
    var start := Start(adminToken, cooldown);
    var key := Cooldown.Key(r.serverNode, r.serverIface);
    RunsAreAccepted(adminToken, cooldown, calls, r.serverNode, r.serverIface);
    LastRunsAreAccepted(adminToken, cooldown, calls);
    ReportQueues(ServeAll(start, calls), r, c, newID);
    hide ServeAll, Refused, Serve, AttemptsOf, Requests.NatterQueued;
    hide Cooldown.Allowed, Cooldown.Table, Cooldown.Accepted;
    Cooldown.AllowedIff(cooldown, AttemptsOf(start, calls), Cooldown.Attempt(key, r.clock));
  }
}
