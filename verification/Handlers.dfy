/** The daemon's request handlers, each as the sequence of store operations it performs. */
module Handlers {
  import opened Model
  import opened Runs
  import Op = Operations
  import Rec = Reconciler
  import Conv = Convergence
  import Cooldown
  import Boundaries
  import ByHand
  import SafeNames
  import Disk = Persistence

  /** Decoded requests. `AgentFetch` is one round of a poll's wait for a command; the last three are not sent
      to the daemon: a restart, and the command line's work on the stopped daemon's files. */
  datatype Request =
    | AgentRegister(node: string, name: string, token: string, meta: Option<Op.Meta>, items: seq<WGInterface>,
                    now: string)
    | AgentJoin(joinCode: string, node: string, name: string, token: string, meta: Option<Op.Meta>,
                items: seq<WGInterface>, now: string)
    | AgentPoll(node: string, token: string, meta: Option<Op.Meta>, items: seq<WGInterface>, now: string)
    | AgentFetch(node: string)
    | ActionResult(node: string, token: string, commandID: string, result: string)
    | NatterReport(node: string, token: string, protocol: string, lease: Lease, now: string)
    | PeerUnreachable(node: string, token: string, serverNode: string, serverIface: string, clock: int, now: string)
    | AdminCreateDomain(adminToken: string, id: string, name: string, joinCode: string, description: string,
                        now: string)
    | AdminApprove(adminToken: string, node: string, approval: Op.Approval, now: string)
    | AdminDelete(adminToken: string, node: string)
    | AdminRunNatter(adminToken: string, serverNode: string, serverIface: string, now: string)
    | Restart
    | OfflineCreateNode(id: string, name: string, token: string)
    | OfflineAddBinding(flags: Op.BindingFlags, now: string)

  /** What iteration orders decide: the order of the desired bindings, which domain of several with the same
      join code is found, the only domain found for a node, and the order of the bindings of a lease. */
  datatype Choices = Choices(order: seq<Binding>, domain: string, single: string, matched: seq<Binding>)

  datatype Daemon = Daemon(store: State, lastRun: map<string, int>, adminToken: string, cooldown: int)

  predicate AgentKnown(s: State, node: string, token: string) {
    node != "" && token != "" && node in s.nodes && s.nodes[node].token == token && s.nodes[node].approved
  }

  predicate AdminKnown(d: Daemon, token: string) {
    d.adminToken == "" || d.adminToken == token
  }

  /** A lease is accepted only as a udp endpoint with a port number. */
  predicate LeaseOk(protocol: string, lease: Lease) {
    protocol == "udp" && 1 <= lease.publicPort <= 65535 && lease.serverIface != "" && lease.publicIP != ""
  }

  predicate CodeKnown(s: State, joinCode: string) {
    exists k :: k in s.domains && s.domains[k].joinCode == joinCode
  }

  /** The requests answered with an error. */
  predicate Refused(d: Daemon, r: Request, c: Choices) {
    match r
    case AgentRegister(node, name, token, meta, items, now) => Op.IdentityError(d.store, node, token).Some?
    case AgentJoin(joinCode, node, name, token, meta, items, now) =>
      node == "" || token == "" || joinCode == "" || !CodeKnown(d.store, joinCode)
      || Op.JoinError(d.store, c.domain, node, token).Some?
    case AgentPoll(node, token, meta, items, now) => !AgentKnown(d.store, node, token)
    case AgentFetch(node) => false
    case ActionResult(node, token, commandID, result) => !AgentKnown(d.store, node, token)
    case NatterReport(node, token, protocol, lease, now) =>
      !AgentKnown(d.store, node, token) || !LeaseOk(protocol, lease)
    case PeerUnreachable(node, token, serverNode, serverIface, clock, now) =>
      !AgentKnown(d.store, node, token) || serverNode == "" || serverIface == ""
    case AdminCreateDomain(adminToken, id, name, joinCode, description, now) =>
      !AdminKnown(d, adminToken) || Op.CreateDomainError(d.store, id).Some?
    case AdminApprove(adminToken, node, approval, now) =>
      !AdminKnown(d, adminToken) || node == "" || Op.ApproveError(d.store, node, approval, c.single).Some?
    case AdminDelete(adminToken, node) => !AdminKnown(d, adminToken) || node == "" || node !in d.store.nodes
    case AdminRunNatter(adminToken, serverNode, serverIface, now) =>
      !AdminKnown(d, adminToken) || serverNode == "" || serverIface == ""
    case Restart => false
    case OfflineCreateNode(id, name, token) => false
    case OfflineAddBinding(flags, now) => flags.id == "" || flags.serverNode == "" || flags.clientNode == ""
  }

  predicate TriggersNatter(d: Daemon, r: Request) {
    && r.PeerUnreachable?
    && Cooldown.Allowed(d.lastRun, d.cooldown, Cooldown.Attempt(Cooldown.Key(r.serverNode, r.serverIface), r.clock))
  }

  /** One endpoint.apply per binding, under ids drawn from `newID` in turn. */
  function Tells(node: string, matched: seq<Binding>, lease: Lease,
                 newID: nat -> string, now: string): (steps: seq<Step>)
    ensures |steps| == |matched|
  {
    if matched == [] then []
    else
      var n := |matched| - 1;
      Tells(node, matched[..n], lease, newID, now) + [Tell(node, matched[n], lease, newID(n), now)]
  }

  function Script(d: Daemon, r: Request, c: Choices, newID: nat -> string): seq<Step> {
    if Refused(d, r, c) then []
    else
      match r
      case AgentRegister(node, name, token, meta, items, now) =>
        [Register(node, name, token, meta, now), Inventory(node, items, now)]
      case AgentJoin(joinCode, node, name, token, meta, items, now) =>
        [Join(c.domain, node, name, token, meta, now), Inventory(node, items, now), Reconcile(c.order)]
      case AgentPoll(node, token, meta, items, now) =>
        [MarkSeen(node, meta, now), Inventory(node, items, now), Reconcile(c.order)]
      case AgentFetch(node) => [Next(node)]
      case ActionResult(node, token, commandID, result) => [Complete(node, commandID, result)]
      case NatterReport(node, token, protocol, lease, now) =>
        [SaveLease(node, lease, c.matched, now)] + Tells(node, c.matched, lease, newID, now)
      case PeerUnreachable(node, token, serverNode, serverIface, clock, now) =>
        if TriggersNatter(d, r) then [RunNatter(serverNode, NatterRun(newID(0), serverIface), now)] else []
      case AdminCreateDomain(adminToken, id, name, joinCode, description, now) =>
        [CreateDomain(id, name, joinCode, description, now)]
      case AdminApprove(adminToken, node, approval, now) => [Approve(node, approval, c.single, now), Reconcile(c.order)]
      case AdminDelete(adminToken, node) => [Delete(node), Reconcile(c.order)]
      case AdminRunNatter(adminToken, serverNode, serverIface, now) =>
        [RunNatter(serverNode, NatterRun(newID(0), serverIface), now)]
      case Restart => []
      case OfflineCreateNode(id, name, token) => [CreateNode(id, name, token)]
      case OfflineAddBinding(flags, now) => [AddBinding(Op.FromFlags(flags), now)]
  }

  /** The domain found for a join code, and the only domain found for a node. */
  ghost predicate Found(d: Daemon, r: Request, c: Choices) {
    && (r.AdminApprove? && AdminKnown(d, r.adminToken) && r.node != "" ==> Op.SingleDomain(d.store, r.node, c.single))
    && (r.AgentJoin? && r.node != "" && r.token != "" && r.joinCode != "" && CodeKnown(d.store, r.joinCode) ==>
          c.domain in d.store.domains && d.store.domains[c.domain].joinCode == r.joinCode)
  }

  /** The choices are ones the program can make. */
  ghost predicate Allows(d: Daemon, r: Request, c: Choices, newID: nat -> string) {
    Found(d, r, c) && IsRun(d.store, Script(d, r, c, newID))
  }

  /** The daemon is stopped and started again. */
  predicate Restarts(r: Request) {
    r.Restart? || r.OfflineCreateNode? || r.OfflineAddBinding?
  }

  /** The times of the last runs are in memory only: a daemon starts without any. */
  function LastRun(d: Daemon, r: Request, c: Choices): map<string, int> {
    if Restarts(r) then map[]
    else if !Refused(d, r, c) && TriggersNatter(d, r)
    then d.lastRun[Cooldown.Key(r.serverNode, r.serverIface) := r.clock]
    else d.lastRun
  }

  function Serve(d: Daemon, r: Request, c: Choices, newID: nat -> string): Daemon {
    d.(store := Exec(d.store, Script(d, r, c, newID)), lastRun := LastRun(d, r, c))
  }

  // ---------- Handlers one after another ----------

  datatype Call = Call(r: Request, c: Choices, newID: nat -> string)

  function Start(adminToken: string, cooldown: int): Daemon {
    Daemon(EMPTY, map[], adminToken, cooldown)
  }

  function ServeAll(d: Daemon, calls: seq<Call>): Daemon {
    if calls == [] then d
    else
      var last := calls[|calls| - 1];
      Serve(ServeAll(d, calls[..|calls| - 1]), last.r, last.c, last.newID)
  }

  ghost predicate AllAllowed(d: Daemon, calls: seq<Call>) {
    calls != [] ==>
      var init, last := calls[..|calls| - 1], calls[|calls| - 1];
      AllAllowed(d, init) && Allows(ServeAll(d, init), last.r, last.c, last.newID)
  }

  /** The store operations behind a sequence of calls. */
  function StepsOf(d: Daemon, calls: seq<Call>): seq<Step> {
    if calls == [] then []
    else
      var init, last := calls[..|calls| - 1], calls[|calls| - 1];
      StepsOf(d, init) + Script(ServeAll(d, init), last.r, last.c, last.newID)
  }

  /** Serving calls one after another is a run of their store operations. */
  lemma {:induction false} ServedIsRun(d: Daemon, calls: seq<Call>)
    requires d.store == EMPTY && AllAllowed(d, calls)
    ensures IsRun(EMPTY, StepsOf(d, calls)) && ServeAll(d, calls).store == Exec(EMPTY, StepsOf(d, calls))
  {
    if calls != [] {
      var init, last := calls[..|calls| - 1], calls[|calls| - 1];
      ServedIsRun(d, init);
      hide Script, Do, Possible;
      ExecConcat(EMPTY, StepsOf(d, init), Script(ServeAll(d, init), last.r, last.c, last.newID));
    }
  }

  function AttemptsAfter(d: Daemon, r: Request, c: Choices, attempts: seq<Cooldown.Attempt>): seq<Cooldown.Attempt> {
    if Restarts(r) then []
    else if r.PeerUnreachable? && !Refused(d, r, c)
    then attempts + [Cooldown.Attempt(Cooldown.Key(r.serverNode, r.serverIface), r.clock)]
    else attempts
  }

  /** The unreachable reports that got as far as the cooldown since the daemon was last started, in lock order. */
  function AttemptsOf(d: Daemon, calls: seq<Call>): seq<Cooldown.Attempt> {
    if calls == [] then []
    else
      var init, last := calls[..|calls| - 1], calls[|calls| - 1];
      AttemptsAfter(ServeAll(d, init), last.r, last.c, AttemptsOf(d, init))
  }

  lemma RunsNoted(d: Daemon, r: Request, c: Choices, newID: nat -> string, attempts: seq<Cooldown.Attempt>)
    requires d.lastRun == Cooldown.Table(d.cooldown, attempts)
    ensures var t := Serve(d, r, c, newID);
            && t.lastRun == Cooldown.Table(d.cooldown, AttemptsAfter(d, r, c, attempts))
            && t.cooldown == d.cooldown && t.adminToken == d.adminToken
  {
    hide Exec, Script, Refused, Cooldown.Allowed, Cooldown.Key;
    if r.PeerUnreachable? {
      var a := Cooldown.Attempt(Cooldown.Key(r.serverNode, r.serverIface), r.clock);
      assert (attempts + [a])[..|attempts|] == attempts;
    }
  }

  /** The daemon's table of last runs is the one the cooldown's guarantees are about, for the attempts since
      it was last started. */
  lemma {:induction false} LastRunsAreAccepted(adminToken: string, cooldown: int, calls: seq<Call>)
    ensures var d := Start(adminToken, cooldown);
            && ServeAll(d, calls).lastRun == Cooldown.Table(cooldown, AttemptsOf(d, calls))
            && ServeAll(d, calls).cooldown == cooldown && ServeAll(d, calls).adminToken == adminToken
  {
    if calls != [] {
      var d, init, last := Start(adminToken, cooldown), calls[..|calls| - 1], calls[|calls| - 1];
      LastRunsAreAccepted(adminToken, cooldown, init);
      hide Serve, AttemptsAfter, Cooldown.Table;
      RunsNoted(ServeAll(d, init), last.r, last.c, last.newID, AttemptsOf(d, init));
    }
  }

  /** So during one life of the daemon, a report queues a natter.run exactly when it is at least a cooldown
      later than every report since the start that did. */
  lemma QueuesNatterIff(adminToken: string, cooldown: int, calls: seq<Call>, r: Request, c: Choices,
                        newID: nat -> string)
    requires cooldown > 0 && r.PeerUnreachable?
    ensures var d := Start(adminToken, cooldown);
            var now := ServeAll(d, calls);
            var key := Cooldown.Key(r.serverNode, r.serverIface);
            Script(now, r, c, newID) != [] <==>
            !Refused(now, r, c) &&
            Cooldown.Clears(Cooldown.Accepted(cooldown, AttemptsOf(d, calls), key), cooldown, r.clock)
  {
    var d := Start(adminToken, cooldown);
    var key := Cooldown.Key(r.serverNode, r.serverIface);
    LastRunsAreAccepted(adminToken, cooldown, calls);
    hide Refused, ServeAll, AttemptsOf, Cooldown.Table, Cooldown.Accepted, Cooldown.Clears;
    Cooldown.AllowedIff(cooldown, AttemptsOf(d, calls), Cooldown.Attempt(key, r.clock));
  }

  lemma RestartEffect(d: Daemon, c: Choices, newID: nat -> string)
    ensures Serve(d, Restart, c, newID) == d.(lastRun := map[])
  {
  }

  /** A restart keeps what is stored, reopened from the two files, and forgets every last run: the next report
      about any server interface queues a natter.run, however recent the last one. */
  lemma RestartForgetsCooldown(adminToken: string, cooldown: int, calls: seq<Call>, c: Choices, newID: nat -> string,
                               now: string, t: State, r: Request)
    requires AllAllowed(Start(adminToken, cooldown), calls) && r.PeerUnreachable?
    requires var s := ServeAll(Start(adminToken, cooldown), calls).store;
             Disk.Opened(Disk.SavedData(s), Disk.SavedRuntime(s), now, t)
    ensures var d := Serve(ServeAll(Start(adminToken, cooldown), calls), Restart, c, newID);
            d.store == t && TriggersNatter(d, r)
  {
    var d := Start(adminToken, cooldown);
    ServedIsRun(d, calls);
    RestartEffect(ServeAll(d, calls), c, newID);
    hide ServeAll, StepsOf, Disk.Opened, Disk.SavedData, Disk.SavedRuntime, IsRun, Exec, Serve;
    Boundaries.RestartResumes(StepsOf(d, calls), now, t);
  }

  // ---------- Handlers settle what they change ----------

  lemma {:induction false} SettledConcat(a: seq<Step>, b: seq<Step>)
    requires Boundaries.Settled(a) && Boundaries.Settled(b)
    ensures Boundaries.Settled(a + b)
  {
    if b == [] {
      assert a + b == a;
    } else {
      assert (a + b)[..|a + b| - 1] == a + b[..|b| - 1];
      if !b[|b| - 1].Reconcile? {
        SettledConcat(a, b[..|b| - 1]);
      }
    }
  }

  lemma {:induction false} TellsSettled(node: string, lease: Lease, matched: seq<Binding>,
                                        newID: nat -> string, now: string)
    ensures Boundaries.Settled([SaveLease(node, lease, matched, now)] + Tells(node, matched, lease, newID, now))
  {
    SettledOne(SaveLease(node, lease, matched, now));
    TellsAloneSettled(node, lease, matched, newID, now);
    SettledConcat([SaveLease(node, lease, matched, now)], Tells(node, matched, lease, newID, now));
  }

  lemma {:induction false} TellsAloneSettled(node: string, lease: Lease, matched: seq<Binding>,
                                             newID: nat -> string, now: string)
    ensures Boundaries.Settled(Tells(node, matched, lease, newID, now))
  {
    if matched != [] {
      var n := |matched| - 1;
      TellsAloneSettled(node, lease, matched[..n], newID, now);
      var steps := Tells(node, matched, lease, newID, now);
      assert steps[..|steps| - 1] == Tells(node, matched[..n], lease, newID, now);
    }
  }

  lemma SettledOne(step: Step)
    requires !step.Approve? && !step.Delete?
    ensures Boundaries.Settled([step])
  {
    assert [step][..0] == [];
  }

  lemma SettledTwo(a: Step, b: Step)
    requires b.Reconcile? || (!a.Approve? && !a.Delete? && !b.Approve? && !b.Delete?)
    ensures Boundaries.Settled([a, b])
  {
    assert [a, b][..1] == [a];
    if !b.Reconcile? {
      SettledOne(a);
    }
  }

  lemma ScriptIsSettled(d: Daemon, r: Request, c: Choices, newID: nat -> string)
    ensures Boundaries.Settled(Script(d, r, c, newID))
  {
    hide Refused, TriggersNatter;
    if !Refused(d, r, c) {
      match r
      case AgentRegister(node, name, token, meta, items, now) =>
        SettledTwo(Register(node, name, token, meta, now), Inventory(node, items, now));
      case NatterReport(node, token, protocol, lease, now) => TellsSettled(node, lease, c.matched, newID, now);
      case AdminApprove(adminToken, node, approval, now) =>
        SettledTwo(Approve(node, approval, c.single, now), Reconcile(c.order));
      case AdminDelete(adminToken, node) => SettledTwo(Delete(node), Reconcile(c.order));
      case AgentFetch(node) => SettledOne(Next(node));
      case ActionResult(node, token, commandID, result) => SettledOne(Complete(node, commandID, result));
      case PeerUnreachable(node, token, serverNode, serverIface, clock, now) =>
        SettledOne(RunNatter(serverNode, NatterRun(newID(0), serverIface), now));
      case AdminRunNatter(adminToken, serverNode, serverIface, now) =>
        SettledOne(RunNatter(serverNode, NatterRun(newID(0), serverIface), now));
      case AdminCreateDomain(adminToken, id, name, joinCode, description, now) =>
        SettledOne(CreateDomain(id, name, joinCode, description, now));
      case OfflineCreateNode(id, name, token) => SettledOne(CreateNode(id, name, token));
      case OfflineAddBinding(flags, now) => SettledOne(AddBinding(Op.FromFlags(flags), now));
      case _ =>
    }
  }

  lemma {:induction false} CallsAreSettled(d: Daemon, calls: seq<Call>)
    ensures Boundaries.Settled(StepsOf(d, calls))
  {
    if calls != [] {
      var init, last := calls[..|calls| - 1], calls[|calls| - 1];
      CallsAreSettled(d, init);
      hide Script, Boundaries.Settled;
      ScriptIsSettled(ServeAll(d, init), last.r, last.c, last.newID);
      SettledConcat(StepsOf(d, init), Script(ServeAll(d, init), last.r, last.c, last.newID));
    }
  }

  /** Between requests, whatever was served before: referential integrity holds, and every automatic binding
      agrees with the memberships. */
  lemma HandlerBoundaries(adminToken: string, cooldown: int, calls: seq<Call>)
    requires AllAllowed(Start(adminToken, cooldown), calls)
    ensures var s := ServeAll(Start(adminToken, cooldown), calls).store;
            Sound(s) && Boundaries.AutoMatches(s)
  {
    var d := Start(adminToken, cooldown);
    ServedIsRun(d, calls);
    CallsAreSettled(d, calls);
    ReachableIsSound(StepsOf(d, calls));
    Boundaries.SettledRunsMatch(StepsOf(d, calls));
  }

  // ---------- Bindings added by hand ----------

  lemma {:induction false} TellsAddNothing(node: string, matched: seq<Binding>, lease: Lease,
                                           newID: nat -> string, now: string)
    ensures forall i :: 0 <= i < |matched| ==> Tells(node, matched, lease, newID, now)[i].Tell?
  {
    if matched != [] {
      TellsAddNothing(node, matched[..|matched| - 1], lease, newID, now);
    }
  }

  lemma ScriptIsManual(d: Daemon, r: Request, c: Choices, newID: nat -> string)
    ensures ByHand.ManualSteps(Script(d, r, c, newID))
  {
    hide Refused, TriggersNatter;
    if r.NatterReport? {
      TellsAddNothing(r.node, c.matched, r.lease, newID, r.now);
    }
  }

  /** The command line adds bindings of no domain and without the automatic mark. */
  lemma {:induction false} CallsAreManual(d: Daemon, calls: seq<Call>)
    ensures ByHand.ManualSteps(StepsOf(d, calls))
  {
    if calls != [] {
      var init, last := calls[..|calls| - 1], calls[|calls| - 1];
      CallsAreManual(d, init);
      hide Script, ByHand.ManualStep;
      ScriptIsManual(ServeAll(d, init), last.r, last.c, last.newID);
    }
  }

  /** The requests that end in a pass when they are accepted. */
  predicate Passes(r: Request) {
    r.AgentJoin? || r.AgentPoll? || r.AdminApprove? || r.AdminDelete?
  }

  /** Every desired binding has an entry under its id: a desired binding of that id, or one added by hand. */
  ghost predicate DesiredArePresent(t: State) {
    forall d :: d in Rec.Desired(t) ==> d.id in t.bindings && (t.bindings[d.id].auto ==> Reflects(t, d.id))
  }

  ghost predicate Reflects(t: State, k: string) {
    k in t.bindings && exists e :: e in Rec.Desired(t) && e.id == k && Rec.BindingsEqual(t.bindings[k], e)
  }

  lemma CompletedIsPresent(s: State, order: seq<Binding>)
    requires ByHand.Complete(s, Rec.Reconcile(s, order))
    ensures DesiredArePresent(Rec.Reconcile(s, order))
  {
    var t := Rec.Reconcile(s, order);
    assert Rec.WorldOf(t) == Rec.WorldOf(s);
    assert Rec.Desired(t) == Rec.Desired(s);
    hide Rec.Reconcile, Rec.Desired, Rec.BindingsEqual, Rec.WorldOf;
    forall d | d in Rec.Desired(t) ensures d.id in t.bindings && (t.bindings[d.id].auto ==> Reflects(t, d.id)) {
      assert ByHand.Holds(s, t, d.id);
      if t.bindings[d.id].auto {
        var e :| ByHand.Stands(s, t, d.id, e);
      }
    }
  }

  lemma ScriptEndsInPass(d: Daemon, r: Request, c: Choices, newID: nat -> string)
    requires Passes(r) && !Refused(d, r, c)
    ensures var steps := Script(d, r, c, newID);
            steps != [] && steps[|steps| - 1] == Reconcile(c.order)
  {
    hide Refused, TriggersNatter;
  }

  lemma ManualConcat(a: seq<Step>, b: seq<Step>, n: nat)
    requires ByHand.ManualSteps(a) && ByHand.ManualSteps(b) && n <= |b|
    ensures ByHand.ManualSteps(a + b[..n])
  {
    hide ByHand.ManualStep;
  }

  lemma PassCompletes(steps: seq<Step>, script: seq<Step>, order: seq<Binding>)
    requires IsRun(EMPTY, steps) && IsRun(Exec(EMPTY, steps), script)
    requires ByHand.ManualSteps(steps) && ByHand.ManualSteps(script)
    requires script != [] && script[|script| - 1] == Reconcile(order)
    ensures DesiredArePresent(Exec(Exec(EMPTY, steps), script))
  {
    var n := |script| - 1;
    ManualConcat(steps, script, n);
    hide DesiredArePresent, ByHand.Complete, ByHand.ManualSteps, Rec.Reconcile, Rec.Enumerates;
    ExecConcat(EMPTY, steps, script[..n]);
    ByHand.RunsComplete(steps + script[..n], order);
    CompletedIsPresent(Exec(EMPTY, steps + script[..n]), order);
  }

  /** After every accepted join, poll, approval or deletion, whatever was served before, no desired binding is
      missing. */
  lemma PassesLeaveNoneMissing(adminToken: string, cooldown: int, calls: seq<Call>, r: Request, c: Choices,
                               newID: nat -> string)
    requires var d := Start(adminToken, cooldown);
             && AllAllowed(d, calls) && Allows(ServeAll(d, calls), r, c, newID)
             && Passes(r) && !Refused(ServeAll(d, calls), r, c)
    ensures var d := ServeAll(Start(adminToken, cooldown), calls);
            DesiredArePresent(Serve(d, r, c, newID).store)
  {
    var start := Start(adminToken, cooldown);
    var d, steps := ServeAll(start, calls), StepsOf(start, calls);
    ServedIsRun(start, calls);
    CallsAreManual(start, calls);
    ScriptIsManual(d, r, c, newID);
    ScriptEndsInPass(d, r, c, newID);
    hide Script, StepsOf, ServeAll, AllAllowed, Refused, DesiredArePresent, ByHand.ManualSteps, Found, IsRun, Exec;
    PassCompletes(steps, Script(d, r, c, newID), c.order);
  }

  /** The call neither adds `b`'s id again nor deletes one of its nodes. */
  predicate Spares(r: Request, b: Binding) {
    && (r.OfflineAddBinding? ==> r.flags.id != b.id)
    && (r.AdminDelete? ==> !Op.Touches(b, r.node))
  }

  lemma ScriptSpares(d: Daemon, r: Request, c: Choices, newID: nat -> string, b: Binding)
    requires Spares(r, b)
    ensures ByHand.AllLeave(Script(d, r, c, newID), b)
  {
    hide Refused, TriggersNatter, Op.Touches;
    if r.NatterReport? {
      TellsAddNothing(r.node, c.matched, r.lease, newID, r.now);
    }
  }

  predicate AllSpare(calls: seq<Call>, b: Binding) {
    forall i :: 0 <= i < |calls| ==> Spares(calls[i].r, b)
  }

  lemma CallKeepsManual(d: Daemon, r: Request, c: Choices, newID: nat -> string, k: string)
    requires Sound(d.store) && Allows(d, r, c, newID)
    requires k in d.store.bindings && ByHand.Manual(d.store.bindings[k]) && Spares(r, d.store.bindings[k])
    ensures Sound(Serve(d, r, c, newID).store) && ByHand.Keeps(d.store, Serve(d, r, c, newID).store, k)
  {
    ScriptSpares(d, r, c, newID, d.store.bindings[k]);
    hide Script, Sound, Found, ByHand.Manual, ByHand.AllLeave, Spares, ByHand.Keeps, IsRun, Exec;
    ByHand.RunKeepsManual(d.store, Script(d, r, c, newID), k);
  }

  lemma {:induction false} CallsKeepManual(d: Daemon, calls: seq<Call>, k: string)
    requires Sound(d.store) && AllAllowed(d, calls)
    requires k in d.store.bindings && ByHand.Manual(d.store.bindings[k]) && AllSpare(calls, d.store.bindings[k])
    ensures Sound(ServeAll(d, calls).store) && ByHand.Keeps(d.store, ServeAll(d, calls).store, k)
  {
    if calls != [] {
      var init, last := calls[..|calls| - 1], calls[|calls| - 1];
      assert AllSpare(init, d.store.bindings[k]) by {
        assert forall i :: 0 <= i < |init| ==> init[i] == calls[i];
      }
      assert Spares(last.r, d.store.bindings[k]);
      hide Serve, Allows, Sound, Spares;
      CallsKeepManual(d, init, k);
      CallKeepsManual(ServeAll(d, init), last.r, last.c, last.newID, k);
    }
  }

  lemma AddServed(d: Daemon, flags: Op.BindingFlags, t: string, c: Choices, newID: nat -> string)
    requires Sound(d.store) && !Refused(d, OfflineAddBinding(flags, t), c)
    ensures var s, b := Serve(d, OfflineAddBinding(flags, t), c, newID).store, Op.FromFlags(flags);
            Sound(s) && b.id in s.bindings && s.bindings[b.id] == ByHand.Stored(b) && ByHand.Manual(s.bindings[b.id])
  {
    var b := Op.FromFlags(flags);
    var add := AddBinding(b, t);
    assert Script(d, OfflineAddBinding(flags, t), c, newID) == [add];
    assert [add][..0] == [];
    assert Exec(d.store, [add]) == Do(d.store, add);
    assert Serve(d, OfflineAddBinding(flags, t), c, newID).store == Op.AddBinding(d.store, b, t);
    hide Serve, Sound;
    SoundAddBinding(d.store, b, t);
  }

  lemma StoredIsSpared(calls: seq<Call>, b: Binding)
    requires AllSpare(calls, b)
    ensures AllSpare(calls, ByHand.Stored(b))
  {
  }

  lemma FlagsStored(f: Op.BindingFlags)
    ensures ByHand.Stored(Op.FromFlags(f)) ==
            Binding(f.id, "", false, f.serverNode, f.serverIface, f.clientNode, f.clientIface, f.peerKey,
                    if f.configType != "" then f.configType else "openwrt_uci", f.configPath,
                    if f.reloadMethod != "" then f.reloadMethod else "none", "", 0, true)
  {
  }

  /** A binding added by hand stays as it was added through all later calls, reports, passes and restarts, until
      its id is added again or one of its nodes is deleted. */
  lemma AddedByHandStays(adminToken: string, cooldown: int, calls: seq<Call>, flags: Op.BindingFlags, t: string,
                         c: Choices, newID: nat -> string, later: seq<Call>)
    requires var d := ServeAll(Start(adminToken, cooldown), calls);
             var added := Serve(d, OfflineAddBinding(flags, t), c, newID);
             && AllAllowed(Start(adminToken, cooldown), calls) && !Refused(d, OfflineAddBinding(flags, t), c)
             && AllAllowed(added, later) && AllSpare(later, Op.FromFlags(flags))
    ensures var d := ServeAll(Start(adminToken, cooldown), calls);
            var s := ServeAll(Serve(d, OfflineAddBinding(flags, t), c, newID), later).store;
            && flags.id in s.bindings
            && s.bindings[flags.id] ==
               Binding(flags.id, "", false, flags.serverNode, flags.serverIface, flags.clientNode, flags.clientIface,
                       flags.peerKey, if flags.configType != "" then flags.configType else "openwrt_uci",
                       flags.configPath, if flags.reloadMethod != "" then flags.reloadMethod else "none", "", 0, true)
  {
    FlagsStored(flags);
    var d, b := ServeAll(Start(adminToken, cooldown), calls), Op.FromFlags(flags);
    HandlerBoundaries(adminToken, cooldown, calls);
    StoredIsSpared(later, b);
    hide ServeAll, AllAllowed, Sound, Serve, Refused, ByHand.Stored, AllSpare, ByHand.Manual;
    AddServed(d, flags, t, c, newID);
    CallsKeepManual(Serve(d, OfflineAddBinding(flags, t), c, newID), later, b.id);
  }

  // ---------- Handlers finish their fan-outs ----------

  predicate AllLanded(fl: Conv.Air) {
    forall src :: src in fl ==> fl[src].todo == []
  }

  /** Fan-outs are orderly, and none is under way when a pass runs. */
  predicate Tidy(steps: seq<Step>) {
    steps != [] ==>
      var init, last := steps[..|steps| - 1], steps[|steps| - 1];
      Tidy(init) && Conv.Orderly(Conv.Flights(init), last) && (last.Reconcile? ==> AllLanded(Conv.Flights(init)))
  }

  predicate NoFlights(steps: seq<Step>) {
    forall i :: 0 <= i < |steps| ==> !steps[i].SaveLease? && !steps[i].Tell?
  }

  lemma TidyNext(a: seq<Step>, step: Step)
    ensures Conv.Flights(a + [step]) == Conv.FlightsAfter(Conv.Flights(a), step)
    ensures Tidy(a + [step]) <==>
            Tidy(a) && Conv.Orderly(Conv.Flights(a), step) && (step.Reconcile? ==> AllLanded(Conv.Flights(a)))
  {
    hide Conv.Orderly, Conv.FlightsAfter, AllLanded;
    assert (a + [step])[..|a|] == a;
  }

  lemma {:induction false} QuietScript(a: seq<Step>, b: seq<Step>)
    requires Tidy(a) && AllLanded(Conv.Flights(a)) && NoFlights(b)
    ensures Tidy(a + b) && Conv.Flights(a + b) == Conv.Flights(a)
  {
    if b == [] {
      assert a + b == a;
    } else {
      var init, last := b[..|b| - 1], b[|b| - 1];
      QuietScript(a, init);
      assert a + b == a + init + [last];
      TidyNext(a + init, last);
      hide Conv.Flights, Tidy;
    }
  }

  /** Part of a fan-out leaves exactly the rest of it under way. */
  lemma {:induction false} FanOutScript(a: seq<Step>, node: string, lease: Lease, matched: seq<Binding>,
                                        newID: nat -> string, now: string, n: nat)
    requires Tidy(a) && AllLanded(Conv.Flights(a)) && n <= |matched|
    ensures var steps := a + ([SaveLease(node, lease, matched, now)] + Tells(node, matched[..n], lease, newID, now));
            var src := Conv.Source(node, lease.serverIface);
            Tidy(steps) && Conv.Flights(steps) == Conv.Flights(a)[src := Conv.Flight(lease, matched[n..])]
  {
    var save := SaveLease(node, lease, matched, now);
    hide Conv.Flights, Tidy;
    if n == 0 {
      assert a + ([save] + []) == a + [save];
      TidyNext(a, save);
      assert matched[0..] == matched;
    } else {
      FanOutScript(a, node, lease, matched, newID, now, n - 1);
      var told := a + ([save] + Tells(node, matched[..n - 1], lease, newID, now));
      var tell := Tell(node, matched[n - 1], lease, newID(n - 1), now);
      assert matched[..n][..n - 1] == matched[..n - 1];
      assert told + [tell] == a + ([save] + Tells(node, matched[..n], lease, newID, now));
      TidyNext(told, tell);
      assert matched[n - 1..][1..] == matched[n..];
    }
  }

  lemma ScriptIsTidy(a: seq<Step>, d: Daemon, r: Request, c: Choices, newID: nat -> string)
    requires Tidy(a) && AllLanded(Conv.Flights(a))
    ensures var steps := a + Script(d, r, c, newID);
            Tidy(steps) && AllLanded(Conv.Flights(steps))
  {
    hide Conv.Flights, Tidy, Refused, TriggersNatter;
    if r.NatterReport? && !Refused(d, r, c) {
      FanOutScript(a, r.node, r.lease, c.matched, newID, r.now, |c.matched|);
      assert c.matched[..|c.matched|] == c.matched;
    } else {
      QuietScript(a, Script(d, r, c, newID));
    }
  }

  /** Calls served one after another leave no client to be told, and no pass meets a fan-out under way. */
  lemma {:induction false} CallsAreTidy(d: Daemon, calls: seq<Call>)
    ensures Tidy(StepsOf(d, calls)) && AllLanded(Conv.Flights(StepsOf(d, calls)))
  {
    if calls != [] {
      var init, last := calls[..|calls| - 1], calls[|calls| - 1];
      CallsAreTidy(d, init);
      hide Script, Tidy, Conv.Flights, AllLanded;
      ScriptIsTidy(StepsOf(d, init), ServeAll(d, init), last.r, last.c, last.newID);
    }
  }

  lemma {:induction false} TidyIsClear(steps: seq<Step>)
    requires Tidy(steps) && Conv.ApartRun(EMPTY, steps)
    ensures Conv.ClearRun(EMPTY, steps)
  {
    if steps != [] {
      hide Conv.Orderly, Conv.Apart, Exec, Conv.Flights;
      TidyIsClear(steps[..|steps| - 1]);
    }
  }

  /** Convergence between requests, as long as ids do not collide and a binding added by hand under an id that
      has an endpoint keeps the route of the old one: every stored endpoint is the newest lease of its server
      interface, and it is what the binding's client was handed last, once its queue is drained by handing out. */
  lemma HandlersConverge(adminToken: string, cooldown: int, calls: seq<Call>, k: string)
    requires var d := Start(adminToken, cooldown);
             AllAllowed(d, calls) && Conv.ApartRun(EMPTY, StepsOf(d, calls)) && k in ServeAll(d, calls).store.endpoints
    ensures var d := Start(adminToken, cooldown);
            var s := ServeAll(d, calls).store;
            && k in s.bindings
            && Conv.LeaseSays(s.leases, s.bindings[k], s.endpoints[k])
            && var b := s.bindings[k];
               Conv.Served(StepsOf(d, calls), b.clientNode) ==>
                 Conv.CommandSays(Conv.LastApply(Conv.HandedTo(EMPTY, StepsOf(d, calls), b.clientNode), k), k,
                                  b.clientIface, s.endpoints[k])
  {
    var d := Start(adminToken, cooldown);
    var steps := StepsOf(d, calls);
    ServedIsRun(d, calls);
    CallsAreTidy(d, calls);
    hide StepsOf, ServeAll, Tidy, Conv.ApartRun, Conv.ClearRun, Conv.Flights, Conv.HandedTo, Conv.Served;
    hide Conv.LeaseSays;
    TidyIsClear(steps);
    Conv.Converged(steps, k);
  }

  /** The condition on ids follows from the names: they are clean and apart. */
  lemma SafeNamesAreApart(v: SafeNames.Vocabulary, adminToken: string, cooldown: int, calls: seq<Call>)
    requires SafeNames.Safe(v) && AllAllowed(Start(adminToken, cooldown), calls)
    requires SafeNames.SafeInputs(v, EMPTY, StepsOf(Start(adminToken, cooldown), calls))
    ensures Conv.ApartRun(EMPTY, StepsOf(Start(adminToken, cooldown), calls))
  {
    ServedIsRun(Start(adminToken, cooldown), calls);
    SafeNames.SafeRunIsApart(v, StepsOf(Start(adminToken, cooldown), calls));
  }
}
