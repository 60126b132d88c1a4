/** The daemon itself: request handlers over the store, proved to perform their scripts. */
module DaemonServer {
  import opened Model
  import opened Handlers
  import Runs
  import Op = Operations
  import Rec = Reconciler
  import Cooldown
  import Requests
  import Store

  /** What serving `r` must do: answer with an error exactly when it is refused, and perform the script of
      the request under choices the program can make. */
  ghost predicate Outcome(d: Daemon, r: Request, c: Choices, newID: nat -> string, ok: bool, d': Daemon) {
    ok == !Refused(d, r, c) && Allows(d, r, c, newID) && d' == Serve(d, r, c, newID)
  }

  const NO_CHOICES := Choices([], "", "", [])

  class Server {
    const store: Store.Store
    const adminToken: string
    const natterCooldown: int
    var lastNatterRun: map<string, int>

    constructor (store: Store.Store, adminToken: string, cooldown: int)
      ensures this.store == store && this.adminToken == adminToken && natterCooldown == cooldown &&
              lastNatterRun == map[]
    {
      this.store, this.adminToken, natterCooldown, lastNatterRun := store, adminToken, cooldown, map[];
    }

    function View(): Daemon
      reads this, store
    {
      Daemon(store.View(), lastNatterRun, adminToken, natterCooldown)
    }

    ghost predicate Valid()
      reads this, store
    {
      store.InSync() && Runs.Sound(store.View())
    }

    method AuthenticateAgent(node: string, token: string) returns (ok: bool)
      ensures ok == AgentKnown(store.View(), node, token)
    {
      if node == "" || token == "" {
        return false;
      }
      ok := node in store.nodes && store.nodes[node].token == token && store.nodes[node].approved;
    }

    method AuthenticateAdmin(token: string) returns (ok: bool)
      ensures ok == AdminKnown(View(), token)
    {
      ok := adminToken == "" || token == adminToken;
    }

    // ---------- Agents ----------

    method AgentRegister(r: Request, newID: nat -> string) returns (ok: bool, ghost c: Choices)
      requires r.AgentRegister? && Valid()
      modifies this, store
      ensures Valid() && Outcome(old(View()), r, c, newID, ok, View())
    {
      c := NO_CHOICES;
      hide Runs.Sound, Op.UpdateInventory, Op.IdentityError;
      var error := store.UpsertPendingNode(r.node, r.name, r.token, r.meta, r.now);
      ok := error.None?;
      hide Op.Register;
      if ok {
        store.UpdateWGInterfaces(r.node, r.items, r.now);
      }
      hide Outcome;
      RegisterOutcome(old(View()), r, c, newID, ok, View());
    }

    method AgentJoin(r: Request, newID: nat -> string) returns (ok: bool, ghost c: Choices)
      requires r.AgentJoin? && Valid()
      modifies this, store
      ensures Valid() && Outcome(old(View()), r, c, newID, ok, View())
    {
      hide Runs.Sound, Op.Join, Op.UpdateInventory, Op.JoinError, Rec.Reconcile, Rec.Enumerates;
      c, ok := NO_CHOICES, false;
      if r.node != "" && r.token != "" && r.joinCode != "" {
        var domain := store.DomainByJoinCode(r.joinCode);
        if domain.Some? {
          ghost var order;
          ok, order := Admit(r, domain.value);
          c := Choices(order, domain.value, "", []);
        }
      }
      hide Outcome;
      JoinOutcome(old(View()), r, c, newID, ok, View());
    }

    method Admit(r: Request, domain: string) returns (ok: bool, ghost order: seq<Binding>)
      requires r.AgentJoin? && Valid()
      modifies store
      ensures store.InSync() && ok == Op.JoinError(old(store.View()), domain, r.node, r.token).None?
      ensures var node := Op.Join(old(store.View()), domain, r.node, r.name, r.token, r.meta, r.now);
              var joined := Op.UpdateInventory(node, r.node, r.items, r.now);
              if ok then Rec.Enumerates(order, joined) && store.View() == Rec.Reconcile(joined, order)
              else store.View() == old(store.View())
    {
      hide Runs.Sound, Op.UpdateInventory, Op.JoinError, Rec.Reconcile, Rec.Enumerates;
      order := [];
      var error := store.UpsertJoinedNode(domain, r.node, r.name, r.token, r.meta, r.now);
      ok := error.None?;
      if ok {
        hide Op.Join;
        store.UpdateWGInterfaces(r.node, r.items, r.now);
        var created;
        created, order := store.ReconcileAutoBindings();
      }
    }

    method AgentPoll(r: Request, newID: nat -> string) returns (ok: bool, ghost c: Choices)
      requires r.AgentPoll? && Valid()
      modifies this, store
      ensures Valid() && Outcome(old(View()), r, c, newID, ok, View())
    {
      hide Runs.Sound, Op.MarkSeen, Op.UpdateInventory, Rec.Reconcile, Rec.Enumerates, AgentKnown;
      ok := AuthenticateAgent(r.node, r.token);
      c := NO_CHOICES;
      if ok {
        store.MarkSeen(r.node, r.meta, r.now);
        store.UpdateWGInterfaces(r.node, r.items, r.now);
        var created;
        ghost var order;
        created, order := store.ReconcileAutoBindings();
        c := Choices(order, "", "", []);
      }
      hide Outcome;
      PollOutcome(old(View()), r, c, newID, ok, View());
    }

    /** One round of a poll's wait. */
    method AgentFetch(r: Request, newID: nat -> string) returns (ok: bool, cmd: Option<Command>, ghost c: Choices)
      requires r.AgentFetch? && Valid()
      modifies this, store
      ensures cmd == Op.NextCommand(old(store.View()), r.node)
      ensures Valid() && Outcome(old(View()), r, c, newID, ok, View())
    {
      hide Runs.Sound, Op.Deliver, Op.NextCommand;
      c, ok := NO_CHOICES, true;
      cmd := store.NextCommand(r.node);
      hide Outcome;
      FetchOutcome(old(View()), r, c, newID, View());
    }

    method ActionResult(r: Request, newID: nat -> string) returns (ok: bool, ghost c: Choices)
      requires r.ActionResult? && Valid()
      modifies this, store
      ensures Valid() && Outcome(old(View()), r, c, newID, ok, View())
    {
      hide Runs.Sound, Op.Complete, AgentKnown;
      c := NO_CHOICES;
      ok := AuthenticateAgent(r.node, r.token);
      if ok {
        store.CompleteCommand(r.node, r.commandID, r.result);
      }
      hide Outcome;
      ResultOutcome(old(View()), r, c, newID, ok, View());
    }

    method NatterReport(r: Request, newID: nat -> string) returns (ok: bool, ghost c: Choices)
      requires r.NatterReport? && Valid()
      modifies this, store
      ensures Valid() && Outcome(old(View()), r, c, newID, ok, View())
      ensures ok ==> Requests.ReportDoes(old(store.View()), r.node, r.lease, newID, r.now, store.View())
    {
      hide Runs.Sound, Op.SaveLease, Op.Matches, AgentKnown, LeaseOk, Runs.Exec, Requests.ReportDoes;
      c := NO_CHOICES;
      ok := AuthenticateAgent(r.node, r.token);
      ok := ok && LeaseOk(r.protocol, r.lease);
      if ok {
        ghost var matched := TellClients(r.node, r.lease, newID, r.now);
        c := Choices([], "", "", matched);
      }
      hide Outcome;
      NatterOutcome(old(View()), r, c, newID, ok, View());
    }

    /** The fan-out: one endpoint.apply to the client of every binding the lease speaks for. */
    method TellClients(node: string, lease: Lease, newID: nat -> string, now: string) returns (matched: seq<Binding>)
      requires Valid()
      modifies store
      ensures store.InSync() && Op.Matches(old(store.bindings), node, lease, matched)
      ensures store.View() == Runs.Exec(Op.SaveLease(old(store.View()), node, lease, now),
                                        Tells(node, matched, lease, newID, now))
      ensures Requests.ReportDoes(old(store.View()), node, lease, newID, now, store.View())
    {
      KeyedWhenSound(store.View());
      hide Runs.Sound, Op.SaveLease, Op.Matches, Store.KeyedById, Requests.ReportDoes, Rec.KeyedTable;
      matched := store.SaveEndpointLease(node, lease, now);
      ghost var saved := store.View();
      assert matched[..0] == [];
      for i := 0 to |matched|
        invariant store.InSync()
        invariant store.View() == Runs.Exec(saved, Tells(node, matched[..i], lease, newID, now))
      {
        TellOne(saved, node, matched, i, lease, newID, now);
        hide Tells, Runs.Exec, Op.Queue;
        store.QueueCommand(matched[i].clientNode, Op.ApplyCommand(newID(i), matched[i], lease), now);
      }
      assert matched[..|matched|] == matched;
      Requests.ReportLeaves(old(store.View()), node, lease, matched, newID, now);
    }

    /** The check and the note of the time happen under one lock; the clock was read before it. */
    method PeerUnreachable(r: Request, newID: nat -> string) returns (ok: bool, ghost c: Choices)
      requires r.PeerUnreachable? && Valid()
      modifies this, store
      ensures Valid() && Outcome(old(View()), r, c, newID, ok, View())
    {
      hide Runs.Sound, Op.Queue, AgentKnown;
      c := NO_CHOICES;
      ok := AuthenticateAgent(r.node, r.token);
      ok := ok && r.serverNode != "" && r.serverIface != "";
      if ok {
        var key := Cooldown.Key(r.serverNode, r.serverIface);
        if !(key in lastNatterRun && r.clock - lastNatterRun[key] < natterCooldown) {
          store.QueueCommand(r.serverNode, NatterRun(newID(0), r.serverIface), r.now);
          lastNatterRun := lastNatterRun[key := r.clock];
        }
      }
      hide Outcome;
      UnreachableOutcome(old(View()), r, c, newID, ok, View());
    }

    // ---------- Administration ----------

    method AdminCreateDomain(r: Request, newID: nat -> string) returns (ok: bool, ghost c: Choices)
      requires r.AdminCreateDomain? && Valid()
      modifies this, store
      ensures Valid() && Outcome(old(View()), r, c, newID, ok, View())
    {
      hide Runs.Sound;
      c := NO_CHOICES;
      ok := AuthenticateAdmin(r.adminToken);
      ok := ok && r.id != "";
      if ok {
        var error := store.CreateDomain(r.id, r.name, r.joinCode, r.description, r.now);
        ok := error.None?;
      }
      hide Outcome;
      DomainOutcome(old(View()), r, c, newID, ok, View());
    }

    method AdminApprove(r: Request, newID: nat -> string) returns (ok: bool, ghost c: Choices)
      requires r.AdminApprove? && Valid()
      modifies this, store
      ensures Valid() && Outcome(old(View()), r, c, newID, ok, View())
    {
      hide Runs.Sound, Op.ApproveError, Op.SingleDomain, Rec.Reconcile, Rec.Enumerates;
      c := NO_CHOICES;
      ok := AuthenticateAdmin(r.adminToken);
      ok := ok && r.node != "";
      if ok {
        ghost var order, single;
        ok, order, single := ApproveAndReconcile(r);
        c := Choices(order, "", single, []);
      }
      hide Outcome;
      ApproveOutcome(old(View()), r, c, newID, ok, View());
    }

    method ApproveAndReconcile(r: Request) returns (ok: bool, ghost order: seq<Binding>, ghost single: string)
      requires r.AdminApprove? && Valid()
      modifies store
      ensures store.InSync() && Op.SingleDomain(old(store.View()), r.node, single)
      ensures ok == Op.ApproveError(old(store.View()), r.node, r.approval, single).None?
      ensures var approved := Op.Approve(old(store.View()), r.node, r.approval, single, r.now);
              if ok then Rec.Enumerates(order, approved) && store.View() == Rec.Reconcile(approved, order)
              else store.View() == old(store.View())
    {
      hide Runs.Sound, Op.ApproveError, Op.SingleDomain, Rec.Reconcile, Rec.Enumerates;
      var error;
      error, single := store.ApproveNode(r.node, r.approval, r.now);
      ok, order := error.None?, [];
      if ok {
        hide Op.Approve;
        var created;
        created, order := store.ReconcileAutoBindings();
      }
    }

    method AdminDelete(r: Request, newID: nat -> string) returns (ok: bool, ghost c: Choices)
      requires r.AdminDelete? && Valid()
      modifies this, store
      ensures Valid() && Outcome(old(View()), r, c, newID, ok, View())
    {
      hide Runs.Sound, Rec.Reconcile, Rec.Enumerates;
      c := NO_CHOICES;
      ok := AuthenticateAdmin(r.adminToken);
      ok := ok && r.node != "";
      if ok {
        var error := store.DeleteNode(r.node);
        ok := error.None?;
        if ok {
          hide Op.DeleteNode;
          var created;
          ghost var order;
          created, order := store.ReconcileAutoBindings();
          c := Choices(order, "", "", []);
        }
      }
      hide Outcome;
      DeleteOutcome(old(View()), r, c, newID, ok, View());
    }

    method AdminRunNatter(r: Request, newID: nat -> string) returns (ok: bool, ghost c: Choices)
      requires r.AdminRunNatter? && Valid()
      modifies this, store
      ensures Valid() && Outcome(old(View()), r, c, newID, ok, View())
    {
      hide Runs.Sound, Op.Queue;
      c := NO_CHOICES;
      ok := AuthenticateAdmin(r.adminToken);
      ok := ok && r.serverNode != "" && r.serverIface != "";
      if ok {
        store.QueueCommand(r.serverNode, NatterRun(newID(0), r.serverIface), r.now);
      }
      hide Outcome;
      RunNatterOutcome(old(View()), r, c, newID, ok, View());
    }
  }

  // ---------- What scripts come to ----------

  lemma {:induction false} RunIsSound(s: State, steps: seq<Runs.Step>)
    requires Runs.Sound(s) && Runs.IsRun(s, steps)
    ensures Runs.Sound(Runs.Exec(s, steps))
  {
    hide Runs.Sound, Runs.Do, Runs.Possible;
    if steps != [] {
      RunIsSound(s, steps[..|steps| - 1]);
      Runs.SoundStep(Runs.Exec(s, steps[..|steps| - 1]), steps[|steps| - 1]);
    }
  }

  lemma KeyedWhenSound(s: State)
    requires Runs.Sound(s)
    ensures Store.KeyedById(s.bindings) && Rec.KeyedTable(s.bindings)
  {
    hide Runs.SoundNodes, Runs.SoundMembers, Runs.SoundRows, Runs.SoundDomains;
  }

  lemma TellOne(s: State, node: string, matched: seq<Binding>, i: nat, lease: Lease, newID: nat -> string, now: string)
    requires i < |matched|
    ensures Runs.Exec(s, Tells(node, matched[..i + 1], lease, newID, now)) ==
            Op.Queue(Runs.Exec(s, Tells(node, matched[..i], lease, newID, now)), matched[i].clientNode,
                     Op.ApplyCommand(newID(i), matched[i], lease), now)
  {
    hide Op.Queue, Op.ApplyCommand, Tells, Runs.Exec, Runs.IsRun;
    Requests.TellsMore(node, matched, i, lease, newID, now);
    Runs.ExecSnoc(s, Tells(node, matched[..i], lease, newID, now), Runs.Tell(node, matched[i], lease, newID(i), now));
  }

  /** A refused request changes nothing; any other leaves what its script leaves. */
  lemma Served(d: Daemon, r: Request, c: Choices, newID: nat -> string, ok: bool, d': Daemon)
    requires Runs.Sound(d.store) && Found(d, r, c) && ok == !Refused(d, r, c)
    requires ok ==> Runs.IsRun(d.store, Script(d, r, c, newID))
    requires ok ==> d'.store == Runs.Exec(d.store, Script(d, r, c, newID))
    requires !ok ==> d'.store == d.store
    requires d' == d.(store := d'.store, lastRun := LastRun(d, r, c))
    ensures Outcome(d, r, c, newID, ok, d') && Runs.Sound(d'.store)
  {
    hide Refused, TriggersNatter, Found, Runs.Sound, Runs.Do, Runs.Possible;
    if ok {
      hide Script;
      RunIsSound(d.store, Script(d, r, c, newID));
    }
  }

  lemma RegisterOutcome(d: Daemon, r: Request, c: Choices, newID: nat -> string, ok: bool, d': Daemon)
    requires r.AgentRegister? && Runs.Sound(d.store)
    requires ok == Op.IdentityError(d.store, r.node, r.token).None?
    requires var known := Op.Register(d.store, r.node, r.name, r.token, r.meta, r.now);
             d' == d.(store := if ok then Op.UpdateInventory(known, r.node, r.items, r.now) else d.store)
    ensures Outcome(d, r, c, newID, ok, d') && Runs.Sound(d'.store)
  {
    hide Runs.Sound, Op.Register, Op.UpdateInventory, Op.IdentityError;
    Runs.TwoSteps(d.store, Runs.Register(r.node, r.name, r.token, r.meta, r.now),
                  Runs.Inventory(r.node, r.items, r.now));
    hide Runs.Exec, Runs.IsRun, Outcome;
    Served(d, r, c, newID, ok, d');
  }

  lemma JoinOutcome(d: Daemon, r: Request, c: Choices, newID: nat -> string, ok: bool, d': Daemon)
    requires r.AgentJoin? && Runs.Sound(d.store) && Found(d, r, c)
    requires ok == !Refused(d, r, c)
    requires var joined := Op.UpdateInventory(Op.Join(d.store, c.domain, r.node, r.name, r.token, r.meta, r.now),
                                              r.node, r.items, r.now);
             && (ok ==> Rec.Enumerates(c.order, joined))
             && d' == d.(store := if ok then Rec.Reconcile(joined, c.order) else d.store)
    ensures Outcome(d, r, c, newID, ok, d') && Runs.Sound(d'.store)
  {
    hide Runs.Sound, Op.Join, Op.UpdateInventory, Refused, Found, Rec.Reconcile, Rec.Enumerates;
    Runs.ThreeSteps(d.store, Runs.Join(c.domain, r.node, r.name, r.token, r.meta, r.now),
               Runs.Inventory(r.node, r.items, r.now), Runs.Reconcile(c.order));
    hide Runs.Exec, Runs.IsRun, Outcome;
    Served(d, r, c, newID, ok, d');
  }

  lemma PollOutcome(d: Daemon, r: Request, c: Choices, newID: nat -> string, ok: bool, d': Daemon)
    requires r.AgentPoll? && Runs.Sound(d.store)
    requires ok == AgentKnown(d.store, r.node, r.token)
    requires var seen := Op.UpdateInventory(Op.MarkSeen(d.store, r.node, r.meta, r.now), r.node, r.items, r.now);
             && (ok ==> Rec.Enumerates(c.order, seen))
             && d' == d.(store := if ok then Rec.Reconcile(seen, c.order) else d.store)
    ensures Outcome(d, r, c, newID, ok, d') && Runs.Sound(d'.store)
  {
    hide Runs.Sound, Op.MarkSeen, Op.UpdateInventory, AgentKnown, Rec.Reconcile, Rec.Enumerates;
    Runs.ThreeSteps(d.store, Runs.MarkSeen(r.node, r.meta, r.now), Runs.Inventory(r.node, r.items, r.now),
               Runs.Reconcile(c.order));
    hide Runs.Exec, Runs.IsRun, Outcome;
    Served(d, r, c, newID, ok, d');
  }

  lemma FetchOutcome(d: Daemon, r: Request, c: Choices, newID: nat -> string, d': Daemon)
    requires r.AgentFetch? && Runs.Sound(d.store) && d' == d.(store := Op.Deliver(d.store, r.node))
    ensures Outcome(d, r, c, newID, true, d') && Runs.Sound(d'.store)
  {
    hide Runs.Sound, Op.Deliver;
    Runs.OneStep(d.store, Runs.Next(r.node));
    hide Runs.Exec, Runs.IsRun, Outcome;
    Served(d, r, c, newID, true, d');
  }

  lemma ResultOutcome(d: Daemon, r: Request, c: Choices, newID: nat -> string, ok: bool, d': Daemon)
    requires r.ActionResult? && Runs.Sound(d.store) && ok == AgentKnown(d.store, r.node, r.token)
    requires d' == d.(store := if ok then Op.Complete(d.store, r.node, r.commandID, r.result) else d.store)
    ensures Outcome(d, r, c, newID, ok, d') && Runs.Sound(d'.store)
  {
    hide Runs.Sound, Op.Complete, AgentKnown;
    Runs.OneStep(d.store, Runs.Complete(r.node, r.commandID, r.result));
    hide Runs.Exec, Runs.IsRun, Outcome;
    Served(d, r, c, newID, ok, d');
  }

  lemma {:induction false} TellsArePossible(s: State, node: string, matched: seq<Binding>, lease: Lease,
                                            newID: nat -> string, now: string)
    ensures Runs.IsRun(s, Tells(node, matched, lease, newID, now))
  {
    if matched == [] {
      NoSteps(s);
    } else {
      var n := |matched| - 1;
      TellsArePossible(s, node, matched[..n], lease, newID, now);
      hide Runs.Exec, Runs.IsRun;
      Runs.ExecSnoc(s, Tells(node, matched[..n], lease, newID, now), Runs.Tell(node, matched[n], lease, newID(n), now));
    }
  }

  lemma NatterOutcome(d: Daemon, r: Request, c: Choices, newID: nat -> string, ok: bool, d': Daemon)
    requires r.NatterReport? && Runs.Sound(d.store) &&
             ok == (AgentKnown(d.store, r.node, r.token) && LeaseOk(r.protocol, r.lease))
    requires ok ==> Op.Matches(d.store.bindings, r.node, r.lease, c.matched)
    requires d' == d.(store := if ok then Runs.Exec(Op.SaveLease(d.store, r.node, r.lease, r.now),
                                                    Tells(r.node, c.matched, r.lease, newID, r.now))
                               else d.store)
    ensures Outcome(d, r, c, newID, ok, d') && Runs.Sound(d'.store)
  {
    hide Runs.Sound, Op.SaveLease, Op.Matches, AgentKnown, LeaseOk, Tells;
    var save := Runs.SaveLease(r.node, r.lease, c.matched, r.now);
    var tells := Tells(r.node, c.matched, r.lease, newID, r.now);
    Runs.OneStep(d.store, save);
    hide Runs.Exec, Runs.IsRun, Outcome;
    Runs.ExecConcat(d.store, [save], tells);
    TellsArePossible(Op.SaveLease(d.store, r.node, r.lease, r.now), r.node, c.matched, r.lease, newID, r.now);
    Served(d, r, c, newID, ok, d');
  }

  lemma UnreachableOutcome(d: Daemon, r: Request, c: Choices, newID: nat -> string, ok: bool, d': Daemon)
    requires r.PeerUnreachable? && Runs.Sound(d.store)
    requires ok == (AgentKnown(d.store, r.node, r.token) && r.serverNode != "" && r.serverIface != "")
    requires if ok && TriggersNatter(d, r)
             then d' == d.(store := Op.Queue(d.store, r.serverNode, NatterRun(newID(0), r.serverIface), r.now),
                           lastRun := d.lastRun[Cooldown.Key(r.serverNode, r.serverIface) := r.clock])
             else d' == d
    ensures Outcome(d, r, c, newID, ok, d') && Runs.Sound(d'.store)
  {
    hide Runs.Sound, Op.Queue, AgentKnown, TriggersNatter;
    Runs.OneStep(d.store, Runs.RunNatter(r.serverNode, NatterRun(newID(0), r.serverIface), r.now));
    NoSteps(d.store);
    hide Runs.Exec, Runs.IsRun, Outcome;
    Served(d, r, c, newID, ok, d');
  }

  lemma NoSteps(s: State)
    ensures Runs.Exec(s, []) == s && Runs.IsRun(s, [])
  {
  }

  lemma DomainOutcome(d: Daemon, r: Request, c: Choices, newID: nat -> string, ok: bool, d': Daemon)
    requires r.AdminCreateDomain? && Runs.Sound(d.store)
    requires ok == (AdminKnown(d, r.adminToken) && Op.CreateDomainError(d.store, r.id).None?)
    requires d' == d.(store := if ok then Op.CreateDomain(d.store, r.id, r.name, r.joinCode, r.description, r.now)
                      else d.store)
    ensures Outcome(d, r, c, newID, ok, d') && Runs.Sound(d'.store)
  {
    hide Runs.Sound, Op.CreateDomain, Op.CreateDomainError, AdminKnown;
    Runs.OneStep(d.store, Runs.CreateDomain(r.id, r.name, r.joinCode, r.description, r.now));
    hide Runs.Exec, Runs.IsRun, Outcome;
    Served(d, r, c, newID, ok, d');
  }

  lemma ApproveOutcome(d: Daemon, r: Request, c: Choices, newID: nat -> string, ok: bool, d': Daemon)
    requires r.AdminApprove? && Runs.Sound(d.store) && Found(d, r, c)
    requires ok == (AdminKnown(d, r.adminToken) && r.node != "" &&
                    Op.ApproveError(d.store, r.node, r.approval, c.single).None?)
    requires var approved := Op.Approve(d.store, r.node, r.approval, c.single, r.now);
             && (ok ==> Rec.Enumerates(c.order, approved))
             && d' == d.(store := if ok then Rec.Reconcile(approved, c.order) else d.store)
    ensures Outcome(d, r, c, newID, ok, d') && Runs.Sound(d'.store)
  {
    hide Runs.Sound, Op.Approve, Op.ApproveError, Op.SingleDomain, AdminKnown, Rec.Reconcile, Rec.Enumerates;
    Runs.TwoSteps(d.store, Runs.Approve(r.node, r.approval, c.single, r.now), Runs.Reconcile(c.order));
    hide Runs.Exec, Runs.IsRun, Outcome;
    Served(d, r, c, newID, ok, d');
  }

  lemma DeleteOutcome(d: Daemon, r: Request, c: Choices, newID: nat -> string, ok: bool, d': Daemon)
    requires r.AdminDelete? && Runs.Sound(d.store)
    requires ok == (AdminKnown(d, r.adminToken) && r.node != "" && r.node in d.store.nodes)
    requires var deleted := Op.DeleteNode(d.store, r.node);
             && (ok ==> Rec.Enumerates(c.order, deleted))
             && d' == d.(store := if ok then Rec.Reconcile(deleted, c.order) else d.store)
    ensures Outcome(d, r, c, newID, ok, d') && Runs.Sound(d'.store)
  {
    hide Runs.Sound, Op.DeleteNode, AdminKnown, Rec.Reconcile, Rec.Enumerates;
    Runs.TwoSteps(d.store, Runs.Delete(r.node), Runs.Reconcile(c.order));
    hide Runs.Exec, Runs.IsRun, Outcome;
    Served(d, r, c, newID, ok, d');
  }

  lemma RunNatterOutcome(d: Daemon, r: Request, c: Choices, newID: nat -> string, ok: bool, d': Daemon)
    requires r.AdminRunNatter? && Runs.Sound(d.store)
    requires ok == (AdminKnown(d, r.adminToken) && r.serverNode != "" && r.serverIface != "")
    requires d' == d.(store := if ok then Op.Queue(d.store, r.serverNode, NatterRun(newID(0), r.serverIface), r.now)
                      else d.store)
    ensures Outcome(d, r, c, newID, ok, d') && Runs.Sound(d'.store)
  {
    hide Runs.Sound, Op.Queue, AdminKnown;
    Runs.OneStep(d.store, Runs.RunNatter(r.serverNode, NatterRun(newID(0), r.serverIface), r.now));
    hide Runs.Exec, Runs.IsRun, Outcome;
    Served(d, r, c, newID, ok, d');
  }
}
