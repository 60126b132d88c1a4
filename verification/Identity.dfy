/** Who nodes are, over whole runs: which are known and by which token, and which are approved. */
module Identity {
  import opened Model
  import opened Runs
  import Names
  import Op = Operations
  import Rec = Reconciler

  predicate Removes(step: Step, k: string) {
    step == Delete(k) && k != ""
  }

  /** The administrator lets the node in: creates it, or approves it into a domain. */
  predicate Admits(s: State, step: Step, k: string) {
    match step
    case CreateNode(id, name, token) => id == k
    case Approve(node, approval, single, now) => node == k && Op.ApproveError(s, node, approval, single).None?
    case _ => false
  }

  predicate AdmittedAfter(s: State, step: Step, k: string, before: bool) {
    !Removes(step, k) && (Admits(s, step, k) || before)
  }

  /** Since it was last deleted, the node was let in. */
  predicate Admitted(steps: seq<Step>, k: string) {
    if steps == [] then false
    else AdmittedAfter(Exec(EMPTY, steps[..|steps| - 1]), steps[|steps| - 1], k, Admitted(steps[..|steps| - 1], k))
  }

  /** What a node goes by. */
  datatype Card = Card(token: string, name: string)

  /** Steps that introduce `k` and are not refused: with an unknown id, or with the token it is known by. */
  predicate Introduces(s: State, step: Step, k: string, known: Option<Card>) {
    match step
    case Register(node, name, token, meta, now) =>
      node == k != "" && token != "" && (known.Some? ==> token == known.value.token)
    case Join(domain, node, name, token, meta, now) =>
      node == k != "" && token != "" && (known.Some? ==> token == known.value.token) && domain in s.domains
    case _ => false
  }

  function CardAfter(s: State, step: Step, k: string, known: Option<Card>): Option<Card> {
    if Removes(step, k) then None
    else if step.CreateNode? && step.id == k then Some(Card(step.token, step.name))
    else if Introduces(s, step, k, known) then
      if known.None? then Some(Card(step.token, if step.name != "" then step.name else k))
      else if step.Register? && known.value.name == "" then Some(known.value.(name := step.name))
      else known
    else if Admits(s, step, k) && step.approval.name != "" && known.Some? then
      Some(known.value.(name := step.approval.name))
    else known
  }

  /** The token a node was created with last, or introduced itself with first, since it was last deleted; and the
      name given then, or by an approval since, or by a later registration if it had none. */
  function CardOf(steps: seq<Step>, k: string): Option<Card> {
    if steps == [] then None
    else CardAfter(Exec(EMPTY, steps[..|steps| - 1]), steps[|steps| - 1], k, CardOf(steps[..|steps| - 1], k))
  }

  predicate Knows(s: State, k: string, card: Option<Card>, admitted: bool) {
    && (k in s.nodes <==> card.Some?)
    && (k in s.nodes ==>
          && s.nodes[k].token == card.value.token && s.nodes[k].name == card.value.name
          && s.nodes[k].approved == admitted)
    && (k !in s.nodes ==> !admitted)
  }

  lemma KnowsFrame(s: State, t: State, k: string, card: Option<Card>, admitted: bool)
    requires Knows(s, k, card, admitted) && t.nodes == s.nodes
    ensures Knows(t, k, card, admitted)
  {
  }

  lemma OtherNodes(s: State, step: Step)
    requires Sound(s) && Possible(s, step)
    requires !(step.CreateNode? || step.Delete? || step.Register? || step.Join? || step.Approve?)
    ensures Do(s, step).nodes == s.nodes
  {
    hide SoundNodes, SoundMembers, SoundBindings, SoundRows, SoundDomains;
    if step.Reconcile? {
      ReconcileFrame(s, step.order);
    }
  }

  lemma KnowsCreation(s: State, id: string, name: string, key: string, k: string, card: Option<Card>, admitted: bool)
    requires Knows(s, k, card, admitted)
    ensures var step := CreateNode(id, name, key);
            Knows(Op.CreateNode(s, id, name, key), k, CardAfter(s, step, k, card), AdmittedAfter(s, step, k, admitted))
  {
  }

  lemma KnowsRegistration(s: State, node: string, name: string, token: string, meta: Option<Op.Meta>, now: string,
                          k: string, card: Option<Card>, admitted: bool)
    requires Knows(s, k, card, admitted)
    ensures var step := Register(node, name, token, meta, now);
            Knows(Op.Register(s, node, name, token, meta, now), k,
                  CardAfter(s, step, k, card), AdmittedAfter(s, step, k, admitted))
  {
    var t := Op.Register(s, node, name, token, meta, now);
    var refused := node == "" || token == "" || (node in s.nodes && s.nodes[node].token != token);
    assert t.nodes == if refused then s.nodes else Op.RegisteredNodes(s.nodes, node, name, token);
    RegisteredAt(s.nodes, node, name, token, k);
    hide Op.Register, Op.RegisteredNodes;
  }

  lemma RegisteredAt(nodes: map<string, Node>, node: string, name: string, token: string, k: string)
    ensures var t := Op.RegisteredNodes(nodes, node, name, token);
            && (k in t <==> k in nodes || k == node)
            && (k in nodes && k != node ==> t[k] == nodes[k])
            && (k == node && k in nodes ==>
                  && t[k].token == nodes[k].token && t[k].approved == nodes[k].approved
                  && t[k].name == if nodes[k].name == "" then name else nodes[k].name)
            && (k == node && k !in nodes ==>
                  t[k].token == token && !t[k].approved && t[k].name == if name != "" then name else node)
  {
  }

  lemma KnowsJoin(s: State, domain: string, node: string, name: string, token: string, meta: Option<Op.Meta>,
                  now: string, k: string, card: Option<Card>, admitted: bool)
    requires Knows(s, k, card, admitted)
    ensures var step := Join(domain, node, name, token, meta, now);
            Knows(Op.Join(s, domain, node, name, token, meta, now), k,
                  CardAfter(s, step, k, card), AdmittedAfter(s, step, k, admitted))
  {
    var t := Op.Join(s, domain, node, name, token, meta, now);
    var refused := node == "" || token == "" || domain !in s.domains ||
        (node in s.nodes && s.nodes[node].token != token);
    assert t.nodes == if refused then s.nodes else Op.JoinedNodes(s.nodes, node, name, token);
    JoinedAt(s.nodes, node, name, token, k);
    hide Op.Join, Op.JoinedNodes;
  }

  lemma JoinedAt(nodes: map<string, Node>, node: string, name: string, token: string, k: string)
    ensures var t := Op.JoinedNodes(nodes, node, name, token);
            && (k in t <==> k in nodes || k == node)
            && (k in nodes ==> t[k] == nodes[k])
            && (k == node && k !in nodes ==>
                  t[k].token == token && !t[k].approved && t[k].name == if name != "" then name else node)
  {
  }

  lemma KnowsDeletion(s: State, node: string, k: string, card: Option<Card>, admitted: bool)
    requires Knows(s, k, card, admitted)
    ensures Knows(Op.DeleteNode(s, node), k, CardAfter(s, Delete(node), k, card),
                  AdmittedAfter(s, Delete(node), k, admitted))
  {
    if node != "" && node in s.nodes {
      DeleteFrame(s, node);
      hide Op.DeleteNode;
    }
  }

  lemma KnowsApproval(s: State, node: string, a: Op.Approval, single: string, now: string,
                      k: string, card: Option<Card>, admitted: bool)
    requires Knows(s, k, card, admitted)
    ensures var step := Approve(node, a, single, now);
            Knows(Op.Approve(s, node, a, single, now), k, CardAfter(s, step, k, card),
                  AdmittedAfter(s, step, k, admitted))
  {
    if Op.ApproveError(s, node, a, single).None? {
      ApproveFrame(s, node, a, single, now);
      ApproveNames(s, node, a, single, now);
      hide Op.Approve, Op.ApproveError;
    }
  }

  lemma KnowsStep(s: State, step: Step, k: string, card: Option<Card>, admitted: bool)
    requires Sound(s) && Possible(s, step) && Knows(s, k, card, admitted)
    ensures Knows(Do(s, step), k, CardAfter(s, step, k, card), AdmittedAfter(s, step, k, admitted))
  {
    hide Sound, Knows;
    if step.CreateNode? {
      KnowsCreation(s, step.id, step.name, step.token, k, card, admitted);
    } else if step.Register? {
      KnowsRegistration(s, step.node, step.name, step.token, step.meta, step.now, k, card, admitted);
    } else if step.Join? {
      KnowsJoin(s, step.domain, step.node, step.name, step.token, step.meta, step.now, k, card, admitted);
    } else if step.Delete? {
      KnowsDeletion(s, step.node, k, card, admitted);
    } else if step.Approve? {
      KnowsApproval(s, step.node, step.approval, step.single, step.now, k, card, admitted);
    } else {
      OtherNodes(s, step);
      hide Do;
      KnowsFrame(s, Do(s, step), k, card, admitted);
    }
  }

  lemma ApproveNames(s: State, node: string, a: Op.Approval, single: string, now: string)
    requires node in s.nodes
    ensures var t := Op.Approve(s, node, a, single, now);
            && node in t.nodes && t.nodes[node].token == s.nodes[node].token
            && (Op.ApproveError(s, node, a, single).None? ==>
                  t.nodes[node].name == if a.name != "" then a.name else s.nodes[node].name)
  {
  }

  /** In every reachable state: a node is known exactly when it introduced itself or was created since it was last
      deleted, by that token, and it is approved exactly when the administrator has let it in since. */
  lemma {:induction false} NodesAreAdmitted(steps: seq<Step>, k: string)
    requires IsRun(EMPTY, steps)
    ensures Knows(Exec(EMPTY, steps), k, CardOf(steps, k), Admitted(steps, k))
  {
    if steps != [] {
      var init, last := steps[..|steps| - 1], steps[|steps| - 1];
      NodesAreAdmitted(init, k);
      ReachableIsSound(init);
      hide Do, Possible, Sound, CardAfter, AdmittedAfter, Knows;
      KnowsStep(Exec(EMPTY, init), last, k, CardOf(init, k), Admitted(init, k));
    }
  }

  // ---------- Presence ----------

  function Contacted(p: Presence, status: string, meta: Option<Op.Meta>, now: string): Presence {
    Presence(status, if meta.Some? then meta.value.platform else p.platform,
             if meta.Some? then meta.value.agentVersion else p.agentVersion, now)
  }

  function PresenceAfter(s: State, step: Step, k: string, card: Option<Card>, admitted: bool, p: Presence): Presence {
    if Removes(step, k) then if card.Some? then UNSEEN else p
    else if step.CreateNode? && step.id == k then Presence("offline", "", "", "")
    else if step.MarkSeen? && step.node == k then
      Contacted(p, if admitted then "online" else "pending", step.meta, step.now)
    else if Introduces(s, step, k, card) then
      Contacted(if card.Some? then p else UNSEEN, "pending", step.meta, step.now)
    else if Admits(s, step, k) && (p.status == "pending" || p.status == "") then p.(status := "offline")
    else p
  }

  /** A node is online if it was admitted when it called last, and pending if it was not or introduced itself since;
      admission makes a pending node offline. Times and versions are those of its last calls. */
  function PresenceOfRun(steps: seq<Step>, k: string): Presence {
    if steps == [] then UNSEEN
    else
      var init := steps[..|steps| - 1];
      PresenceAfter(Exec(EMPTY, init), steps[|steps| - 1], k, CardOf(init, k), Admitted(init, k),
                    PresenceOfRun(init, k))
  }

  lemma OtherPresence(s: State, step: Step, k: string)
    requires Sound(s) && Possible(s, step)
    requires !(step.CreateNode? || step.Delete? || step.Register? || step.Join? || step.Approve? || step.MarkSeen?)
    ensures Op.PresenceOf(Do(s, step), k) == Op.PresenceOf(s, k)
  {
    hide SoundNodes, SoundMembers, SoundBindings, SoundRows, SoundDomains;
    if step.Reconcile? {
      ReconcileFrame(s, step.order);
    }
  }

  lemma SeenIsContacted(p: Presence, status: string, meta: Option<Op.Meta>, now: string)
    ensures Op.Seen(p, status, meta, now) == Contacted(p, status, meta, now)
  {
  }

  lemma PresenceOfCall(s: State, step: Step, k: string, card: Option<Card>, admitted: bool)
    requires Knows(s, k, card, admitted) && (step.MarkSeen? || step.CreateNode?)
    ensures Op.PresenceOf(Do(s, step), k) == PresenceAfter(s, step, k, card, admitted, Op.PresenceOf(s, k))
  {
    if step.MarkSeen? {
      var status := if admitted then "online" else "pending";
      SeenIsContacted(Op.PresenceOf(s, k), status, step.meta, step.now);
      hide Op.Seen, Contacted;
    }
  }

  lemma PresenceOfRegistration(s: State, node: string, name: string, token: string, meta: Option<Op.Meta>, now: string,
                               k: string, card: Option<Card>, admitted: bool)
    requires Knows(s, k, card, admitted)
    ensures Op.PresenceOf(Op.Register(s, node, name, token, meta, now), k) ==
            PresenceAfter(s, Register(node, name, token, meta, now), k, card, admitted, Op.PresenceOf(s, k))
  {
    SeenIsContacted(if card.Some? then Op.PresenceOf(s, k) else UNSEEN, "pending", meta, now);
    hide Op.Seen, Contacted, Op.RegisteredNodes;
  }

  lemma PresenceOfJoin(s: State, domain: string, node: string, name: string, token: string, meta: Option<Op.Meta>,
                       now: string, k: string, card: Option<Card>, admitted: bool)
    requires Knows(s, k, card, admitted)
    ensures Op.PresenceOf(Op.Join(s, domain, node, name, token, meta, now), k) ==
            PresenceAfter(s, Join(domain, node, name, token, meta, now), k, card, admitted, Op.PresenceOf(s, k))
  {
    SeenIsContacted(if card.Some? then Op.PresenceOf(s, k) else UNSEEN, "pending", meta, now);
    hide Op.Seen, Contacted, Op.JoinedNodes;
  }

  lemma PresenceOfDeletion(s: State, node: string, k: string, card: Option<Card>, admitted: bool)
    requires Knows(s, k, card, admitted)
    ensures Op.PresenceOf(Op.DeleteNode(s, node), k) ==
            PresenceAfter(s, Delete(node), k, card, admitted, Op.PresenceOf(s, k))
  {
    if node != "" && node in s.nodes {
      DeleteFrame(s, node);
      hide Op.DeleteNode;
    }
  }

  lemma PresenceOfApproval(s: State, node: string, a: Op.Approval, single: string, now: string,
                           k: string, card: Option<Card>, admitted: bool)
    ensures Op.PresenceOf(Op.Approve(s, node, a, single, now), k) ==
            PresenceAfter(s, Approve(node, a, single, now), k, card, admitted, Op.PresenceOf(s, k))
  {
    hide Op.ApproveError, Op.ApprovedMember, Op.ApprovalDomain, Names.MemberKey;
  }

  lemma PresenceStep(s: State, step: Step, k: string, card: Option<Card>, admitted: bool)
    requires Sound(s) && Possible(s, step) && Knows(s, k, card, admitted)
    ensures Op.PresenceOf(Do(s, step), k) == PresenceAfter(s, step, k, card, admitted, Op.PresenceOf(s, k))
  {
    hide Sound, Knows, Op.PresenceOf;
    if step.MarkSeen? || step.CreateNode? {
      PresenceOfCall(s, step, k, card, admitted);
    } else if step.Register? {
      PresenceOfRegistration(s, step.node, step.name, step.token, step.meta, step.now, k, card, admitted);
    } else if step.Join? {
      PresenceOfJoin(s, step.domain, step.node, step.name, step.token, step.meta, step.now, k, card, admitted);
    } else if step.Delete? {
      PresenceOfDeletion(s, step.node, k, card, admitted);
    } else if step.Approve? {
      PresenceOfApproval(s, step.node, step.approval, step.single, step.now, k, card, admitted);
    } else {
      OtherPresence(s, step, k);
      hide Do;
    }
  }

  lemma {:induction false} PresenceIsOfCalls(steps: seq<Step>, k: string)
    requires IsRun(EMPTY, steps)
    ensures Op.PresenceOf(Exec(EMPTY, steps), k) == PresenceOfRun(steps, k)
  {
    if steps != [] {
      var init, last := steps[..|steps| - 1], steps[|steps| - 1];
      PresenceIsOfCalls(init, k);
      NodesAreAdmitted(init, k);
      ReachableIsSound(init);
      hide Do, Possible, Sound, PresenceAfter, Knows, Op.PresenceOf;
      PresenceStep(Exec(EMPTY, init), last, k, CardOf(init, k), Admitted(init, k));
    } else {
      assert Op.PresenceOf(EMPTY, k) == UNSEEN;
    }
  }

  // ---------- Domains ----------

  /** A domain is what it was created as, the first time. */
  function DomainOf(steps: seq<Step>, k: string): Option<Domain> {
    if steps == [] then None
    else
      var known, last := DomainOf(steps[..|steps| - 1], k), steps[|steps| - 1];
      if known.None? && last.CreateDomain? && last.id == k != "" then
        Some(Domain(k, if last.name != "" then last.name else k, last.joinCode, last.now, last.description))
      else known
  }

  lemma OtherDomains(s: State, step: Step)
    requires Sound(s) && Possible(s, step) && !step.CreateDomain?
    ensures Do(s, step).domains == s.domains
  {
    hide SoundNodes, SoundMembers, SoundBindings, SoundRows, SoundDomains, Rec.Prune, Rec.PlaceAll, Op.PutRows;
    hide Op.QueueOf, Op.RegisteredNodes, Op.JoinedNodes, Op.PendingPresence, Op.IdentityError, Op.JoinError;
    hide Op.ServedEndpoints;
    if step.Delete? {
      if step.node != "" && step.node in s.nodes {
        DeleteFrame(s, step.node);
      }
    } else if step.Approve? {
      hide Op.ApproveError, Op.ApprovedMember, Op.ApprovalDomain;
    }
  }

  /** In every reachable state domains are the ones created, and never change or go. */
  lemma {:induction false} DomainsAreCreated(steps: seq<Step>, k: string)
    requires IsRun(EMPTY, steps)
    ensures var s, domain := Exec(EMPTY, steps), DomainOf(steps, k);
            (k in s.domains <==> domain.Some?) && (k in s.domains ==> s.domains[k] == domain.value)
  {
    if steps != [] {
      var init, last := steps[..|steps| - 1], steps[|steps| - 1];
      DomainsAreCreated(init, k);
      ReachableIsSound(init);
      hide Possible, Sound;
      if !last.CreateDomain? {
        OtherDomains(Exec(EMPTY, init), last);
        hide Do;
      }
    }
  }
}
