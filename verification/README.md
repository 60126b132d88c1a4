# Control plane of a WireGuard/Natter endpoint helper: a verified model

The daemon keeps nodes, domains, memberships, bindings, inventories, leases, endpoints and per-node command
queues behind one mutex and two files. Agents poll it, report stale peers and new public endpoints; it derives
bindings from memberships and inventories, and tells clients which endpoint a server interface has now. This
project models that state machine and proves what it keeps over whole runs, together with the self-contained
algorithms around it: the wg.conf line editor, the command splitter, the bounded event log, the natter cooldown
and the client's monitor.

How the pieces fit:

- `Model`, `Names`, `CommandQueue`, `Operations` and `Reconciler` say what each store operation does, as functions
  of the state; `LoopOrders` says in which orders the reconcile loops can run. `Store` is the class that does it,
  with map fields, loops over map keys in any order and the two saved files; each method is proved to compute its
  function and to keep the files in step.
- `Links`, `Records` and `Identity` say the same of the tables themselves, without those functions: what a pass stores
  for which memberships and rows, what approvals, reports and opening leave, and over whole runs who is known and
  approved.
- `Runs` lets any store operations interleave, which is what the store's mutex allows concurrent requests.
  A fan-out is not one step there: the lease is saved in one step, and each client is told in a step of its own.
  `Boundaries`, `ByHand`, `Convergence` and `SafeNames` prove what holds over all such runs, `Agreement` which steps
  keep it exactly, and `Collisions` exhibits a run to a world in which ids collide.
- `Handlers` gives each request as the list of store operations it performs, and transfers the results to
  sequences of requests; `DaemonServer` is the daemon class whose handlers are proved to perform those lists.
  `Requests` says what each accepted request does to the records, and `Callers` whose requests are accepted.
- `Persistence` is about the two files: what is saved, what opening reads, and migration of older files;
  `Opening` says which files give a store with the integrity of a run.
- `WGConf`, with `ConfFiles` on files as they are written, `Tokenizer`, `EventLog`, `Cooldown` and `Monitor` stand alone, on the string operations of `Text`.

Facts about the code that the proofs bring out:

- Automatic ids can collide when names contain dashes, and which binding then holds the id depends on map
  iteration order (`Collisions.CollidingWorldHasTwoOutcomes`); `LoopOrders.OneOutcomeIff` says exactly when it
  does. Names that are clean and of which none starts another, each followed by its separator, never collide, and
  exactly those (`Names.DomainsCollideIff` and its three siblings); the identities agents generate are such names.
- With distinct ids the order matters exactly when a missing binding is covered only by automatic entries that the
  same pass rewrites (`LoopOrders.DistinctIdsOneOutcomeIff`); this needs an automatic entry stored under a key that
  is not its own id, which no run from an empty store produces.
- What the command line adds by hand has no domain, and no pass rewrites or deletes it (`ByHand.RunKeepsManual`,
  `Handlers.AddedByHandStays`). Passes do delete entries that are not marked automatic when they have a domain and
  carry their own automatic id (`Boundaries.DeletedIff`); such records can only come from a state file or a caller
  of the store's own method.
- Adding a known id again with another server interface leaves the old endpoint in place, which then belongs to no
  lease of the new one (`Agreement.AddKeepsCurrentIff`, `Agreement.UnleasedMisfits`).
- On the approval page a stored command is joined with spaces and split again: tokens with blanks, quotes or
  backslashes do not survive, but for a last backslash (`Tokenizer.SplitInvertsPlainJoinIff`).
- Keys are names with a slash between them, so names with slashes can share memberships, inventory rows
  (`Names.SlashedNamesMeet`), cooldowns, and the monitor's counts (`Monitor.NamesakesShare`); the results about the
  tables themselves say where they need names without.
- Deleting a node keeps the domain it asked to join (`Runs.DeletionKeepsPendingDomain`).
- Two natter.result of one server interface handled at once can leave a client with the older endpoint
  (`Convergence.RacingReportsDiverge`).
- A command whose result arrives while it is pending is never delivered (`CommandQueue.SkippedIsNeverHanded`).
- The cooldown is forgotten when the daemon restarts (`Handlers.RestartForgetsCooldown`).
- A legacy binding with half an endpoint loses that half at the first restart, not at migration
  (`Persistence.MigratedRestartIff`).
- The wg.conf editor glues the endpoint to an unterminated last line (`WGConf.GluedToLastLine`), where it is lost to
  readers unless that line is blank (`WGConf.UpdateReadsIff`, `WGConf.GluedToTheKey`), and an endpoint
  line before the public key is not replaced but followed by a second one; reading takes the last.
- An event line of 64 KiB or more hides itself and everything newer from readers until it is rotated out
  (`EventLog.ReadReturnsNewest`).

Conventions. Times, random ids, generated tokens and join codes are parameters; command ids are drawn from a
function parameter. Tokens are opaque and stored as themselves. Choices made by map iteration order are ghost
results of the methods and data of the steps. Saving always succeeds.

## Model

| member | source | states |
|---|---|---|
| `Store.Store.ReconcileAutoBindings` | internal/store/store.go:859-972 | whatever order its four nested map loops run in, the pass leaves the table of `Reconciler.Reconcile` for some enumeration of the desired bindings, reports the bindings it created, and leaves both files holding what memory holds; from a state with integrity, every automatic entry under the id of a link is the binding of such a link, told field by field by `Links.IsOf` from the two memberships and the two inventory rows |
| `Links.RunsHoldLinks` | internal/store/store.go:892-907 | read off the tables of memberships and inventory: after a pass at the end of any run, an automatic entry under the id of a link is the binding of a link with that id: its server node and interface name a server row whose public key is its peer key and is among the peers of the client row named by its client node and interface; its config type is the client membership's, else that row's, else openwrt_uci; its path is that row's; its reload method is the membership's, else none |
| `Links.RunsPass` | internal/store/store.go:859-972 | after a pass at the end of any run whose bindings were added as the command line does: every link has an entry under its id, automatic ones being bindings of such links; everything else is as it was, except that automatic entries go that no link wants and, where domains have no slash, no memberships back |
| `Reconciler.CreatedAreNew` | internal/store/store.go:892-946 | the bindings a pass reports as created are those under ids that were free before, once each |
| `Store.Store.PlaceDesired` | internal/store/store.go:866-946 | the nested loops place the desired bindings in an order that the maps choose and the loops allow |
| `Store.Store.GroupMembers` | internal/store/store.go:866-873 | the approved members of each domain, each once, in an order the map chooses |
| `Store.Store.InterfacesFor` | internal/store/store.go:1112-1124 | exactly the rows a membership speaks for, each once, in an order the map chooses |
| `LoopOrders.LoopOrderEnumerates` | internal/store/store.go:874-946 | every order the four loops can run in visits exactly the bindings derived from two approved memberships of one domain and two inventory rows |
| `LoopOrders.LoopOrderEndingIn` | internal/store/store.go:874-946 | for every desired binding the loops can run in an order that ends in it |
| `LoopOrders.OneOutcomeIff` | internal/store/store.go:874-946 | on tables whose automatic entries sit under their own ids, a pass has one outcome over all orders of the loops if and only if different desired bindings sharing an id cannot get in: the id is taken by an entry that is not automatic, or is free and entries that are not automatic cover them |
| `LoopOrders.CollisionDiverges` | internal/store/store.go:908-919 | wherever that fails for two desired bindings, two orders of the loops leave one and the other under the shared id |
| `Reconciler.InertCollisionsClosedForm` | internal/store/store.go:892-946 | where it holds, every enumeration leaves the closed form of the desired bindings that can get in |
| `Reconciler.LastPlacedWins` | internal/store/store.go:908-919 | of bindings sharing an id that one of them can get into, the one placed last stays |
| `Collisions.TwoDesiredShareAnId` | internal/store/store.go:906-907 | in a world that a run of domain and node creations, approvals and reports reaches from the empty store (domain a-b with server c, domain a with server b-c, one common client), two different bindings are desired under one id |
| `Collisions.CollidingWorldHasTwoOutcomes` | internal/store/store.go:866-946 | there a pass on the empty table depends on the order of the loops |
| `Store.Store.PruneBindings` | internal/store/store.go:948-964 | the second loop deletes exactly the automatic-class entries that are neither desired nor backed by memberships, each with its endpoint; no removal means no change |
| `Store.Store.BindingExists` | internal/store/store.go:1126-1138 | the search succeeds if and only if some entry agrees on the six fields |
| `Reconciler.PlaceAllClosedForm` | internal/store/store.go:892-946 | with distinct ids and stable covers, every order of the desired bindings ends in one table given entry by entry: desired automatic entries equal the derived binding, missing ones are created unless covered, others stay |
| `LoopOrders.DistinctIdsOneOutcomeIff` | internal/store/store.go:874-946 | for any table of bindings, also one no run produces, and distinct ids: a pass has one outcome over all orders of the loops if and only if every missing binding that is covered is covered by an entry the pass leaves alone; memberships and rows sit under their own keys, as in every reachable state |
| `LoopOrders.OrderMatters` | internal/store/store.go:874-946 | where covers are not stable, two orders of the loops end differently, one creating a binding the other never has |
| `LoopOrders.LoopOrderStartingWith` | internal/store/store.go:874-946 | with memberships and rows under their own keys, for every desired binding the loops can run in an order that visits it first and never again |
| `Reconciler.KeyedIsStable` | internal/store/store.go:906-919 | covers are stable in every table whose automatic entries sit under their own ids |
| `Reconciler.ReconcileClosedForm` | internal/store/store.go:859-972 | the whole pass, deletions included, in closed form |
| `Reconciler.PlaceAllFrame` | internal/store/store.go:908-946 | colliding ids or not: entries not marked automatic are never rewritten, placing deletes nothing, every new value is a desired binding under its own id |
| `Reconciler.PlaceAllReflects` | internal/store/store.go:892-946 | an automatic entry under a placed id equals one of the bindings placed under that id |
| `Reconciler.SecondPassKeepsKeys` | internal/store/store.go:892-966 | a second pass over an unchanged world creates and deletes nothing, even when ids collide |
| `Reconciler.SecondPassIsIdentity` | internal/store/store.go:892-966 | when ids do not collide the second pass changes nothing at all |
| `Boundaries.DeletedIff` | internal/store/store.go:948-964 | a pass deletes a binding if and only if it is automatic or carries its own automatic id, is not desired, and no memberships back it |
| `Boundaries.EndpointDroppedIff` | internal/store/store.go:955-956 | a stored endpoint goes if and only if its binding goes |
| `Boundaries.ManualAutoNamedIsDeleted` | internal/store/store.go:1342-1347 | an entry that is not marked automatic but has a domain and carries the automatic id of its own names, read from a state file or handed to the store's own method, is deleted by the next pass unless it is desired or memberships back it |
| `ByHand.RunKeepsManual` | internal/store/store.go:731-754 | from any state with integrity, over every run that neither adds its id again nor deletes one of its nodes, an entry that is not automatic and of no domain stays exactly as it is, whatever passes come in between, and keeps having an endpoint if it has one |
| `ByHand.AddedStays` | internal/store/store.go:731-754 | so does, in runs from the empty store, every binding added by hand as the command line adds them |
| `ByHand.RunsComplete` | internal/store/store.go:892-966 | in every state reached with such bindings, no entry stands in for a missing desired binding, and after a pass every desired binding has an entry under its id, which is one of the desired bindings of that id or was added by hand; only automatic entries are rewritten or deleted |
| `ByHand.InertIff` | internal/store/store.go:908-920 | there a desired binding cannot get in if and only if its id was taken by hand |
| `SafeNames.SafeReconcile` | internal/store/store.go:859-972 | in a reachable world whose names are clean and pairwise apart, dashes allowed, a pass has one outcome, in closed form, for every order |
| `Names.CleanIDShape` | internal/store/store.go:1180-1190 | every cleaned id is non-empty, over letters, digits, dot, underscore and dash, with no doubled, leading or trailing dash |
| `Names.CleanIDFixedPoints` | internal/store/store.go:1180-1190 | the texts of that shape are exactly the ones cleaning leaves alone |
| `Names.CleanIDIdempotent` | internal/store/store.go:1180-1190 | cleaning twice is cleaning once |
| `Names.CleanIDKeepsWords` | internal/store/store.go:1180-1190 | a cleaned id is the text's words, which everything but letters, digits, dot and underscore separates, joined with dashes in their order, or `binding` when there are none |
| `Names.SlashedNamesMeet` | internal/store/store.go:1172-1178 | names with slashes share membership and inventory keys with other names |
| `Names.AutoBindingIDInjective` | internal/store/store.go:1168-1170 | different five-tuples of non-empty dash-free names get different automatic ids |
| `Names.AutoBindingIDSeparates` | internal/store/store.go:1168-1170 | so do clean names with dashes, if per position no name followed by its separator starts another one followed by it; the separator is a dash, and `-to-` behind server interfaces |
| `Names.DomainsCollideIff` | internal/store/store.go:1168-1170 | that is exactly what two clean domains need: they are apart if and only if no clean servers make the ids equal, whatever the rest is |
| `Names.ServersCollideIff` | internal/store/store.go:1168-1170 | the same for two servers, over all server interfaces |
| `Names.IfacesCollideIff` | internal/store/store.go:1168-1170 | the same for two server interfaces, over all clients |
| `Names.ClientsCollideIff` | internal/store/store.go:1168-1170 | the same for two clients, over all client interfaces |
| `Names.GeneratedArePrefixFree` | internal/agent/agent.go:212-212 | the identities agents make up for themselves are clean and apart in this sense |
| `Names.DashedNamesCollide` | internal/store/store.go:1168-1170 | domain a-b with server c and domain a with server b-c get the same id |
| `Store.Store.ApproveNode` | internal/store/store.go:643-729 | refused exactly for an unknown node, no or unknown domain, or a membership without role or interface; otherwise the new state is the specified one, in memory and in both files |
| `Store.Store.SingleMemberDomain` | internal/store/store.go:1210-1222 | finds the only domain of the node's memberships, in any iteration order |
| `Store.Store.UpsertJoinedNode` | internal/store/store.go:518-569 | a join with another token or an unknown domain changes nothing; otherwise a newcomer is stored unapproved under its token, a known node keeps its record, and the node is pending, in the domain it asks for, with the time and versions of the call |
| `Store.Store.UpsertPendingNode` | internal/store/store.go:571-624 | a registration with another token changes nothing; otherwise a newcomer is stored unapproved under its token, a known node keeps its record but for a name it did not have, and the node is pending with the time and versions of the call |
| `Store.Store.CreateDomain` | internal/store/store.go:472-492 | an empty or taken id is refused and changes nothing |
| `Store.Store.DomainByJoinCode` | internal/store/store.go:507-516 | finds a domain with the code if and only if there is one |
| `Store.Store.MarkSeen` | internal/store/store.go:453-470 | only the node's presence changes |
| `Store.Store.AddBinding` | internal/store/store.go:731-754 | stores the binding with defaults and without its inline endpoint; an endpoint already stored for the id survives unless a full one is given |
| `Store.Store.DeleteNode` | internal/store/store.go:756-802 | erases the node's rows from all tables |
| `Store.Store.UpdateWGInterfaces` | internal/store/store.go:804-825 | replaces the node's inventory by the reported rows, a later row of a name winning; an empty report changes nothing |
| `Store.Store.QueueCommand` | internal/store/store.go:974-985 | appends one pending command to one queue |
| `Store.Store.NextCommand` | internal/store/store.go:987-1000 | hands out the first pending command and marks it delivered |
| `Store.Store.CompleteCommand` | internal/store/store.go:1002-1031 | marks the first command with the id completed |
| `Store.Store.SaveEndpointLease` | internal/store/store.go:1033-1059 | appends the lease, stores its endpoint for exactly the enabled bindings of that server interface, and returns those bindings once each |
| `Records.ApprovalRefusedIff` | internal/store/store.go:643-698 | an approval is refused if and only if the node is unknown, the domain it names, or the node asked for, or is its only one, is missing or unknown, or neither it nor the membership known there gives a role and an interface |
| `Records.ApprovalMerges` | internal/store/store.go:658-700 | the membership it stores has every field it gives and else the known one, how a client of the node's type applies endpoints where that is still open, and the natter settings changed only if it manages them: to the given ones, or switched off |
| `Records.ApprovalKeepsOthers` | internal/store/store.go:700-729 | no other membership, node, presence or pending domain changes, and nothing else does |
| `Records.AddedBinding` | internal/store/store.go:731-754 | a binding added by hand is stored field by field, with defaults, enabled, and its endpoint, if complete, in the table of endpoints |
| `Records.InventoryReplaces` | internal/store/store.go:804-825 | a report leaves exactly the last row of each name it has, as the node's, and the rows of other nodes |
| `Identity.NodesAreAdmitted` | internal/store/store.go:419-433 | over every interleaving from the empty store: a node is known if and only if it was created, or introduced itself by a registration or join that was not refused, since it was last deleted, by that token and name; and it is approved if and only if since then it was created or an approval of it was not refused |
| `Identity.PresenceIsOfCalls` | internal/store/store.go:453-470 | over the same runs a node's presence is that of its last calls: online if it was admitted when it called last, pending if not or if it introduced itself since, offline when an approval found it pending |
| `Identity.DomainsAreCreated` | internal/store/store.go:472-492 | over the same runs a domain is what it was created as the first time, and never goes |
| `Runs.ReachableIsSound` | internal/store/store.go:643-802 | in every state any interleaving of store operations reaches: memberships sit under their own key, in existing domains, of existing approved nodes, with role and interface; endpoints belong to bindings; inventory rows and bindings sit under their keys |
| `Runs.DeletionIsComplete` | internal/store/store.go:766-801 | nothing of a deleted node is left in any table but its pending domain; every record, presence, queue, membership, row, binding and endpoint that is not its own is unchanged, and the other leases stay in their order |
| `Runs.DeletionKeepsPendingDomain` | internal/store/store.go:766-791 | a deleted node that registers again is approved, by an approval that names no domain but a role and an interface, into the domain it once asked to join |
| `CommandQueue.QueueHistory` | internal/store/store.go:974-1031 | over every interleaving a queue only grows, statuses only move forward, and positions are handed out in strictly increasing order, each at most once |
| `CommandQueue.QueueHoldsReported` | internal/store/store.go:974-1031 | from an empty queue, over every interleaving: its commands are the ones queued, in order, and each is completed if and only if a result was reported for its id while it was the first with it, and keeps the last such result |
| `CommandQueue.InOrderIff` | internal/store/store.go:987-1031 | what was handed out is a prefix of the queue with only pending commands behind, if and only if only delivered commands were completed |
| `CommandQueue.SkippedIsNeverHanded` | internal/store/store.go:987-1031 | over any run from any queue, what left the pending state was handed out or completed while pending, never both: a command completed while pending is never handed out |
| `CommandQueue.SkippedWhenCompletedEarly` | internal/store/store.go:1002-1031 | the shortest run that shows it: queued, completed, nothing to hand out |
| `Convergence.RunsStayCurrent` | internal/daemon/daemon.go:351-377 | over every interleaving of store operations with the steps of fan-outs, where endpoints keep their routes (ids do not collide there, and a binding added again under an id with an endpoint has the same server interface and client) and each server interface has one natter.result in hand: each stored endpoint is the newest lease of its binding's server interface, and what the client was last told or is about to be told |
| `Convergence.Converged` | internal/daemon/daemon.go:351-377 | over the same runs, once the fan-out is done and the client's queue is drained by handing out, the last endpoint.apply handed to the client for the binding carries the stored endpoint and the binding's client interface |
| `Agreement.PassKeepsCurrentIff` | internal/store/store.go:908-966 | a pass keeps every stored endpoint the newest lease and what the client was told last or is about to be, over all orders of the loops, if and only if that holds of every desired binding that meets an automatic entry with an endpoint under its id |
| `Agreement.AddKeepsCurrentIff` | internal/store/store.go:731-754 | adding a binding under a known or a new id keeps it if and only if it holds of the new binding and the endpoint stored under its id afterwards, given or found there |
| `Agreement.SameRouteFits` | internal/store/store.go:731-754 | which is so when the server interface and the client stay, or no endpoint is stored under the id |
| `Agreement.UnleasedMisfits` | internal/store/store.go:731-754 | and is not when an endpoint is stored under the id and the new server interface has no lease |
| `Convergence.QueueRefines` | internal/store/store.go:974-1031 | in every run each node's queue, and what the node was handed, are those of a single queue going through its own pushes, deliveries and completions since the node was last deleted |
| `Convergence.DeliveryIsFifoIff` | internal/store/store.go:974-1031 | a node is handed the front of its queue, in order, if and only if none of its commands was completed before it was handed out |
| `Convergence.RacingReportsDiverge` | internal/daemon/daemon.go:351-377 | after any run in which a binding is served, two interleaved natter.result of its server interface are a run again, not an orderly one, and leave the client told the older endpoint |
| `Convergence.AddedIsServed` | internal/store/store.go:740-743 | such runs exist: a binding added by hand is served at once |
| `SafeNames.SafeRunsConverge` | internal/daemon/daemon.go:351-377 | convergence of interleaved runs for names that are clean and pairwise apart, bindings added by hand without an endpoint, under ids that automatic bindings do not use and with the old route where the id has an endpoint, and orderly fan-outs; the client's queue must be drained by handing out |
| `SafeNames.SafeIsUnambiguous` | internal/store/store.go:906-919 | with such names desired bindings never share an id, and meet only automatic entries about the same interfaces |
| `SafeNames.SafeRunIsApart` | internal/store/store.go:731-754 | over every run whose inputs use such names, and in which bindings added by hand keep the route of an id with an endpoint, stored endpoints keep their routes |
| `Boundaries.SettledRunsMatch` | internal/daemon/daemon.go:239-296 | over every interleaving: once a pass has followed the last approval or deletion, every automatic binding names a server membership and a client membership with those roles on its interfaces |
| `Boundaries.ReconcileSettles` | internal/store/store.go:948-964 | one pass establishes this from any table, even with colliding ids |
| `Links.SettledRunsBacked` | internal/daemon/daemon.go:239-296 | where domains have no slash, this is what the tables show: there are two memberships of the binding's domain, of its server node as a server on its server interface and of its client node as a client on its client interface |
| `Boundaries.GapRunKeeps` | internal/store/store.go:804-825 | over every run that leaves memberships alone and re-adds no id, no binding backed by memberships, and no endpoint of one, is lost, however the inventory comes and goes |
| `Boundaries.AutoIdsNeverShrink` | internal/store/store.go:906-957 | in particular the set of automatic binding ids never shrinks |
| `Requests.RequestsDo` | internal/daemon/daemon.go:138-428 | after whatever was served before, each accepted request does what `Requests.Does` says of the records themselves, without the store operations: which node, presence, inventory rows, pending domain, membership, queue, lease and endpoints change and to what, that nothing else changes, and that a pass has run where there is one |
| `Requests.ReportsTell` | internal/daemon/daemon.go:351-377 | after an accepted natter.result, for every enabled binding of the reporting node on the lease's interface, the last endpoint.apply for it in its client's queue is pending and has the binding's client interface, peer key, config type, config path and reload method, and the lease's address |
| `Requests.UnnamedApprovals` | internal/store/store.go:1210-1222 | an approval that names no domain, of a node with none pending, is taken only if the node has memberships and all are of one domain, into which it then goes |
| `Callers.NodesByCalls` | internal/daemon/daemon.go:138-296 | over any sequence of requests: a node is known by the token it was created with last, or introduced itself with first, since its last deletion, and is approved if and only if an administrator created or approved it since |
| `Callers.CallersAreLetIn` | internal/daemon/daemon.go:430-444 | polls, results and reports are taken if and only if they come from such a node with that token and say what they must; refused ones change nothing |
| `Callers.NewcomersAreRefused` | internal/daemon/daemon.go:440-442 | a node that has only registered or joined, however often, is refused every poll, result and report |
| `Callers.IntroductionsAreTaken` | internal/store/store.go:518-624 | registrations and joins are taken if and only if the node is unknown or known by their token, a join only with the join code of a domain |
| `Callers.AdministrationIsTaken` | internal/daemon/daemon.go:213-296 | administration is taken if and only if it comes with the administrator's token, where there is one, and names a new domain, a known node, or a server interface, an approval only where it leaves a role and an interface in an existing domain |
| `Callers.ReportsQueueIff` | internal/daemon/daemon.go:390-413 | where server nodes have no slash: an accepted report of an unreachable peer queues one natter.run for its server interface on its server node if and only if it is at least a cooldown later than every report about that interface since the daemon started that did; otherwise it changes nothing |
| `Handlers.HandlerBoundaries` | internal/daemon/daemon.go:138-428 | between requests, after any sequence of requests: referential integrity, and automatic bindings agree with memberships |
| `Handlers.HandlersConverge` | internal/daemon/daemon.go:338-413 | between requests, as long as stored endpoints keep their routes: each is the newest lease and, once the client's queue is drained by handing out, what the client was handed last |
| `Handlers.SafeNamesAreApart` | internal/daemon/daemon.go:138-178 | that condition holds for all calls whose names are clean and pairwise apart |
| `Handlers.PassesLeaveNoneMissing` | internal/daemon/daemon.go:156-296 | after every accepted join, poll, approval or deletion, whatever was served and added by hand before, no desired binding is missing: its id holds a desired binding of that id, or one added by hand |
| `Handlers.AddedByHandStays` | cmd/wgnh/main.go:149-168 | a binding added on the command line is stored with its flags field by field, openwrt_uci and none where it leaves the two defaults empty, and stays so through all later requests, passes and restarts, until its id is added again or one of its nodes is deleted |
| `Handlers.LastRunsAreAccepted` | internal/daemon/daemon.go:390-413 | the daemon's table of last runs is exactly the one of the attempts accepted since it was started |
| `Handlers.QueuesNatterIff` | internal/daemon/daemon.go:398-411 | during one life of the daemon, a report queues a natter.run if and only if it is at least a cooldown later than every report that did |
| `Handlers.RestartForgetsCooldown` | internal/daemon/daemon.go:28-36 | a restart keeps what is stored and forgets the last runs: the next report queues a natter.run |
| `Handlers.CallsAreTidy` | internal/daemon/daemon.go:351-377 | calls served one after another leave no client to be told, and no pass meets a fan-out under way |
| `DaemonServer.Server.AgentRegister` | internal/daemon/daemon.go:138-154 | performs exactly its script of store operations, and answers with an error exactly when refused |
| `DaemonServer.Server.AgentJoin` | internal/daemon/daemon.go:156-178 | the same for a join: find the domain, join, take the inventory, reconcile |
| `DaemonServer.Server.AgentPoll` | internal/daemon/daemon.go:180-188 | the same for a poll up to its wait: mark seen, take the inventory, reconcile |
| `DaemonServer.Server.AgentFetch` | internal/daemon/daemon.go:192-202 | one round of the wait hands out the next command |
| `DaemonServer.Server.ActionResult` | internal/daemon/daemon.go:344-350 | an authenticated result completes the command |
| `DaemonServer.Server.NatterReport` | internal/daemon/daemon.go:351-377 | an acceptable lease is saved and told to every client it concerns: each is sent exactly one order per binding, with that binding's client interface, peer key, config type, config path and reload method and the lease's address |
| `DaemonServer.Server.TellClients` | internal/daemon/daemon.go:356-375 | the fan-out loop queues these orders, one per matched binding in their order, under ids of their own |
| `DaemonServer.Server.PeerUnreachable` | internal/daemon/daemon.go:390-413 | queues a natter.run and notes the time exactly when the cooldown allows it |
| `DaemonServer.Server.AdminCreateDomain` | internal/daemon/daemon.go:213-237 | refused without the admin token, an id, or with a taken id |
| `DaemonServer.Server.AdminApprove` | internal/daemon/daemon.go:239-281 | an accepted approval is followed by a pass before the answer |
| `DaemonServer.Server.AdminDelete` | internal/daemon/daemon.go:283-296 | an accepted deletion is followed by a pass before the answer |
| `DaemonServer.Server.AdminRunNatter` | internal/daemon/daemon.go:415-428 | queues a natter.run regardless of the cooldown |
| `Cooldown.AcceptedIff` | internal/daemon/daemon.go:398-411 | an attempt is accepted if and only if it is at least a cooldown later than every accepted attempt of its server interface, in whatever order the lock is taken |
| `Cooldown.AtMostPerWindow` | internal/daemon/daemon.go:38-42 | accepted times are at least a cooldown apart, and a closed window of length w holds at most w / cooldown + 1 of them |
| `Monitor.Watcher.Tick` | internal/agent/agent.go:303-349 | a tick notes every probe in order and sends what the tables call for |
| `Monitor.SentIsDue` | internal/agent/agent.go:303-349 | however peers interleave, what is sent about the peer of a binding, or about a key on an interface for peers without one, depends on its own probes alone: unreachable when the stale count since the last fresh probe reaches the threshold, recovered when a count at or above it ends; provided that no other peer goes by the same name |
| `Monitor.SlashlessIsAlone` | internal/agent/agent.go:305-308 | which is so when neither binding ids nor interface names have a slash |
| `Monitor.NamesakesShare` | internal/agent/agent.go:305-308 | and needed: for any two peers of one name there are probes for which it fails |
| `Monitor.MessagesHaveCauses` | internal/agent/agent.go:303-349 | every message is about the peer of a sighting of its own, a stale one for unreachable and a fresh one for recovered, in their order |
| `Monitor.MonitorReports` | internal/agent/agent.go:276-349 | under the same condition reports about a peer alternate starting with unreachable, and k unreachable reports over n probes satisfy k * (t + 1) <= n + 1, t being the configured threshold, or three |
| `Monitor.BoundIsSharp` | internal/agent/agent.go:320-349 | for every k and threshold some probe sequence meets that bound with equality |
| `Monitor.TicksCompose` | internal/agent/agent.go:293-349 | consecutive ticks amount to one long list of sightings |
| `WGConf.UpdateWGConf` | internal/wgconfig/wgconfig.go:60-120 | the line editor computes the specified update |
| `WGConf.ScanFile` | internal/wgconfig/wgconfig.go:70-98 | the scanning loop finds whether some peer block has the key, its last endpoint line after the key, and its end |
| `WGConf.JoinSplit` | internal/wgconfig/wgconfig.go:226-235 | joining the split lines restores any text |
| `WGConf.SplitJoinIff` | internal/wgconfig/wgconfig.go:226-235 | splitting restores joined lines if and only if they have the shape of split lines |
| `WGConf.EditParses` | internal/wgconfig/wgconfig.go:60-120 | the update fails if and only if no peer block has the key; otherwise reading the edited lines sees the first such block with the new endpoint and nothing else changed |
| `WGConf.UpdateCommutesWithReading` | internal/wgconfig/wgconfig.go:60-120 | the same for whole files and newline-free endpoints, when the new line stands on a line of its own; the lines stay byte for byte the old ones up to the one edit |
| `WGConf.EditedLinesIff` | internal/wgconfig/wgconfig.go:110-116 | the written file has exactly the edited lines if and only if the new line does not go behind an unterminated last line |
| `WGConf.TerminatedStandsAlone` | internal/wgconfig/wgconfig.go:110-116 | which never happens in a file that ends in a newline |
| `WGConf.GluedToLastLine` | internal/wgconfig/wgconfig.go:110-116 | where it does, the endpoint is glued to that last line |
| `WGConf.UpdateReadsIff` | internal/wgconfig/wgconfig.go:60-120 | for newline-free endpoints and every file with a matching block: reading the written file sees the first such block with the new endpoint and nothing else changed if and only if the new line stands alone, or goes behind a blank last line, or behind a last line that is a comment in a block whose endpoint is the new one already |
| `WGConf.GluedToTheKey` | internal/wgconfig/wgconfig.go:110-116 | a file where it does not, for any endpoint: its last line holds the key and has no newline |
| `WGConf.UpdateIsIdempotentIff` | internal/wgconfig/wgconfig.go:99-119 | for newline-free endpoints, repeating an update reports no change and writes nothing if and only if the new line stood on its own line or went behind a blank one |
| `WGConf.ChangedIffDifferent` | internal/wgconfig/wgconfig.go:99-119 | for every text and endpoint, a change is reported if and only if the written file differs; a dry run reports the same and writes nothing |
| `ConfFiles.WrittenReads` | internal/wgconfig/wgconfig.go:70-98 | reading undoes writing: a file written from sections, each a header, settings and perhaps an endpoint, reads as those sections |
| `ConfFiles.WrittenUpdates` | internal/wgconfig/wgconfig.go:60-120 | updating a written file fails if and only if no section is headed [Peer], in any case, with the key as a public key; otherwise it leaves a file that reads as the same sections, the first such one with the new endpoint |
| `ConfFiles.RemarkMeansNothing` | internal/wgconfig/wgconfig.go:83-86 | a line that is blank or starts with a # means nothing, whatever it says |
| `Text.TrimCommutes` | internal/wgconfig/wgconfig.go:72 | the two ends of a line can be trimmed in either order |
| `Tokenizer.SplitCommand` | cmd/wgnh/main.go:327-374 | the character loop, shared by the command line and the approval page up to what counts as white space, computes the specified tokens |
| `Tokenizer.SplitInvertsQuoting` | cmd/wgnh/main.go:327-374 | in both splitters and with either kind of quote, splitting undoes quoting every token with escaped backslashes and quotes, except that empty tokens are dropped |
| `Tokenizer.SplitInvertsPlainJoinIff` | internal/webui/webui.go:1327-1363 | on the approval page, where it decides whether a stored command survives its prefilled field, and on the command line, each with its own white space: splitting undoes a plain join with spaces if and only if the tokens are non-empty, without blanks and quotes, without backslashes but for a final one, and without white space at the two ends |
| `EventLog.Log.Append` | internal/store/store.go:1401-1421 | appends a line and rotates |
| `EventLog.Log.Rotate` | internal/store/store.go:1447-1472 | keeps the last bytes and drops the broken line they start with |
| `EventLog.Log.Read` | internal/store/store.go:1423-1445 | of the scanned lines that decode, the answer has as many as asked for, or all, and its i-th is the i-th from the end |
| `EventLog.FileIsSuffix` | internal/store/store.go:1401-1472 | after any history of lines the file is within 1 MiB and is exactly the history's last lines, the newest included, over-long lines clipped; with the line before them they reach the bound |
| `EventLog.NewestIsWholeIff` | internal/store/store.go:1447-1472 | the newest line is kept whole if and only if it fits with its newline; otherwise only its end is left |
| `EventLog.ReadReturnsNewest` | internal/store/store.go:1423-1445 | after any history of events that fit, the answer is the newest events before the first retained line of 64 KiB or more, newest first, each without a carriage return at its end: the limit asked for, or all of them |
| `Store.Store.Open` | internal/store/store.go:182-215 | opening loads both files, migrates, and leaves the files in step with memory |
| `Opening.OpenedIsSoundIff` | internal/store/store.go:182-325 | whatever opening two files leaves, legacy ones included, has the integrity that runs keep and requests rely on if and only if the files are ready: nodes and bindings under their ids, memberships sound, those to be migrated of approved nodes in existing domains, rows and pending domains sound, bindings enabled without half endpoints, endpoints of bindings only |
| `Store.Store.MigrateMembers` | internal/store/store.go:246-287 | legacy node configuration becomes memberships, never over an existing one, in any iteration order |
| `Records.OpenedMembers` | internal/store/store.go:246-287 | field by field: memberships of the file stay, each node configured the old way gets the one it stands for unless there is one under its key, and there are no others |
| `Records.OpenedNodes` | internal/store/store.go:284-295 | node records keep identity, token and approval and lose the rest; a node with a presence of its own has that one afterwards, offline if it gives no status |
| `Records.OpenedBindings` | internal/store/store.go:308-315 | complete inline endpoints move out of their bindings, and everything else stays |
| `Records.OpenedRuntime` | internal/store/store.go:246-325 | rows and queues the older file still holds win over the runtime file's, and its leases if it has any |
| `Persistence.RestartTransparentIff` | internal/store/store.go:354-410 | reopening what was saved yields the same state if and only if no node or binding record carries legacy fields |
| `Boundaries.RestartResumes` | internal/store/store.go:354-410 | whenever a run from an empty store stops, reopening resumes exactly where it was |
| `Persistence.MigrationIdempotent` | internal/store/store.go:236-325 | migrating what migration left changes nothing, from any legacy state |
| `Persistence.MigratedRestartIff` | internal/store/store.go:236-325 | the first restart after a migration is invisible if and only if no legacy binding had half an endpoint |

## Left out

- Convergence.Converged: assumes that the daemon is not stopped in the middle of a fan-out; what a stopped fan-out had still to tell is not kept anywhere.
- Convergence.RunsStayCurrent: assumes one natter.result in hand per server interface, because of `Convergence.RacingReportsDiverge`, and that stored endpoints keep their routes: `Agreement.PassKeepsCurrentIff` and `Agreement.AddKeepsCurrentIff` say exactly when a pass and a binding added by hand break agreement, and `Agreement.UnleasedMisfits` is a case where they do.
- Handlers.HandlersConverge: makes the same assumption about routes; fan-outs need none, since `Handlers.CallsAreTidy` is proved.
- Handlers.QueuesNatterIff: does not span restarts, because the times of the last runs are kept in memory only.
- Callers.ReportsQueueIff: assumes server nodes without slashes, since others share a key and a cooldown; `Handlers.QueuesNatterIff` holds for all names, by their keys.
- Links.RunsPass: says which unwanted automatic entries stay only where domains have no slash; `Boundaries.DeletedIff` says it for all names, by membership keys.
- Monitor.SentIsDue: assumes that no other peer goes by the same name; `Monitor.NamesakesShare` shows that this is needed.
- ConfFiles.WrittenUpdates: concerns files whose sections have their endpoint last; `WGConf.UpdateReadsIff` is about all files.
- LoopOrders.DistinctIdsOneOutcomeIff: assumes memberships and inventory rows under the keys made of their fields, which every run keeps (`Opening.SoundIsKeyed`) and opening a file does not check.
- EventLog.ReadReturnsNewest: concerns events that fit and decode; lines of the file that do not decode are skipped by `EventLog.Log.Read`.
- EventLog.FileIsSuffix: concerns lines without newlines, which is how events are encoded.
- DaemonServer.Server.AgentPoll: the wait of up to 25 seconds is modelled as separate rounds (`AgentFetch`), with other requests in between; the answer's peer and membership lists are not modelled.
- Failing or partial saves, file modes, renames and JSON encoding: a saved file is a whole value.
- Connections, deadlines and request decoding: requests are decoded records; unknown kinds and the read-only listings change nothing.
- Token hashing and generation: library cryptography, so that two tokens with one digest do not exist here.
- Audit events and their contents, and legacy events moved to the event file at migration: events are opaque lines.
- The agent's merging of remote configuration, its natter runs and WireGuard restarts: field copies and external programs.
- OpenWrt configuration, interface reloads, and the web and LuCI pages but for their command splitter: wrappers and user interface.
- Status shown to administrators: presentation.
- Case folding beyond the ASCII letters, the long s and the Kelvin sign: no other character folds into the key words the editor compares with.
- Concurrent use of the event file and of the monitor's tables: both are used under one lock or by one goroutine.
