/** One node's command queue: appended at the end, handed out from the front, completed by id. */
module CommandQueue {
  import opened Model

  type Queue = seq<QueuedCommand>

  function FirstPending(q: Queue, from: nat): (i: nat)
    requires from <= |q|
    ensures from <= i <= |q|
    ensures forall j :: from <= j < i ==> !q[j].status.Pending?
    ensures i < |q| ==> q[i].status.Pending?
    decreases |q| - from
  {
    if from == |q| || q[from].status.Pending? then from else FirstPending(q, from + 1)
  }

  function IndexOfId(q: Queue, id: string, from: nat): (i: nat)
    requires from <= |q|
    ensures from <= i <= |q|
    ensures forall j :: from <= j < i ==> q[j].command.id != id
    ensures i < |q| ==> q[i].command.id == id
    decreases |q| - from
  {
    if from == |q| || q[from].command.id == id then from else IndexOfId(q, id, from + 1)
  }

  function Push(q: Queue, cmd: Command, now: string): Queue {
    q + [QueuedCommand(cmd, Pending, None, now)]
  }

  function Deliver(q: Queue): Queue {
    var i := FirstPending(q, 0);
    if i < |q| then q[i := q[i].(status := Delivered)] else q
  }

  function Complete(q: Queue, id: string, result: string): Queue {
    var i := IndexOfId(q, id, 0);
    if i < |q| then q[i := q[i].(status := Completed, result := Some(result))] else q
  }

  function Commands(q: Queue): seq<Command> {
    seq(|q|, i requires 0 <= i < |q| => q[i].command)
  }

  // ---------- Histories ----------

  datatype Step = PushStep(cmd: Command, now: string) | NextStep | CompleteStep(id: string, result: string)

  function Apply(q: Queue, step: Step): Queue {
    match step
    case PushStep(cmd, now) => Push(q, cmd, now)
    case NextStep => Deliver(q)
    case CompleteStep(id, result) => Complete(q, id, result)
  }

  function Run(q: Queue, steps: seq<Step>): Queue {
    if steps == [] then q else Apply(Run(q, steps[..|steps| - 1]), steps[|steps| - 1])
  }

  /** The positions handed out by a run, in the order they were handed out. */
  function Handed(q: Queue, steps: seq<Step>): seq<nat> {
    if steps == [] then []
    else
      var init, last := steps[..|steps| - 1], steps[|steps| - 1];
      var before := Run(q, init);
      var i := FirstPending(before, 0);
      Handed(q, init) + if last.NextStep? && i < |before| then [i] else []
  }

  function Rank(s: Status): nat {
    match s
    case Pending => 0
    case Delivered => 1
    case Completed => 2
  }

  /** Appending only, and statuses only moving forward. */
  predicate Extends(q: Queue, r: Queue) {
    |q| <= |r| && forall i :: 0 <= i < |q| ==> r[i].command == q[i].command && Rank(q[i].status) <= Rank(r[i].status)
  }

  predicate Increasing(h: seq<nat>) {
    forall i, j :: 0 <= i < j < |h| ==> h[i] < h[j]
  }

  /** The positions a run hands out all lie before its first pending position. */
  predicate HandedSoFar(q: Queue, r: Queue, h: seq<nat>) {
    && Increasing(h)
    && forall i :: 0 <= i < |h| ==> h[i] < FirstPending(r, 0) && (h[i] < |q| ==> q[h[i]].status.Pending?)
  }

  lemma FirstPendingIs(q: Queue, i: nat)
    requires i <= |q| && (i < |q| ==> q[i].status.Pending?)
    requires forall j :: 0 <= j < i ==> !q[j].status.Pending?
    ensures FirstPending(q, 0) == i
  {
  }

  lemma ApplyExtends(q: Queue, step: Step)
    ensures Extends(q, Apply(q, step))
    ensures FirstPending(q, 0) <= FirstPending(Apply(q, step), 0)
    ensures step.NextStep? && FirstPending(q, 0) < |q| ==> FirstPending(q, 0) < FirstPending(Apply(q, step), 0)
  {
    var i := FirstPending(Apply(q, step), 0);
    assert i < |q| ==> q[i].status.Pending?;
  }

  /** Whatever the interleaving, a queue only grows and moves forward, positions are handed out in
      strictly increasing order (so each at most once), and all of it was pending to begin with. */
  lemma {:induction false} QueueHistory(q: Queue, steps: seq<Step>)
    ensures var r := Run(q, steps);
            Extends(q, r) && HandedSoFar(q, r, Handed(q, steps))
  {
    if steps != [] {
      var init, last := steps[..|steps| - 1], steps[|steps| - 1];
      QueueHistory(q, init);
      var before := Run(q, init);
      ApplyExtends(before, last);
      var h, h' := Handed(q, init), Handed(q, steps);
      assert h' == h || h' == h + [FirstPending(before, 0)];
      assert forall i :: 0 <= i < |q| && !q[i].status.Pending? ==> !before[i].status.Pending?;
    }
  }

  // ---------- What the queue holds ----------

  /** The commands a run pushed, in order. */
  function Pushed(steps: seq<Step>): seq<Command> {
    if steps == [] then []
    else Pushed(steps[..|steps| - 1]) + if steps[|steps| - 1].PushStep? then [steps[|steps| - 1].cmd] else []
  }

  /** Position `i` is the first with the id among the commands. */
  predicate FirstWith(cmds: seq<Command>, id: string, i: nat) {
    i < |cmds| && cmds[i].id == id && forall j :: 0 <= j < i ==> cmds[j].id != id
  }

  /** The last result reported for the command at position `i`. */
  function Reported(steps: seq<Step>, i: nat): Option<string> {
    if steps == [] then None
    else
      var init, last := steps[..|steps| - 1], steps[|steps| - 1];
      if last.CompleteStep? && FirstWith(Pushed(init), last.id, i) then Some(last.result) else Reported(init, i)
  }

  predicate HoldsAt(item: QueuedCommand, cmd: Command, reported: Option<string>) {
    item.command == cmd && item.result == reported && (item.status.Completed? <==> reported.Some?)
  }

  predicate Holds(q: Queue, steps: seq<Step>) {
    |q| == |Pushed(steps)| && forall i :: 0 <= i < |q| ==> HoldsAt(q[i], Pushed(steps)[i], Reported(steps, i))
  }

  lemma CompleteReports(before: Queue, cmds: seq<Command>, id: string, result: string, i: nat)
    requires |before| == |cmds| && forall j :: 0 <= j < |before| ==> before[j].command == cmds[j]
    requires i < |before|
    ensures var q := Complete(before, id, result);
            && |q| == |before| && q[i].command == before[i].command
            && (FirstWith(cmds, id, i) ==> q[i].status.Completed? && q[i].result == Some(result))
            && (!FirstWith(cmds, id, i) ==> q[i] == before[i])
  {
    var k := IndexOfId(before, id, 0);
    if FirstWith(cmds, id, i) {
      assert k == i;
    }
    if k == i {
      assert FirstWith(cmds, id, i);
    }
  }

  lemma {:induction false} ReportedBeyond(steps: seq<Step>, i: nat)
    requires i >= |Pushed(steps)|
    ensures Reported(steps, i) == None
  {
    if steps != [] {
      ReportedBeyond(steps[..|steps| - 1], i);
    }
  }

  lemma HoldsStep(q: Queue, init: seq<Step>, last: Step)
    requires Holds(q, init)
    ensures Holds(Apply(q, last), init + [last])
  {
    var steps := init + [last];
    assert steps[..|init|] == init;
    var cmds, r := Pushed(init), Apply(q, last);
    match last
    case PushStep(cmd, now) => ReportedBeyond(init, |q|);
    case NextStep =>
    case CompleteStep(id, result) =>
      hide Complete;
      forall i | 0 <= i < |q| ensures |r| == |q| && HoldsAt(r[i], cmds[i], Reported(steps, i)) {
        assert HoldsAt(q[i], cmds[i], Reported(init, i));
        CompleteReports(q, cmds, id, result, i);
      }
      CompleteSize(q, id, result);
  }

  lemma CompleteSize(q: Queue, id: string, result: string)
    ensures |Complete(q, id, result)| == |q|
  {
  }

  /** From an empty queue, in every state: its commands are those pushed, in order, and each has the last result
      reported for it, which makes it completed. */
  lemma {:induction false} QueueHoldsReported(steps: seq<Step>)
    ensures Holds(Run([], steps), steps)
  {
    if steps != [] {
      var init, last := steps[..|steps| - 1], steps[|steps| - 1];
      QueueHoldsReported(init);
      assert init + [last] == steps;
      hide Holds, Apply;
      HoldsStep(Run([], init), init, last);
    }
  }

  /** The positions a run completes while they are still pending. */
  function Skipped(q: Queue, steps: seq<Step>): seq<nat> {
    if steps == [] then []
    else
      var init, last := steps[..|steps| - 1], steps[|steps| - 1];
      var before := Run(q, init);
      Skipped(q, init) +
      if last.CompleteStep? && CompletesPending(before, last.id) then [IndexOfId(before, last.id, 0)] else []
  }

  predicate CompletesPending(q: Queue, id: string) {
    var i := IndexOfId(q, id, 0);
    i < |q| && q[i].status.Pending?
  }

  function Positions(h: seq<nat>): set<nat> {
    set i | i in h
  }

  lemma PositionsAppend(h: seq<nat>, i: nat)
    ensures Positions(h + [i]) == Positions(h) + {i}
  {
  }

  /** A position is no longer pending exactly when it was not to begin with, was handed out, or was skipped;
      never both. */
  predicate Accounted(q: Queue, r: Queue, handed: set<nat>, skipped: set<nat>) {
    && (forall i :: 0 <= i < |r| ==>
          (r[i].status.Pending? <==> !(i < |q| && !q[i].status.Pending?) && i !in handed && i !in skipped))
    && (forall i :: i in handed ==> i < |r| && i !in skipped)
    && (forall i :: i in skipped ==> i < |r| && r[i].status.Completed?)
  }

  lemma AccountedPush(q: Queue, before: Queue, handed: set<nat>, skipped: set<nat>, cmd: Command, now: string)
    requires Accounted(q, before, handed, skipped) && |q| <= |before|
    ensures Accounted(q, Push(before, cmd, now), handed, skipped)
  {
  }

  lemma AccountedNext(q: Queue, before: Queue, handed: set<nat>, skipped: set<nat>)
    requires Accounted(q, before, handed, skipped) && |q| <= |before|
    ensures var i := FirstPending(before, 0);
            Accounted(q, Deliver(before), if i < |before| then handed + {i} else handed, skipped)
  {
  }

  lemma AccountedComplete(q: Queue, before: Queue, handed: set<nat>, skipped: set<nat>, id: string, result: string)
    requires Accounted(q, before, handed, skipped) && |q| <= |before|
    ensures Accounted(q, Complete(before, id, result), handed,
                      if CompletesPending(before, id) then skipped + {IndexOfId(before, id, 0)} else skipped)
  {
  }

  /** Over any run from any queue: what left the pending state was either handed out or skipped, never both.
      So a command completed while pending is never handed out, before or after. */
  lemma {:induction false} SkippedIsNeverHanded(q: Queue, steps: seq<Step>)
    ensures Accounted(q, Run(q, steps), Positions(Handed(q, steps)), Positions(Skipped(q, steps)))
  {
    if steps != [] {
      var init, last := steps[..|steps| - 1], steps[|steps| - 1];
      SkippedIsNeverHanded(q, init);
      QueueHistory(q, init);
      hide Accounted, HandedSoFar, Positions, Push, Deliver, Complete;
      var before, h, skipped := Run(q, init), Handed(q, init), Skipped(q, init);
      assert h + [] == h && skipped + [] == skipped;
      match last
      case PushStep(cmd, now) => AccountedPush(q, before, Positions(h), Positions(skipped), cmd, now);
      case NextStep =>
        AccountedNext(q, before, Positions(h), Positions(skipped));
        PositionsAppend(h, FirstPending(before, 0));
      case CompleteStep(id, result) =>
        AccountedComplete(q, before, Positions(h), Positions(skipped), id, result);
        PositionsAppend(skipped, IndexOfId(before, id, 0));
    }
  }

  /** Only commands that were handed out get completed. */
  predicate CompletesDelivered(q: Queue, steps: seq<Step>) {
    steps != [] ==>
      var init, last := steps[..|steps| - 1], steps[|steps| - 1];
      CompletesDelivered(q, init) && (last.CompleteStep? ==> !CompletesPending(Run(q, init), last.id))
  }

  lemma {:induction false} DeliveredSkipsNone(q: Queue, steps: seq<Step>)
    ensures CompletesDelivered(q, steps) <==> Skipped(q, steps) == []
  {
    if steps != [] {
      DeliveredSkipsNone(q, steps[..|steps| - 1]);
    }
  }

  /** What was handed out is exactly the front of the queue, in order, and everything behind it is pending. */
  predicate InOrder(r: Queue, h: seq<nat>) {
    && |h| == FirstPending(r, 0)
    && (forall i :: 0 <= i < |h| ==> h[i] == i)
    && (forall i :: |h| <= i < |r| ==> r[i].status.Pending?)
  }

  /** Strictly increasing positions that fill a stretch are all of it. */
  lemma {:induction false} IncreasingFills(h: seq<nat>, p: nat)
    requires Increasing(h) && forall i: nat :: i in Positions(h) <==> i < p
    ensures |h| == p && forall i :: 0 <= i < |h| ==> h[i] == i
    decreases p
  {
    assert h == [] || h[0] in Positions(h);
    if p > 0 {
      assert p - 1 in Positions(h);
      var n := |h| - 1;
      var i :| 0 <= i < |h| && h[i] == p - 1;
      assert h[n] in Positions(h);
      assert h[n] == p - 1;
      assert h == h[..n] + [p - 1];
      PositionsAppend(h[..n], p - 1);
      assert p - 1 !in Positions(h[..n]);
      IncreasingFills(h[..n], p - 1);
    }
  }

  lemma NothingSkipped(steps: seq<Step>)
    requires Skipped([], steps) == []
    ensures InOrder(Run([], steps), Handed([], steps))
  {
    var r, h := Run([], steps), Handed([], steps);
    SkippedIsNeverHanded([], steps);
    QueueHistory([], steps);
    hide Run, Handed, Skipped, Extends;
    var p := FirstPending(r, 0);
    assert forall i :: i in h <==> i in Positions(h);
    assert forall i: nat :: i in Positions(h) <==> i < p;
    IncreasingFills(h, p);
  }

  lemma SomethingSkipped(steps: seq<Step>)
    requires Skipped([], steps) != []
    ensures !InOrder(Run([], steps), Handed([], steps))
  {
    var r, h, i := Run([], steps), Handed([], steps), Skipped([], steps)[0];
    SkippedIsNeverHanded([], steps);
    assert i in Positions(Skipped([], steps));
    hide Run, Handed, Skipped;
    assert i < |h| ==> h[i] in Positions(h);
  }

  lemma {:induction false} IncreasingAtLeast(h: seq<nat>, i: nat)
    requires Increasing(h) && i < |h|
    ensures h[i] >= i
  {
    if i > 0 {
      IncreasingAtLeast(h, i - 1);
    }
  }

  lemma {:induction false} IncreasingAtMost(h: seq<nat>, p: nat, i: nat)
    requires Increasing(h) && i < |h| && forall j :: 0 <= j < |h| ==> h[j] < p
    ensures h[i] + (|h| - i) <= p
    decreases |h| - i
  {
    if i < |h| - 1 {
      IncreasingAtMost(h, p, i + 1);
    }
  }

  /** As many strictly increasing positions as there is room for. */
  lemma IncreasingFitsTightly(h: seq<nat>)
    requires Increasing(h) && forall j :: 0 <= j < |h| ==> h[j] < |h|
    ensures forall i :: 0 <= i < |h| ==> h[i] == i
  {
    forall i | 0 <= i < |h| ensures h[i] == i {
      IncreasingAtLeast(h, i);
      IncreasingAtMost(h, |h|, i);
    }
  }

  // ---------- What was handed out, as commands ----------

  function Picked(q: Queue, h: seq<nat>): seq<Command>
    requires forall i :: 0 <= i < |h| ==> h[i] < |q|
  {
    seq(|h|, i requires 0 <= i < |h| => q[h[i]].command)
  }

  lemma HandedIsWithin(q: Queue, steps: seq<Step>)
    ensures forall i :: 0 <= i < |Handed(q, steps)| ==> Handed(q, steps)[i] < |Run(q, steps)|
  {
    QueueHistory(q, steps);
  }

  /** The commands a run hands out, in order. */
  function HandedCommands(q: Queue, steps: seq<Step>): seq<Command> {
    HandedIsWithin(q, steps);
    Picked(Run(q, steps), Handed(q, steps))
  }

  /** A command handed out stays what it is: later steps only add to the list. */
  lemma HandedCommandsStep(q: Queue, steps: seq<Step>, step: Step)
    ensures var r := Run(q, steps);
            HandedCommands(q, steps + [step]) ==
            HandedCommands(q, steps) +
            if step.NextStep? && FirstPending(r, 0) < |r| then [r[FirstPending(r, 0)].command] else []
  {
    var all := steps + [step];
    assert all[..|steps|] == steps;
    HandedIsWithin(q, steps);
    HandedIsWithin(q, all);
    ApplyExtends(Run(q, steps), step);
    hide Apply, HandedSoFar;
  }

  /** As commands, what was handed out is the front of the queue, with only pending ones behind. */
  predicate Fifo(q: Queue, handed: seq<Command>) {
    var p := FirstPending(q, 0);
    handed == Commands(q[..p]) && forall i :: p <= i < |q| ==> q[i].status.Pending?
  }

  lemma FifoIffInOrder(steps: seq<Step>)
    ensures Fifo(Run([], steps), HandedCommands([], steps)) <==> InOrder(Run([], steps), Handed([], steps))
  {
    QueueHistory([], steps);
    HandedIsWithin([], steps);
    var r, h := Run([], steps), Handed([], steps);
    var p := FirstPending(r, 0);
    hide Run, Handed, Extends;
    assert |Commands(r[..p])| == p;
    if |h| == p {
      IncreasingFitsTightly(h);
      assert Picked(r, h) == Commands(r[..p]);
    }
  }

  /** First in, first out, exactly for the runs that complete only what was handed out. */
  lemma InOrderIff(steps: seq<Step>)
    ensures InOrder(Run([], steps), Handed([], steps)) <==> CompletesDelivered([], steps)
  {
    DeliveredSkipsNone([], steps);
    hide InOrder, Run, Handed, Skipped, CompletesDelivered;
    if Skipped([], steps) == [] {
      NothingSkipped(steps);
    } else {
      SomethingSkipped(steps);
    }
  }

  /** The shortest run that skips a command: queued, completed, and then nothing to hand out. */
  lemma SkippedWhenCompletedEarly(cmd: Command, now: string, result: string)
    ensures var steps := [PushStep(cmd, now), CompleteStep(cmd.id, result), NextStep];
            Skipped([], steps) == [0] && Handed([], steps) == [] && !CompletesDelivered([], steps)
  {
    var push, complete := PushStep(cmd, now), CompleteStep(cmd.id, result);
    assert [push, complete, NextStep][..2] == [push, complete];
    assert [push, complete][..1] == [push];
    assert [push][..0] == [];
    var q1 := Run([], [push]);
    assert Run([], []) == [];
    assert q1 == [QueuedCommand(cmd, Pending, None, now)];
    var q2 := Run([], [push, complete]);
    assert Handed([], [push]) == [] && Skipped([], [push]) == [];
    assert Handed([], [push, complete]) == [] && Skipped([], [push, complete]) == [0];
    assert q2 == Complete(q1, cmd.id, result) == [QueuedCommand(cmd, Completed, Some(result), now)];
    assert FirstPending(q2, 0) == 1;
    DeliveredSkipsNone([], [push, complete, NextStep]);
  }
}
