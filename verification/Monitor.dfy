/** The client's hysteresis monitor: when stale handshakes become reports. */
module Monitor {
  import opened Model
  import Names

  datatype Probe = Failed | Stale | Fresh

  datatype Report = Unreachable | Recovered

  datatype Peer = Peer(bindingID: string, iface: string, publicKey: string)

  datatype Sighting = Sighting(peer: Peer, probe: Probe)

  datatype Message = Message(peer: Peer, report: Report)

  function Key(p: Peer): string {
    FirstNonEmpty(p.bindingID, p.iface + "/" + p.publicKey)
  }

  /** A threshold that is not positive means three. */
  function Threshold(configured: int): (t: nat)
    ensures t > 0
  {
    if configured <= 0 then 3 else configured
  }

  // ---------- The tables and one sighting ----------

  datatype Tables = Tables(failCounts: map<string, nat>, unreachable: map<string, bool>)

  const NOTHING := Tables(map[], map[])

  function Fails(t: Tables, key: string): nat {
    if key in t.failCounts then t.failCounts[key] else 0
  }

  function Down(t: Tables, key: string): bool {
    key in t.unreachable && t.unreachable[key]
  }

  function Note(t: Tables, threshold: nat, s: Sighting): Tables {
    var key := Key(s.peer);
    match s.probe
    case Failed => t
    case Fresh => Tables(t.failCounts[key := 0], t.unreachable[key := false])
    case Stale =>
      var n := Fails(t, key) + 1;
      Tables(t.failCounts[key := n],
             if n >= threshold && !Down(t, key) then t.unreachable[key := true] else t.unreachable)
  }

  function Emitted(t: Tables, threshold: nat, s: Sighting): seq<Message> {
    var key := Key(s.peer);
    match s.probe
    case Failed => []
    case Fresh => if Down(t, key) then [Message(s.peer, Recovered)] else []
    case Stale => if Fails(t, key) + 1 >= threshold && !Down(t, key) then [Message(s.peer, Unreachable)] else []
  }

  function NoteAll(t: Tables, threshold: nat, seen: seq<Sighting>): Tables {
    if seen == [] then t
    else Note(NoteAll(t, threshold, seen[..|seen| - 1]), threshold, seen[|seen| - 1])
  }

  function EmittedAll(t: Tables, threshold: nat, seen: seq<Sighting>): seq<Message> {
    if seen == [] then []
    else
      var init, last := seen[..|seen| - 1], seen[|seen| - 1];
      EmittedAll(t, threshold, init) + Emitted(NoteAll(t, threshold, init), threshold, last)
  }

  class Watcher {
    const threshold: nat
    var failCounts: map<string, nat>
    var unreachable: map<string, bool>

    constructor (configured: int)
      ensures threshold == Threshold(configured) && View() == NOTHING
    {
      threshold := Threshold(configured);
      failCounts, unreachable := map[], map[];
    }

    function View(): Tables
      reads this
    {
      Tables(failCounts, unreachable)
    }

    /** One tick of the monitor: every peer is probed once, in order. */
    method Tick(seen: seq<Sighting>) returns (sent: seq<Message>)
      modifies this
      ensures View() == NoteAll(old(View()), threshold, seen)
      ensures sent == EmittedAll(old(View()), threshold, seen)
    {
      sent := [];
      for i := 0 to |seen|
        invariant View() == NoteAll(old(View()), threshold, seen[..i])
        invariant sent == EmittedAll(old(View()), threshold, seen[..i])
      {
        assert seen[..i + 1][..i] == seen[..i];
        var message := Probed(seen[i]);
        sent := sent + message;
      }
      assert seen[..|seen|] == seen;
    }

    method Probed(s: Sighting) returns (sent: seq<Message>)
      modifies this
      ensures View() == Note(old(View()), threshold, s)
      ensures sent == Emitted(old(View()), threshold, s)
    {
      sent := [];
      var key := Key(s.peer);
      if s.probe.Failed? {
        return;
      }
      if s.probe.Stale? {
        failCounts := failCounts[key := (if key in failCounts then failCounts[key] else 0) + 1];
        if failCounts[key] >= threshold && !(key in unreachable && unreachable[key]) {
          unreachable := unreachable[key := true];
          sent := [Message(s.peer, Unreachable)];
        }
        return;
      }
      if key in unreachable && unreachable[key] {
        sent := [Message(s.peer, Recovered)];
      }
      failCounts, unreachable := failCounts[key := 0], unreachable[key := false];
    }
  }

  /** Consecutive ticks amount to one long list of sightings. */
  lemma {:induction false} TicksCompose(t: Tables, threshold: nat, first: seq<Sighting>, second: seq<Sighting>)
    ensures NoteAll(t, threshold, first + second) == NoteAll(NoteAll(t, threshold, first), threshold, second)
    ensures EmittedAll(t, threshold, first + second) ==
            EmittedAll(t, threshold, first) + EmittedAll(NoteAll(t, threshold, first), threshold, second)
  {
    if second == [] {
      assert first + second == first;
    } else {
      assert (first + second)[..|first + second| - 1] == first + second[..|second| - 1];
      TicksCompose(t, threshold, first, second[..|second| - 1]);
    }
  }

  // ---------- One key at a time ----------

  /** What was seen of one key. */
  function ProbesOf(seen: seq<Sighting>, key: string): seq<Probe> {
    if seen == [] then []
    else
      var init, last := ProbesOf(seen[..|seen| - 1], key), seen[|seen| - 1];
      if Key(last.peer) == key then init + [last.probe] else init
  }

  /** What was reported about one key. */
  function ReportsOf(sent: seq<Message>, key: string): seq<Report> {
    if sent == [] then []
    else
      var init, last := ReportsOf(sent[..|sent| - 1], key), sent[|sent| - 1];
      if Key(last.peer) == key then init + [last.report] else init
  }

  /** Stale probes since the last fresh one; failed probes count for nothing. */
  function StaleRun(probes: seq<Probe>): nat {
    if probes == [] then 0
    else
      var init, last := StaleRun(probes[..|probes| - 1]), probes[|probes| - 1];
      match last
      case Failed => init
      case Stale => init + 1
      case Fresh => 0
  }

  /** What the last probe of a list calls for: an unreachable report when the count of stale probes
      reaches the threshold, a recovered report when a count at or above it ends. */
  function Due(probes: seq<Probe>, threshold: nat): seq<Report> {
    if probes == [] then []
    else
      match probes[|probes| - 1]
      case Failed => []
      case Stale => if StaleRun(probes) == threshold then [Unreachable] else []
      case Fresh => if StaleRun(probes[..|probes| - 1]) >= threshold then [Recovered] else []
  }

  function AllDue(probes: seq<Probe>, threshold: nat): seq<Report> {
    if probes == [] then [] else AllDue(probes[..|probes| - 1], threshold) + Due(probes, threshold)
  }

  lemma ReportsOfAppend(sent: seq<Message>, more: seq<Message>, key: string)
    requires |more| <= 1
    ensures ReportsOf(sent + more, key) ==
            ReportsOf(sent, key) + if |more| == 1 && Key(more[0].peer) == key then [more[0].report] else []
  {
    if |more| == 0 {
      assert sent + more == sent;
    } else {
      assert (sent + more)[..|sent|] == sent;
    }
  }

  /** The tables hold the stale counts, and a key is down exactly while its count is at the threshold
      or above. */
  lemma {:induction false} TablesCount(threshold: nat, seen: seq<Sighting>, key: string)
    requires threshold > 0
    ensures var t := NoteAll(NOTHING, threshold, seen);
            && Fails(t, key) == StaleRun(ProbesOf(seen, key))
            && (Down(t, key) <==> StaleRun(ProbesOf(seen, key)) >= threshold)
  {
    if seen != [] {
      TablesCount(threshold, seen[..|seen| - 1], key);
    }
  }

  /** Key by key, what is sent is what the probes call for, in their order. */
  lemma {:induction false} KeyIsDue(threshold: nat, seen: seq<Sighting>, key: string)
    requires threshold > 0
    ensures ReportsOf(EmittedAll(NOTHING, threshold, seen), key) == AllDue(ProbesOf(seen, key), threshold)
  {
    if seen != [] {
      var init, last := seen[..|seen| - 1], seen[|seen| - 1];
      KeyIsDue(threshold, init, key);
      TablesCount(threshold, init, key);
      var t := NoteAll(NOTHING, threshold, init);
      ReportsOfAppend(EmittedAll(NOTHING, threshold, init), Emitted(t, threshold, last), key);
      if Key(last.peer) == key {
        DueAfter(ProbesOf(init, key), last, threshold, t);
      }
    }
  }

  lemma DueAfter(probes: seq<Probe>, last: Sighting, threshold: nat, t: Tables)
    requires Fails(t, Key(last.peer)) == StaleRun(probes) && threshold > 0
    requires Down(t, Key(last.peer)) <==> StaleRun(probes) >= threshold
    ensures var more := Emitted(t, threshold, last);
            Due(probes + [last.probe], threshold) == if |more| == 1 then [more[0].report] else []
    ensures AllDue(probes + [last.probe], threshold) ==
            AllDue(probes, threshold) + Due(probes + [last.probe], threshold)
  {
    assert (probes + [last.probe])[..|probes|] == probes;
  }

  // ---------- One peer at a time ----------

  /** What a monitor watches: the peer of a binding, or, for peers without a binding, a public key on an interface. */
  datatype Target = OfBinding(id: string) | OnIface(iface: string, publicKey: string)

  predicate About(p: Peer, target: Target) {
    match target
    case OfBinding(id) => p.bindingID == id
    case OnIface(iface, publicKey) => p.bindingID == "" && p.iface == iface && p.publicKey == publicKey
  }

  function ProbesAbout(seen: seq<Sighting>, target: Target): seq<Probe> {
    if seen == [] then []
    else
      ProbesAbout(seen[..|seen| - 1], target) +
      if About(seen[|seen| - 1].peer, target) then [seen[|seen| - 1].probe] else []
  }

  function ReportsAbout(sent: seq<Message>, target: Target): seq<Report> {
    if sent == [] then []
    else
      ReportsAbout(sent[..|sent| - 1], target) +
      if About(sent[|sent| - 1].peer, target) then [sent[|sent| - 1].report] else []
  }

  /** The peer goes by no name that the target does not go by: a binding id is not some other peer's interface and
      key with a slash between, and neither are another pair's. */
  predicate Unlike(p: Peer, target: Target) {
    match target
    case OfBinding(id) => id != "" && (p.bindingID == "" ==> p.iface + "/" + p.publicKey != id)
    case OnIface(iface, publicKey) =>
      if p.bindingID != "" then p.bindingID != iface + "/" + publicKey
      else p.iface + "/" + p.publicKey == iface + "/" + publicKey ==> p.iface == iface && p.publicKey == publicKey
  }

  predicate Alone(seen: seq<Sighting>, target: Target) {
    forall i :: 0 <= i < |seen| ==> Unlike(seen[i].peer, target)
  }

  /** Which holds of every target when neither binding ids nor interface names have a slash. */
  lemma SlashlessIsAlone(seen: seq<Sighting>, target: Target)
    requires forall i :: 0 <= i < |seen| ==> '/' !in seen[i].peer.bindingID && '/' !in seen[i].peer.iface
    requires if target.OfBinding? then target.id != "" && '/' !in target.id else '/' !in target.iface
    ensures Alone(seen, target)
  {
    forall i | 0 <= i < |seen| ensures Unlike(seen[i].peer, target) {
      SlashlessIsUnlike(seen[i].peer, target);
    }
  }

  lemma SlashlessIsUnlike(p: Peer, target: Target)
    requires '/' !in p.bindingID && '/' !in p.iface
    requires if target.OfBinding? then target.id != "" && '/' !in target.id else '/' !in target.iface
    ensures Unlike(p, target)
  {
    assert (p.iface + "/" + p.publicKey)[|p.iface|] == '/';
    if target.OnIface? {
      assert (target.iface + "/" + target.publicKey)[|target.iface|] == '/';
      if p.iface + "/" + p.publicKey == target.iface + "/" + target.publicKey {
        Names.SlashSeparates(p.iface, p.publicKey, target.iface, target.publicKey);
      }
    }
  }

  function KeyOf(target: Target): string {
    match target
    case OfBinding(id) => id
    case OnIface(iface, publicKey) => iface + "/" + publicKey
  }

  lemma KeyIffAbout(p: Peer, target: Target)
    requires Unlike(p, target)
    ensures Key(p) == KeyOf(target) <==> About(p, target)
  {
    assert |p.iface + "/" + p.publicKey| > 0;
    if target.OnIface? {
      assert |target.iface + "/" + target.publicKey| > 0;
    }
  }

  lemma {:induction false} ProbesAgree(seen: seq<Sighting>, target: Target)
    requires Alone(seen, target)
    ensures ProbesOf(seen, KeyOf(target)) == ProbesAbout(seen, target)
  {
    if seen != [] {
      hide Key, KeyOf, About, Unlike;
      ProbesAgree(seen[..|seen| - 1], target);
      KeyIffAbout(seen[|seen| - 1].peer, target);
    }
  }

  lemma {:induction false} ReportsAgree(t: Tables, threshold: nat, seen: seq<Sighting>, target: Target)
    requires Alone(seen, target)
    ensures var sent := EmittedAll(t, threshold, seen);
            ReportsOf(sent, KeyOf(target)) == ReportsAbout(sent, target)
  {
    if seen != [] {
      hide Key, KeyOf, About, Unlike;
      var init, last := seen[..|seen| - 1], seen[|seen| - 1];
      ReportsAgree(t, threshold, init, target);
      KeyIffAbout(last.peer, target);
      var sent, more := EmittedAll(t, threshold, init), Emitted(NoteAll(t, threshold, init), threshold, last);
      OneMessage(NoteAll(t, threshold, init), threshold, last);
      hide Emitted, EmittedAll, NoteAll;
      ReportsOfAppend(sent, more, KeyOf(target));
      if |more| == 1 {
        assert (sent + more)[..|sent|] == sent;
      } else {
        assert sent + more == sent;
      }
    }
  }

  lemma OneMessage(t: Tables, threshold: nat, s: Sighting)
    ensures var sent := Emitted(t, threshold, s);
            |sent| <= 1 && (|sent| == 1 ==> sent[0].peer == s.peer && sent[0].report.Unreachable? == s.probe.Stale?)
    ensures |Emitted(t, threshold, s)| == 1 ==> !s.probe.Failed?
  {
  }

  /** However the sightings of different peers interleave, what is sent about a peer is what its own probes call
      for, in their order, unless another one goes by the same name. */
  lemma SentIsDue(threshold: nat, seen: seq<Sighting>, target: Target)
    requires threshold > 0 && Alone(seen, target)
    ensures ReportsAbout(EmittedAll(NOTHING, threshold, seen), target) == AllDue(ProbesAbout(seen, target), threshold)
  {
    KeyIsDue(threshold, seen, KeyOf(target));
    ProbesAgree(seen, target);
    ReportsAgree(NOTHING, threshold, seen, target);
    hide *;
  }

  /** And that is needed: a peer that goes by the same name breaks it. */
  lemma NamesakesShare(target: Target, own: Peer, other: Peer)
    requires About(own, target) && !Unlike(other, target) && (target.OfBinding? ==> target.id != "")
    ensures var seen := [Sighting(own, Stale), Sighting(other, Fresh), Sighting(own, Stale)];
            ReportsAbout(EmittedAll(NOTHING, 1, seen), target) != AllDue(ProbesAbout(seen, target), 1)
  {
    var a, b, key := Sighting(own, Stale), Sighting(other, Fresh), Key(own);
    NamesakeKeys(target, own, other);
    SharedOutage(a, b, key);
    var sent := [Message(own, Unreachable), Message(other, Recovered), Message(own, Unreachable)];
    assert [] + [a] + [b] + [a] == [a, b, a];
    TwoReports(own, other, target);
    OneReport(a, b, target);
    hide *;
  }

  lemma SharedOutage(a: Sighting, b: Sighting, key: string)
    requires a.probe.Stale? && b.probe.Fresh? && Key(a.peer) == key == Key(b.peer)
    ensures EmittedAll(NOTHING, 1, [a, b, a]) ==
            [Message(a.peer, Unreachable), Message(b.peer, Recovered), Message(a.peer, Unreachable)]
  {
    assert [a, b, a][..2] == [a, b] && [a, b][..1] == [a] && [a][..0] == [];
    hide Key;
    assert NoteAll(NOTHING, 1, []) == NOTHING && EmittedAll(NOTHING, 1, []) == [];
    var t1 := NoteAll(NOTHING, 1, [a]);
    assert t1 == Note(NOTHING, 1, a) && Down(t1, key);
    assert EmittedAll(NOTHING, 1, [a]) == [] + [Message(a.peer, Unreachable)];
    var t2 := NoteAll(NOTHING, 1, [a, b]);
    assert t2 == Note(t1, 1, b) && !Down(t2, key) && Fails(t2, key) == 0;
    hide Note, NoteAll;
    assert EmittedAll(NOTHING, 1, [a, b]) == [Message(a.peer, Unreachable)] + [Message(b.peer, Recovered)];
  }

  lemma TwoReports(own: Peer, other: Peer, target: Target)
    requires About(own, target) && !About(other, target)
    ensures var m := Message(own, Unreachable);
            ReportsAbout([m, Message(other, Recovered), m], target) == [Unreachable, Unreachable]
  {
    hide About;
    var m, n := Message(own, Unreachable), Message(other, Recovered);
    assert [m, n, m][..2] == [m, n] && [m, n][..1] == [m] && [m][..0] == [];
    assert ReportsAbout([m], target) == [Unreachable];
  }

  lemma OneReport(a: Sighting, b: Sighting, target: Target)
    requires a.probe.Stale? && About(a.peer, target) && !About(b.peer, target)
    ensures AllDue(ProbesAbout([a, b, a], target), 1) == [Unreachable]
  {
    hide About;
    assert [a, b, a][..2] == [a, b] && [a, b][..1] == [a] && [a][..0] == [];
    assert ProbesAbout([a], target) == [Stale];
    assert ProbesAbout([a, b], target) == [Stale] && ProbesAbout([a, b, a], target) == [Stale, Stale];
    hide ProbesAbout;
    assert [Stale, Stale][..1] == [Stale] && [Stale][..0] == [];
    assert AllDue([Stale], 1) == [Unreachable];
  }

  lemma NamesakeKeys(target: Target, own: Peer, other: Peer)
    requires About(own, target) && !Unlike(other, target) && (target.OfBinding? ==> target.id != "")
    ensures Key(other) == Key(own) && !About(other, target)
  {
    assert |other.iface + "/" + other.publicKey| > 0;
  }

  /** `at` lists in order the sightings behind the messages: each message is about the peer just seen, unreachable
      when it was stale and recovered when it was fresh. */
  predicate Causes(seen: seq<Sighting>, sent: seq<Message>, at: seq<nat>) {
    && |at| == |sent|
    && (forall i, j :: 0 <= i < j < |at| ==> at[i] < at[j])
    && (forall i :: 0 <= i < |at| ==>
          at[i] < |seen| && sent[i].peer == seen[at[i]].peer &&
          seen[at[i]].probe == if sent[i].report.Unreachable? then Stale else Fresh)
  }

  lemma {:induction false} MessagesHaveCauses(t: Tables, threshold: nat, seen: seq<Sighting>) returns (at: seq<nat>)
    ensures Causes(seen, EmittedAll(t, threshold, seen), at)
  {
    at := [];
    if seen != [] {
      var init, last := seen[..|seen| - 1], seen[|seen| - 1];
      at := MessagesHaveCauses(t, threshold, init);
      OneMessage(NoteAll(t, threshold, init), threshold, last);
      var more := Emitted(NoteAll(t, threshold, init), threshold, last);
      hide Emitted, NoteAll;
      if |more| == 1 {
        at := at + [|init|];
      }
    }
  }

  function CountUnreachable(reports: seq<Report>): nat {
    if reports == [] then 0
    else CountUnreachable(reports[..|reports| - 1]) + if reports[|reports| - 1].Unreachable? then 1 else 0
  }

  lemma CountAppend(reports: seq<Report>, r: Report)
    ensures CountUnreachable(reports + [r]) == CountUnreachable(reports) + if r.Unreachable? then 1 else 0
  {
    assert (reports + [r])[..|reports|] == reports;
  }

  predicate Alternates(reports: seq<Report>) {
    forall i :: 0 <= i < |reports| ==> (reports[i].Unreachable? <==> i % 2 == 0)
  }

  /** Reports alternate, starting with unreachable, and the last one says whether the count is at the
      threshold. */
  lemma {:induction false} ReportsAlternate(probes: seq<Probe>, threshold: nat)
    requires threshold > 0
    ensures Alternates(AllDue(probes, threshold))
    ensures |AllDue(probes, threshold)| % 2 == 1 <==> StaleRun(probes) >= threshold
  {
    if probes != [] {
      ReportsAlternate(probes[..|probes| - 1], threshold);
    }
  }

  /** The probes that `k` unreachable reports and the present stale count have used up. */
  function Used(k: nat, threshold: nat, stale: nat): int {
    k * (threshold + 1) + if stale >= threshold then stale - threshold - 1 else stale
  }

  lemma UsedStep(k: nat, threshold: nat, stale: nat, probe: Probe)
    requires threshold > 0
    ensures probe.Stale? && stale + 1 == threshold ==>
            Used(k + 1, threshold, stale + 1) == Used(k, threshold, stale) + 1
    ensures probe.Stale? && stale + 1 != threshold ==> Used(k, threshold, stale + 1) == Used(k, threshold, stale) + 1
    ensures Used(k, threshold, 0) <= Used(k, threshold, stale) + 1
  {
    assert (k + 1) * (threshold + 1) == k * (threshold + 1) + threshold + 1;
  }

  lemma CountStep(probes: seq<Probe>, threshold: nat)
    requires probes != []
    ensures var init, last := probes[..|probes| - 1], probes[|probes| - 1];
            CountUnreachable(AllDue(probes, threshold)) ==
            CountUnreachable(AllDue(init, threshold)) + if last.Stale? && StaleRun(init) + 1 == threshold then 1 else 0
  {
    var reports := AllDue(probes[..|probes| - 1], threshold);
    CountAppend(reports, Unreachable);
    CountAppend(reports, Recovered);
    assert reports + [] == reports;
    hide CountUnreachable;
  }

  /** Each unreachable report takes `threshold` stale probes, and a fresh one before the next. */
  lemma {:induction false} ReportsUse(probes: seq<Probe>, threshold: nat)
    requires threshold > 0
    ensures Used(CountUnreachable(AllDue(probes, threshold)), threshold, StaleRun(probes)) <= |probes|
  {
    hide Used;
    if probes == [] {
      UsedNothing(threshold);
    } else {
      hide CountUnreachable, AllDue;
      var init := probes[..|probes| - 1];
      ReportsUse(init, threshold);
      CountStep(probes, threshold);
      UsedStep(CountUnreachable(AllDue(init, threshold)), threshold, StaleRun(init), probes[|probes| - 1]);
    }
  }

  lemma UsedNothing(threshold: nat)
    requires threshold > 0
    ensures Used(0, threshold, 0) == 0
  {
  }

  /** Over any run of the monitor, for every peer: reports alternate starting with unreachable, and `k` unreachable
      reports take at least `k * (threshold + 1) - 1` probes of that peer. */
  lemma MonitorReports(configured: int, seen: seq<Sighting>, target: Target)
    requires Alone(seen, target)
    ensures var t := if configured > 0 then configured else 3;
            var reports := ReportsAbout(EmittedAll(NOTHING, Threshold(configured), seen), target);
            && reports == AllDue(ProbesAbout(seen, target), t)
            && Alternates(reports)
            && CountUnreachable(reports) * (t + 1) <= |ProbesAbout(seen, target)| + 1
  {
    var t, probes := Threshold(configured), ProbesAbout(seen, target);
    SentIsDue(t, seen, target);
    ReportsAlternate(probes, t);
    ReportsUse(probes, t);
  }

  // ---------- The bound is sharp ----------

  function StaleTimes(n: nat): seq<Probe> {
    seq(n, i => Stale)
  }

  /** The fastest way to `k` reports: outages of exactly `threshold` stale probes, a fresh one between. */
  function Outages(k: nat, threshold: nat): seq<Probe> {
    if k == 0 then []
    else (if k == 1 then [] else Outages(k - 1, threshold) + [Fresh]) + StaleTimes(threshold)
  }

  lemma {:induction false} StaleStretch(before: seq<Probe>, n: nat, threshold: nat)
    requires StaleRun(before) == 0 && 0 < n <= threshold
    ensures var all := before + StaleTimes(n);
            && StaleRun(all) == n
            && AllDue(all, threshold) == AllDue(before, threshold) + if n == threshold then [Unreachable] else []
  {
    hide AllDue, StaleRun;
    var init := before + StaleTimes(n - 1);
    assert before + StaleTimes(n) == init + [Stale];
    assert n == 1 ==> init == before;
    hide StaleTimes;
    if n > 1 {
      StaleStretch(before, n - 1, threshold);
    }
    OneMoreStale(init, threshold);
  }

  lemma OneMoreStale(init: seq<Probe>, threshold: nat)
    ensures StaleRun(init + [Stale]) == StaleRun(init) + 1
    ensures AllDue(init + [Stale], threshold) ==
            AllDue(init, threshold) + if StaleRun(init) + 1 == threshold then [Unreachable] else []
  {
    assert (init + [Stale])[..|init|] == init;
  }

  lemma OutageAgain(before: seq<Probe>, k: nat, threshold: nat)
    requires threshold > 0 && k > 0 && StaleRun(before) == threshold
    requires CountUnreachable(AllDue(before, threshold)) == k
    ensures var probes := before + [Fresh] + StaleTimes(threshold);
            && StaleRun(probes) == threshold
            && CountUnreachable(AllDue(probes, threshold)) == k + 1
  {
    var calm := before + [Fresh];
    assert calm[..|before|] == before;
    assert AllDue(calm, threshold) == AllDue(before, threshold) + [Recovered];
    CountAppend(AllDue(before, threshold), Recovered);
    StaleStretch(calm, threshold, threshold);
    CountAppend(AllDue(calm, threshold), Unreachable);
  }

  /** No more probes are needed than that. */
  lemma {:induction false} BoundIsSharp(k: nat, threshold: nat)
    requires threshold > 0 && k > 0
    ensures var probes := Outages(k, threshold);
            && StaleRun(probes) == threshold
            && CountUnreachable(AllDue(probes, threshold)) == k
            && k * (threshold + 1) == |probes| + 1
  {
    if k == 1 {
      StaleStretch([], threshold, threshold);
      CountAppend([], Unreachable);
      assert [] + StaleTimes(threshold) == StaleTimes(threshold);
      assert AllDue(StaleTimes(threshold), threshold) == [] + [Unreachable];
      hide AllDue, StaleRun, CountUnreachable, StaleTimes;
    } else {
      BoundIsSharp(k - 1, threshold);
      assert (k - 1) * (threshold + 1) + threshold + 1 == k * (threshold + 1);
      hide AllDue, StaleRun, CountUnreachable;
      OutageAgain(Outages(k - 1, threshold), k - 1, threshold);
    }
  }
}
