/** The cooldown between automatic natter runs. Requests read the clock before they take the lock, so
    the times arrive here in any order. */
module Cooldown {

  /** One unreachable report that reached the lock: the server interface it is about, and the time it read. */
  datatype Attempt = Attempt(key: string, now: int)

  function Key(serverNode: string, serverIface: string): string {
    serverNode + "/" + serverIface
  }

  predicate Allowed(last: map<string, int>, cooldown: int, a: Attempt) {
    a.key in last ==> a.now - last[a.key] >= cooldown
  }

  function Noted(last: map<string, int>, cooldown: int, a: Attempt): map<string, int> {
    if Allowed(last, cooldown, a) then last[a.key := a.now] else last
  }

  /** The table after a run of attempts in lock order. */
  function Table(cooldown: int, attempts: seq<Attempt>): map<string, int> {
    if attempts == [] then map[]
    else Noted(Table(cooldown, attempts[..|attempts| - 1]), cooldown, attempts[|attempts| - 1])
  }

  /** The times of the attempts for `key` that led to a natter run, in lock order. */
  function Accepted(cooldown: int, attempts: seq<Attempt>, key: string): seq<int> {
    if attempts == [] then []
    else
      var init, last := attempts[..|attempts| - 1], attempts[|attempts| - 1];
      Accepted(cooldown, init, key) +
      if last.key == key && Allowed(Table(cooldown, init), cooldown, last) then [last.now] else []
  }

  predicate Spaced(times: seq<int>, gap: int) {
    forall i :: 0 <= i < |times| - 1 ==> times[i + 1] - times[i] >= gap
  }

  lemma {:induction false} TableHoldsLast(cooldown: int, attempts: seq<Attempt>, key: string)
    ensures var times := Accepted(cooldown, attempts, key);
            var table := Table(cooldown, attempts);
            && (key in table <==> times != [])
            && (times != [] ==> table[key] == times[|times| - 1])
  {
    if attempts != [] {
      TableHoldsLast(cooldown, attempts[..|attempts| - 1], key);
    }
  }

  /** Whatever order the lock is taken in, accepted times of a key are a cooldown apart, in that order. */
  lemma {:induction false} AcceptedAreSpaced(cooldown: int, attempts: seq<Attempt>, key: string)
    ensures Spaced(Accepted(cooldown, attempts, key), cooldown)
  {
    if attempts != [] {
      AcceptedAreSpaced(cooldown, attempts[..|attempts| - 1], key);
      TableHoldsLast(cooldown, attempts[..|attempts| - 1], key);
    }
  }

  lemma {:induction false} SpacedFar(times: seq<int>, gap: int, i: nat, j: nat)
    requires Spaced(times, gap) && i <= j < |times|
    ensures times[j] - times[i] >= (j - i) * gap
  {
    if i < j {
      SpacedFar(times, gap, i, j - 1);
      assert (j - i) * gap == (j - 1 - i) * gap + gap;
    }
  }

  /** The times within a closed window. */
  function Within(times: seq<int>, lo: int, hi: int): seq<int> {
    if times == [] then []
    else
      var init, last := Within(times[..|times| - 1], lo, hi), times[|times| - 1];
      if lo <= last <= hi then init + [last] else init
  }

  /** The times in a window are a stretch of spaced times. */
  lemma {:induction false} WithinIsStretch(times: seq<int>, gap: int, lo: int, hi: int)
    requires Spaced(times, gap) && gap > 0
    ensures var w := Within(times, lo, hi);
            && Spaced(w, gap)
            && (forall i :: 0 <= i < |w| ==> lo <= w[i] <= hi)
            && (w != [] ==> w[|w| - 1] <= times[|times| - 1])
  {
    if times != [] {
      var init := times[..|times| - 1];
      assert Spaced(init, gap);
      WithinIsStretch(init, gap, lo, hi);
      if init != [] {
        assert times[|init|] - times[|init| - 1] >= gap;
      }
    }
  }

  predicate FarApart(times: seq<int>, gap: int) {
    forall i, j :: 0 <= i < j < |times| ==> times[j] - times[i] >= (j - i) * gap
  }

  lemma SpacedAreFarApart(times: seq<int>, gap: int)
    requires Spaced(times, gap)
    ensures FarApart(times, gap)
  {
    hide Spaced;
    forall i, j | 0 <= i < j < |times| ensures times[j] - times[i] >= (j - i) * gap {
      SpacedFar(times, gap, i, j);
    }
  }

  lemma AtMostWithin(w: seq<int>, gap: int, lo: int, width: nat)
    requires Spaced(w, gap) && gap > 0 && forall i :: 0 <= i < |w| ==> lo <= w[i] <= lo + width
    ensures |w| <= width / gap + 1
  {
    if w != [] {
      hide Spaced;
      SpacedFar(w, gap, 0, |w| - 1);
      assert (|w| - 1 - 0) * gap <= width;
      Quotient(|w| - 1, gap, width);
    }
  }

  lemma Quotient(n: nat, d: int, w: nat)
    requires d > 0 && n * d <= w
    ensures n <= w / d
  {
    var q := w / d;
    assert w < (q + 1) * d;
    assert n >= q + 1 ==> n * d >= (q + 1) * d;
  }

  /** Per server interface: accepted times strictly increase with gaps of at least the cooldown, and a
      closed window of length `width` holds at most `width / cooldown + 1` of them. */
  lemma AtMostPerWindow(cooldown: int, attempts: seq<Attempt>, key: string, lo: int, width: nat)
    requires cooldown > 0
    ensures FarApart(Accepted(cooldown, attempts, key), cooldown)
    ensures |Within(Accepted(cooldown, attempts, key), lo, lo + width)| <= width / cooldown + 1
  {
    hide Accepted, Within, Spaced, FarApart;
    var times := Accepted(cooldown, attempts, key);
    AcceptedAreSpaced(cooldown, attempts, key);
    SpacedAreFarApart(times, cooldown);
    WithinIsStretch(times, cooldown, lo, lo + width);
    AtMostWithin(Within(times, lo, lo + width), cooldown, lo, width);
  }

  predicate Clears(times: seq<int>, cooldown: int, now: int) {
    forall i :: 0 <= i < |times| ==> now - times[i] >= cooldown
  }

  lemma {:induction false} SpacedIncrease(times: seq<int>, gap: int, i: nat, j: nat)
    requires Spaced(times, gap) && gap > 0 && i <= j < |times|
    ensures times[i] <= times[j]
  {
    if i < j {
      SpacedIncrease(times, gap, i, j - 1);
    }
  }

  lemma LastDecides(times: seq<int>, cooldown: int, now: int)
    requires Spaced(times, cooldown) && cooldown > 0
    ensures Clears(times, cooldown, now) <==> (times != [] ==> now - times[|times| - 1] >= cooldown)
  {
    forall i | 0 <= i < |times| ensures times[i] <= times[|times| - 1] {
      SpacedIncrease(times, cooldown, i, |times| - 1);
    }
  }

  /** An attempt leads to a run exactly when it is at least a cooldown later than every accepted attempt
      of its key: one that read the clock earlier but got the lock later is turned down. */
  lemma AcceptedIff(cooldown: int, attempts: seq<Attempt>, a: Attempt)
    requires cooldown > 0
    ensures var times := Accepted(cooldown, attempts, a.key);
            Accepted(cooldown, attempts + [a], a.key) ==
            if Clears(times, cooldown, a.now) then times + [a.now] else times
  {
    assert (attempts + [a])[..|attempts|] == attempts;
    TableHoldsLast(cooldown, attempts, a.key);
    AcceptedAreSpaced(cooldown, attempts, a.key);
    LastDecides(Accepted(cooldown, attempts, a.key), cooldown, a.now);
    hide Clears, Spaced;
  }

  /** The same as a test on the table of last runs. */
  lemma AllowedIff(cooldown: int, attempts: seq<Attempt>, a: Attempt)
    requires cooldown > 0
    ensures Allowed(Table(cooldown, attempts), cooldown, a) <==>
            Clears(Accepted(cooldown, attempts, a.key), cooldown, a.now)
  {
    TableHoldsLast(cooldown, attempts, a.key);
    AcceptedAreSpaced(cooldown, attempts, a.key);
    LastDecides(Accepted(cooldown, attempts, a.key), cooldown, a.now);
    hide Clears, Spaced;
  }
}
