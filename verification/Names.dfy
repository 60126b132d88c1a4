/** Identifiers the store derives from names: table keys and automatic binding ids. */
module Names {

  predicate Allowed(c: char) {
    'a' <= c <= 'z' || 'A' <= c <= 'Z' || '0' <= c <= '9' || c == '.' || c == '_' || c == '-'
  }

  predicate Forbidden(c: char) {
    !Allowed(c)
  }

  predicate IsDash(c: char) {
    c == '-'
  }

  /** Replaces every maximal run of characters satisfying `p` by one dash.
      `inRun` says that the preceding character was already part of such a run. */
  function ReplaceRuns(s: string, p: char -> bool, inRun: bool): string {
    if s == "" then ""
    else if p(s[0]) then (if inRun then "" else "-") + ReplaceRuns(s[1..], p, true)
    else [s[0]] + ReplaceRuns(s[1..], p, false)
  }

  function DropLeadingDash(s: string): string {
    if s != "" && s[0] == '-' then s[1..] else s
  }

  function DropTrailingDash(s: string): string {
    if s != "" && s[|s| - 1] == '-' then s[..|s| - 1] else s
  }

  function CleanID(value: string): string {
    var squashed := ReplaceRuns(value, Forbidden, false);
    var collapsed := ReplaceRuns(squashed, IsDash, false);
    var trimmed := DropTrailingDash(DropLeadingDash(collapsed));
    if trimmed == "" then "binding" else trimmed
  }

  function AutoBindingID(domain: string, server: string, serverIface: string, client: string,
                         clientIface: string): string
  {
    CleanID(domain + "-" + server + "-" + serverIface + "-to-" + client + "-" + clientIface)
  }

  function MemberKey(domain: string, node: string): string {
    domain + "/" + node
  }

  function InterfaceKey(node: string, name: string): string {
    node + "/" + name
  }

  /** Names joined by a slash are the same names if the first ones have none. */
  lemma SlashSeparates(a: string, x: string, b: string, y: string)
    requires '/' !in a && '/' !in b && a + "/" + x == b + "/" + y
    ensures a == b && x == y
  {
    var l, r := a + "/" + x, b + "/" + y;
    assert l[..|a|] == a && r[..|b|] == b && l[|a|] == '/' && r[|b|] == '/';
    assert forall i :: 0 <= i < |a| ==> l[i] == a[i] && a[i] in a;
    assert forall i :: 0 <= i < |b| ==> r[i] == b[i] && b[i] in b;
    assert l[|a| + 1..] == x && r[|b| + 1..] == y;
  }

  /** With slashes in the first names, different pairs share a key. */
  lemma SlashedNamesMeet(a: string, b: string, c: string)
    ensures MemberKey(a + "/" + b, c) == MemberKey(a, b + "/" + c)
    ensures InterfaceKey(a + "/" + b, c) == InterfaceKey(a, b + "/" + c)
  {
    assert a + "/" + b + "/" + c == a + "/" + (b + "/" + c);
  }

  // ---------- Shape of a cleaned id ----------

  predicate NoDoubledDash(s: string) {
    forall i :: 0 <= i < |s| - 1 ==> !(s[i] == '-' && s[i + 1] == '-')
  }

  predicate AllAllowed(s: string) {
    forall i :: 0 <= i < |s| ==> Allowed(s[i])
  }

  /** The language of cleaned ids. */
  predicate IsClean(s: string) {
    && s != ""
    && AllAllowed(s)
    && NoDoubledDash(s)
    && s[0] != '-'
    && s[|s| - 1] != '-'
  }

  lemma {:induction false} SquashedIsAllowed(s: string, inRun: bool)
    ensures AllAllowed(ReplaceRuns(s, Forbidden, inRun))
  {
    if s != "" {
      SquashedIsAllowed(s[1..], Forbidden(s[0]));
    }
  }

  lemma {:induction false} CollapseKeepsAllowed(s: string, inRun: bool)
    requires AllAllowed(s)
    ensures AllAllowed(ReplaceRuns(s, IsDash, inRun))
  {
    if s != "" {
      CollapseKeepsAllowed(s[1..], IsDash(s[0]));
    }
  }

  lemma {:induction false} CollapsedHasNoDoubledDash(s: string, inRun: bool)
    ensures var r := ReplaceRuns(s, IsDash, inRun);
            NoDoubledDash(r) && (inRun && r != "" ==> r[0] != '-')
  {
    if s != "" {
      CollapsedHasNoDoubledDash(s[1..], IsDash(s[0]));
    }
  }

  lemma {:induction false} SquashFixes(s: string, inRun: bool)
    requires AllAllowed(s)
    ensures ReplaceRuns(s, Forbidden, inRun) == s
  {
    if s != "" {
      SquashFixes(s[1..], false);
    }
  }

  lemma {:induction false} CollapseFixes(s: string, inRun: bool)
    requires NoDoubledDash(s) && (inRun && s != "" ==> s[0] != '-')
    ensures ReplaceRuns(s, IsDash, inRun) == s
  {
    if s != "" {
      assert NoDoubledDash(s[1..]) by {
        forall i | 0 <= i < |s[1..]| - 1 ensures !(s[1..][i] == '-' && s[1..][i + 1] == '-') {
          assert s[1..][i] == s[i + 1] && s[1..][i + 1] == s[i + 2];
        }
      }
      CollapseFixes(s[1..], IsDash(s[0]));
    }
  }

  lemma DropLeadingDashTrims(s: string)
    requires NoDoubledDash(s) && AllAllowed(s)
    ensures var r := DropLeadingDash(s); NoDoubledDash(r) && AllAllowed(r) && (r != "" ==> r[0] != '-')
  {
    var r := DropLeadingDash(s);
    var off := |s| - |r|;
    assert forall i :: 0 <= i < |r| ==> r[i] == s[i + off];
    forall i | 0 <= i < |r| - 1 ensures !(r[i] == '-' && r[i + 1] == '-') {
      assert r[i] == s[i + off] && r[i + 1] == s[i + off + 1];
    }
  }

  lemma DropTrailingDashTrims(s: string)
    requires NoDoubledDash(s) && AllAllowed(s) && (s != "" ==> s[0] != '-')
    ensures var r := DropTrailingDash(s);
            r != "" ==> NoDoubledDash(r) && AllAllowed(r) && r[0] != '-' && r[|r| - 1] != '-'
  {
  }

  /** Every id handed out is in the language of cleaned ids, whatever the names were. */
  lemma CleanIDShape(value: string)
    ensures IsClean(CleanID(value))
  {
    var squashed := ReplaceRuns(value, Forbidden, false);
    SquashedIsAllowed(value, false);
    CollapseKeepsAllowed(squashed, false);
    CollapsedHasNoDoubledDash(squashed, false);
    var collapsed := ReplaceRuns(squashed, IsDash, false);
    DropLeadingDashTrims(collapsed);
    DropTrailingDashTrims(DropLeadingDash(collapsed));
  }

  /** The cleaned ids are exactly the fixed points of cleaning. */
  lemma CleanIDFixedPoints(value: string)
    ensures CleanID(value) == value <==> IsClean(value)
  {
    CleanIDShape(value);
    if IsClean(value) {
      SquashFixes(value, false);
      CollapseFixes(value, false);
    }
  }

  lemma CleanIDIdempotent(value: string)
    ensures CleanID(CleanID(value)) == CleanID(value)
  {
    CleanIDShape(value);
    CleanIDFixedPoints(CleanID(value));
  }

  // ---------- What cleaning keeps of any text ----------

  predicate Separates(c: char) {
    c == '-' || !('a' <= c <= 'z' || 'A' <= c <= 'Z' || '0' <= c <= '9' || c == '.' || c == '_')
  }

  function Flushed(word: string): seq<string> {
    if word == "" then [] else [word]
  }

  /** The words of a text behind an unfinished one: the longest stretches without separators. */
  function WordsFrom(word: string, s: string): seq<string>
    decreases |s|
  {
    if s == "" then Flushed(word)
    else if Separates(s[0]) then Flushed(word) + WordsFrom("", s[1..])
    else WordsFrom(word + [s[0]], s[1..])
  }

  function DashJoin(words: seq<string>): string {
    if words == [] then ""
    else if |words| == 1 then words[0]
    else words[0] + "-" + DashJoin(words[1..])
  }

  lemma {:induction false} RunsKeepWords(word: string, s: string, p: char -> bool, inRun: bool)
    requires (forall c :: p(c) ==> Separates(c)) && (inRun ==> word == "")
    ensures WordsFrom(word, ReplaceRuns(s, p, inRun)) == WordsFrom(word, s)
    decreases |s|
  {
    if s != "" {
      hide Separates;
      assert Separates('-') by { DashSeparates(); }
      if p(s[0]) {
        RunsKeepWords("", s[1..], p, true);
        var r := ReplaceRuns(s[1..], p, true);
        assert ("-" + r)[1..] == r;
        assert "" + r == r;
      } else {
        var r := ReplaceRuns(s[1..], p, false);
        assert ([s[0]] + r)[1..] == r;
        RunsKeepWords(if Separates(s[0]) then "" else word + [s[0]], s[1..], p, false);
      }
    }
  }

  lemma DashSeparates()
    ensures Separates('-')
  {
  }

  lemma LeadingDashKeepsWords(s: string)
    ensures WordsFrom("", DropLeadingDash(s)) == WordsFrom("", s)
  {
    assert [] + WordsFrom("", DropLeadingDash(s)) == WordsFrom("", DropLeadingDash(s));
  }

  lemma {:induction false} TrailingDashKeepsWords(word: string, s: string)
    ensures WordsFrom(word, s + "-") == WordsFrom(word, s)
    decreases |s|
  {
    var t := s + "-";
    if s == "" {
      assert t[1..] == "";
      assert Flushed(word) + [] == Flushed(word);
    } else {
      assert t[1..] == s[1..] + "-";
      TrailingDashKeepsWords(if Separates(s[0]) then "" else word + [s[0]], s[1..]);
    }
  }

  /** A text with single dashes only, none at the end, is its words joined. */
  lemma {:induction false} SingleDashesJoin(word: string, s: string)
    requires AllAllowed(s) && NoDoubledDash(s) && (s != "" ==> s[|s| - 1] != '-')
    requires word == "" ==> s != "" && s[0] != '-'
    ensures WordsFrom(word, s) != [] && DashJoin(WordsFrom(word, s)) == word + s
    decreases |s|
  {
    if s != "" {
      var rest := s[1..];
      assert forall i :: 0 <= i < |rest| ==> rest[i] == s[i + 1];
      assert NoDoubledDash(rest) by {
        forall i | 0 <= i < |rest| - 1 ensures !(rest[i] == '-' && rest[i + 1] == '-') {
          assert rest[i] == s[i + 1] && rest[i + 1] == s[i + 2];
        }
      }
      if s[0] == '-' {
        assert rest != "" && !(s[0] == '-' && s[0 + 1] == '-');
        SingleDashesJoin("", rest);
        var words := WordsFrom("", rest);
        assert ([word] + words)[1..] == words;
        assert word + "-" + rest == word + s;
      } else {
        SingleDashesJoin(word + [s[0]], rest);
        assert word + [s[0]] + rest == word + s;
      }
    }
  }

  lemma WordsOfCollapsed(value: string)
    ensures var collapsed := ReplaceRuns(ReplaceRuns(value, Forbidden, false), IsDash, false);
            var trimmed := DropTrailingDash(DropLeadingDash(collapsed));
            WordsFrom("", trimmed) == WordsFrom("", value)
  {
    var squashed := ReplaceRuns(value, Forbidden, false);
    RunsKeepWords("", value, Forbidden, false);
    RunsKeepWords("", squashed, IsDash, false);
    var collapsed := ReplaceRuns(squashed, IsDash, false);
    LeadingDashKeepsWords(collapsed);
    var r := DropLeadingDash(collapsed);
    if r != "" && r[|r| - 1] == '-' {
      assert r == r[..|r| - 1] + "-";
      TrailingDashKeepsWords("", r[..|r| - 1]);
    }
  }

  /** Cleaning any text leaves its words, with one dash between. */
  lemma CleanIDKeepsWords(value: string)
    ensures var words := WordsFrom("", value);
            CleanID(value) == if words == [] then "binding" else DashJoin(words)
  {
    WordsOfCollapsed(value);
    CleanIDShape(value);
    var collapsed := ReplaceRuns(ReplaceRuns(value, Forbidden, false), IsDash, false);
    var trimmed := DropTrailingDash(DropLeadingDash(collapsed));
    hide ReplaceRuns, DropLeadingDash, DropTrailingDash;
    if trimmed != "" {
      assert IsClean(trimmed);
      SingleDashesJoin("", trimmed);
    }
  }

  // ---------- When automatic ids are unambiguous ----------

  /** Two names that a text cannot both start with when each is followed by `sep`. */
  predicate Apart(a: string, b: string, sep: string) {
    a == b || (!(a + sep <= b + sep) && !(b + sep <= a + sep))
  }

  /** Clean names, pairwise apart: no name followed by `sep` starts another one followed by it. */
  ghost predicate PrefixFree(names: set<string>, sep: string) {
    && (forall a :: a in names ==> IsClean(a))
    && (forall a, b :: a in names && b in names ==> Apart(a, b, sep))
  }

  lemma SeparatorSplits(a: string, x: string, b: string, y: string, sep: string)
    requires Apart(a, b, sep) && Joined(a, sep, x) == Joined(b, sep, y)
    ensures a == b && x == y
  {
    var l, r, m, n := a + sep + x, b + sep + y, |a + sep|, |b + sep|;
    assert l[..m] == a + sep && r[..n] == b + sep;
    assert |a| <= |b| ==> (b + sep)[..m] == r[..m];
    assert |b| <= |a| ==> (a + sep)[..n] == l[..n];
    assert a + sep == b + sep ==> a == (a + sep)[..|a|] == b;
    assert x == l[m..] && y == r[n..];
  }

  lemma DashJoinIsClean(a: string, x: string)
    requires IsClean(a) && IsClean(x)
    ensures IsClean(a + "-" + x)
  {
    var s := a + "-" + x;
    forall i | 0 <= i < |s| - 1 ensures !(s[i] == '-' && s[i + 1] == '-') {
      if i < |a| - 1 {
        assert s[i] == a[i] && s[i + 1] == a[i + 1];
      } else if i == |a| - 1 {
        assert s[i] == a[|a| - 1];
      } else if i == |a| {
        assert s[i + 1] == x[0];
      } else {
        assert s[i] == x[i - |a| - 1] && s[i + 1] == x[i - |a|];
      }
    }
  }

  /** On clean names an automatic id is the dash-joined text itself: cleaning changes nothing. */
  lemma AutoBindingIDOfClean(d: string, s: string, si: string, c: string, ci: string)
    requires IsClean(d) && IsClean(s) && IsClean(si) && IsClean(c) && IsClean(ci)
    ensures AutoBindingID(d, s, si, c, ci) == d + "-" + (s + "-" + (si + "-" + ("to" + "-" + (c + "-" + ci))))
  {
    var t0 := c + "-" + ci;
    var t1 := "to" + "-" + t0;
    var t2 := si + "-" + t1;
    var t3 := s + "-" + t2;
    var t4 := d + "-" + t3;
    assert IsClean("to");
    DashJoinIsClean(c, ci);
    DashJoinIsClean("to", t0);
    DashJoinIsClean(si, t1);
    DashJoinIsClean(s, t2);
    DashJoinIsClean(d, t3);
    assert d + "-" + s + "-" + si + "-to-" + c + "-" + ci == t4;
    hide IsClean;
    CleanIDFixedPoints(t4);
  }

  function Joined(a: string, sep: string, x: string): string {
    a + sep + x
  }

  lemma ToIsOneSeparator(si: string, t: string)
    ensures si + "-" + ("to" + "-" + t) == Joined(si, "-to-", t)
  {
  }

  /** The same text with "-to-" taken as one separator. */
  lemma AutoBindingIDAround(d: string, s: string, si: string, c: string, ci: string)
    requires IsClean(d) && IsClean(s) && IsClean(si) && IsClean(c) && IsClean(ci)
    ensures AutoBindingID(d, s, si, c, ci) ==
            Joined(d, "-", Joined(s, "-", Joined(si, "-to-", Joined(c, "-", ci))))
  {
    AutoBindingIDOfClean(d, s, si, c, ci);
    hide IsClean, AutoBindingID;
    ToIsOneSeparator(si, c + "-" + ci);
  }

  /** Clean names that are apart, position by position, share an automatic id only when they are the same. */
  lemma AutoBindingIDSeparates(d: string, s: string, si: string, c: string, ci: string,
                               d': string, s': string, si': string, c': string, ci': string)
    requires IsClean(d) && IsClean(s) && IsClean(si) && IsClean(c) && IsClean(ci)
    requires IsClean(d') && IsClean(s') && IsClean(si') && IsClean(c') && IsClean(ci')
    requires Apart(d, d', "-") && Apart(s, s', "-") && Apart(si, si', "-to-") && Apart(c, c', "-")
    requires AutoBindingID(d, s, si, c, ci) == AutoBindingID(d', s', si', c', ci')
    ensures d == d' && s == s' && si == si' && c == c' && ci == ci'
  {
    AutoBindingIDAround(d, s, si, c, ci);
    AutoBindingIDAround(d', s', si', c', ci');
    hide IsClean, AutoBindingID, Apart, Joined;
    var t0, t0' := Joined(c, "-", ci), Joined(c', "-", ci');
    var t1, t1' := Joined(si, "-to-", t0), Joined(si', "-to-", t0');
    SeparatorSplits(d, Joined(s, "-", t1), d', Joined(s', "-", t1'), "-");
    SeparatorSplits(s, t1, s', t1', "-");
    SeparatorSplits(si, t0, si', t0', "-to-");
    SeparatorSplits(c, ci, c', ci', "-");
  }

  // ---------- And when they are not ----------

  lemma PrefixIsShorter(a: string, b: string, sep: string)
    requires a + sep <= b + sep
    ensures |a| <= |b| && (|a| == |b| ==> a == b)
  {
    assert (b + sep)[..|a|] == (a + sep)[..|a|] == a && (b + sep)[..|b|] == b;
  }

  lemma FollowedIsSingle(b: string, sep: string)
    requires IsClean(b) && (sep == "-" || sep == "-to-")
    ensures AllAllowed(b + sep) && NoDoubledDash(b + sep) && (b + sep)[|b + sep| - 1] == '-'
  {
  }

  lemma RestIsClean(l: string, m: nat)
    requires AllAllowed(l) && NoDoubledDash(l) && 0 < m < |l| && l[m - 1] == '-' && l[|l| - 1] == '-'
    ensures IsClean(l[m..|l| - 1])
  {
    var r := l[m..|l| - 1];
    var n := |l| - 2;
    assert l[m - 1 + 1] == l[m] && l[n + 1] == '-';
    assert l[m] != '-' && l[n] != '-';
    assert forall i :: 0 <= i < |r| ==> r[i] == l[m + i];
    forall i | 0 <= i < |r| - 1 ensures !(r[i] == '-' && r[i + 1] == '-') {
      assert r[i] == l[m + i] && r[i + 1] == l[m + i + 1];
    }
  }

  /** Where a clean name followed by the separator starts another one, continuing the second by any clean
      text is continuing the first by some clean text. */
  lemma Continues(a: string, b: string, sep: string, y: string) returns (x: string)
    requires IsClean(a) && IsClean(b) && IsClean(y) && (sep == "-" || sep == "-to-")
    requires a != b && a + sep <= b + sep
    ensures IsClean(x) && Joined(a, sep, x) == Joined(b, sep, y)
  {
    var l, m := b + sep, |a + sep|;
    FollowedIsSingle(b, sep);
    assert l[..m] == a + sep;
    PrefixIsShorter(a, b, sep);
    var r := l[m..|l| - 1];
    assert l[m - 1] == (a + sep)[m - 1] == '-';
    RestIsClean(l, m);
    x := r + "-" + y;
    DashJoinIsClean(r, y);
    assert l == a + sep + r + "-";
  }

  lemma Meeting(a: string, b: string, sep: string) returns (x: string, y: string)
    requires IsClean(a) && IsClean(b) && (sep == "-" || sep == "-to-") && !Apart(a, b, sep)
    ensures a != b && IsClean(x) && IsClean(y) && Joined(a, sep, x) == Joined(b, sep, y)
  {
    assert IsClean("x");
    hide IsClean, Joined;
    if a + sep <= b + sep {
      y := "x";
      x := Continues(a, b, sep, y);
    } else {
      x := "x";
      y := Continues(b, a, sep, x);
    }
  }

  lemma NeverMeet(a: string, x: string, b: string, y: string, sep: string)
    requires Apart(a, b, sep) && a != b
    ensures Joined(a, sep, x) != Joined(b, sep, y)
  {
    hide Joined, Apart;
    if Joined(a, sep, x) == Joined(b, sep, y) {
      SeparatorSplits(a, x, b, y, sep);
    }
  }

  lemma Regroup(a: string, sep: string, x: string, sep': string, t: string)
    ensures Joined(a, sep, Joined(x, sep', t)) == Joined(Joined(a, sep, x), sep', t)
  {
  }

  lemma SameHead(p: string, sep: string, u: string, v: string)
    ensures Joined(p, sep, u) == Joined(p, sep, v) <==> u == v
  {
    var n := |p + sep|;
    assert Joined(p, sep, u)[n..] == u && Joined(p, sep, v)[n..] == v;
  }

  lemma SameTail(u: string, v: string, sep: string, t: string)
    ensures Joined(u, sep, t) == Joined(v, sep, t) <==> u == v
  {
    if Joined(u, sep, t) == Joined(v, sep, t) {
      assert |u| == |v|;
      assert Joined(u, sep, t)[..|u|] == u && Joined(v, sep, t)[..|v|] == v;
    }
  }

  /** A common rest does not matter. */
  lemma SameRest(a: string, x: string, b: string, y: string, sep: string, sep': string, t: string)
    ensures Joined(a, sep, Joined(x, sep', t)) == Joined(b, sep, Joined(y, sep', t)) <==>
            Joined(a, sep, x) == Joined(b, sep, y)
  {
    Regroup(a, sep, x, sep', t);
    Regroup(b, sep, y, sep', t);
    SameTail(Joined(a, sep, x), Joined(b, sep, y), sep', t);
    hide Joined;
  }

  lemma SameIdAtDomain(d: string, d': string, si: string, c: string, ci: string, s: string, s': string)
    requires IsClean(d) && IsClean(d') && IsClean(si) && IsClean(c) && IsClean(ci)
    requires IsClean(s) && IsClean(s')
    ensures AutoBindingID(d, s, si, c, ci) == AutoBindingID(d', s', si, c, ci) <==>
            Joined(d, "-", s) == Joined(d', "-", s')
  {
    hide IsClean, AutoBindingID, Joined;
    AutoBindingIDAround(d, s, si, c, ci);
    AutoBindingIDAround(d', s', si, c, ci);
    SameRest(d, s, d', s', "-", "-", Joined(si, "-to-", Joined(c, "-", ci)));
  }

  lemma SameIdAtServer(d: string, s: string, s': string, c: string, ci: string, si: string, si': string)
    requires IsClean(d) && IsClean(s) && IsClean(s') && IsClean(c) && IsClean(ci)
    requires IsClean(si) && IsClean(si')
    ensures AutoBindingID(d, s, si, c, ci) == AutoBindingID(d, s', si', c, ci) <==>
            Joined(s, "-", si) == Joined(s', "-", si')
  {
    hide IsClean, AutoBindingID, Joined;
    var t := Joined(c, "-", ci);
    AutoBindingIDAround(d, s, si, c, ci);
    AutoBindingIDAround(d, s', si', c, ci);
    SameHead(d, "-", Joined(s, "-", Joined(si, "-to-", t)), Joined(s', "-", Joined(si', "-to-", t)));
    SameRest(s, si, s', si', "-", "-to-", t);
  }

  lemma SameIdAtIface(d: string, s: string, si: string, si': string, ci: string, c: string, c': string)
    requires IsClean(d) && IsClean(s) && IsClean(si) && IsClean(si') && IsClean(ci)
    requires IsClean(c) && IsClean(c')
    ensures AutoBindingID(d, s, si, c, ci) == AutoBindingID(d, s, si', c', ci) <==>
            Joined(si, "-to-", c) == Joined(si', "-to-", c')
  {
    hide IsClean, AutoBindingID, Joined;
    var u, v := Joined(si, "-to-", Joined(c, "-", ci)), Joined(si', "-to-", Joined(c', "-", ci));
    AutoBindingIDAround(d, s, si, c, ci);
    AutoBindingIDAround(d, s, si', c', ci);
    SameHead(d, "-", Joined(s, "-", u), Joined(s, "-", v));
    SameHead(s, "-", u, v);
    SameRest(si, c, si', c', "-to-", "-", ci);
  }

  lemma SameIdAtClient(d: string, s: string, si: string, c: string, c': string, ci: string, ci': string)
    requires IsClean(d) && IsClean(s) && IsClean(si) && IsClean(c) && IsClean(c')
    requires IsClean(ci) && IsClean(ci')
    ensures AutoBindingID(d, s, si, c, ci) == AutoBindingID(d, s, si, c', ci') <==>
            Joined(c, "-", ci) == Joined(c', "-", ci')
  {
    hide IsClean, AutoBindingID, Joined;
    var u, v := Joined(c, "-", ci), Joined(c', "-", ci');
    AutoBindingIDAround(d, s, si, c, ci);
    AutoBindingIDAround(d, s, si, c', ci');
    SameHead(d, "-", Joined(s, "-", Joined(si, "-to-", u)), Joined(s, "-", Joined(si, "-to-", v)));
    SameHead(s, "-", Joined(si, "-to-", u), Joined(si, "-to-", v));
    SameHead(si, "-to-", u, v);
  }

  /** Being apart is exactly what each position needs: otherwise clean names at the next one make two ids with
      different names here the same. */
  lemma DomainsCollideIff(d: string, d': string, si: string, c: string, ci: string)
    requires IsClean(d) && IsClean(d') && IsClean(si) && IsClean(c) && IsClean(ci)
    ensures Apart(d, d', "-") <==> forall s, s' :: IsClean(s) && IsClean(s') && d != d' ==>
              AutoBindingID(d, s, si, c, ci) != AutoBindingID(d', s', si, c, ci)
  {
    hide IsClean, AutoBindingID, Apart, Joined;
    if Apart(d, d', "-") {
      forall s, s' | IsClean(s) && IsClean(s') && d != d'
        ensures AutoBindingID(d, s, si, c, ci) != AutoBindingID(d', s', si, c, ci)
      {
        SameIdAtDomain(d, d', si, c, ci, s, s');
        NeverMeet(d, s, d', s', "-");
      }
    } else {
      var s, s' := Meeting(d, d', "-");
      SameIdAtDomain(d, d', si, c, ci, s, s');
    }
  }

  lemma ServersCollideIff(d: string, s: string, s': string, c: string, ci: string)
    requires IsClean(d) && IsClean(s) && IsClean(s') && IsClean(c) && IsClean(ci)
    ensures Apart(s, s', "-") <==> forall si, si' :: IsClean(si) && IsClean(si') && s != s' ==>
              AutoBindingID(d, s, si, c, ci) != AutoBindingID(d, s', si', c, ci)
  {
    hide IsClean, AutoBindingID, Apart, Joined;
    if Apart(s, s', "-") {
      forall si, si' | IsClean(si) && IsClean(si') && s != s'
        ensures AutoBindingID(d, s, si, c, ci) != AutoBindingID(d, s', si', c, ci)
      {
        SameIdAtServer(d, s, s', c, ci, si, si');
        NeverMeet(s, si, s', si', "-");
      }
    } else {
      var si, si' := Meeting(s, s', "-");
      SameIdAtServer(d, s, s', c, ci, si, si');
    }
  }

  lemma IfacesCollideIff(d: string, s: string, si: string, si': string, ci: string)
    requires IsClean(d) && IsClean(s) && IsClean(si) && IsClean(si') && IsClean(ci)
    ensures Apart(si, si', "-to-") <==> forall c, c' :: IsClean(c) && IsClean(c') && si != si' ==>
              AutoBindingID(d, s, si, c, ci) != AutoBindingID(d, s, si', c', ci)
  {
    hide IsClean, AutoBindingID, Apart, Joined;
    if Apart(si, si', "-to-") {
      forall c, c' | IsClean(c) && IsClean(c') && si != si'
        ensures AutoBindingID(d, s, si, c, ci) != AutoBindingID(d, s, si', c', ci)
      {
        SameIdAtIface(d, s, si, si', ci, c, c');
        NeverMeet(si, c, si', c', "-to-");
      }
    } else {
      var c, c' := Meeting(si, si', "-to-");
      SameIdAtIface(d, s, si, si', ci, c, c');
    }
  }

  lemma ClientsCollideIff(d: string, s: string, si: string, c: string, c': string)
    requires IsClean(d) && IsClean(s) && IsClean(si) && IsClean(c) && IsClean(c')
    ensures Apart(c, c', "-") <==> forall ci, ci' :: IsClean(ci) && IsClean(ci') && c != c' ==>
              AutoBindingID(d, s, si, c, ci) != AutoBindingID(d, s, si, c', ci')
  {
    hide IsClean, AutoBindingID, Apart, Joined;
    if Apart(c, c', "-") {
      forall ci, ci' | IsClean(ci) && IsClean(ci') && c != c'
        ensures AutoBindingID(d, s, si, c, ci) != AutoBindingID(d, s, si, c', ci')
      {
        SameIdAtClient(d, s, si, c, c', ci, ci');
        NeverMeet(c, ci, c', ci', "-");
      }
    } else {
      var ci, ci' := Meeting(c, c', "-");
      SameIdAtClient(d, s, si, c, c', ci, ci');
    }
  }

  /** A non-empty, dash-free name over [A-Za-z0-9._]. */
  predicate Plain(name: string) {
    name != "" && forall i :: 0 <= i < |name| ==> Allowed(name[i]) && name[i] != '-'
  }

  lemma PlainIsClean(a: string)
    requires Plain(a)
    ensures IsClean(a)
  {
  }

  lemma PlainAreApart(a: string, b: string, sep: string)
    requires Plain(a) && Plain(b) && sep != "" && sep[0] == '-'
    ensures Apart(a, b, sep)
  {
    var x, y := a + sep, b + sep;
    assert x[|a|] == '-' && y[|b|] == '-' && x[..|a|] == a && y[..|b|] == b;
    if x <= y {
      assert y[|a|] == x[|a|] && y[..|a|] == x[..|a|];
    }
    if y <= x {
      assert x[|b|] == y[|b|] && x[..|b|] == y[..|b|];
    }
  }

  /** No two different five-tuples of plain names share an automatic id. */
  lemma AutoBindingIDInjective(d: string, s: string, si: string, c: string, ci: string,
                               d': string, s': string, si': string, c': string, ci': string)
    requires Plain(d) && Plain(s) && Plain(si) && Plain(c) && Plain(ci)
    requires Plain(d') && Plain(s') && Plain(si') && Plain(c') && Plain(ci')
    requires AutoBindingID(d, s, si, c, ci) == AutoBindingID(d', s', si', c', ci')
    ensures d == d' && s == s' && si == si' && c == c' && ci == ci'
  {
    hide IsClean, AutoBindingID, Apart;
    PlainIsClean(d); PlainIsClean(s); PlainIsClean(si); PlainIsClean(c); PlainIsClean(ci);
    PlainIsClean(d'); PlainIsClean(s'); PlainIsClean(si'); PlainIsClean(c'); PlainIsClean(ci');
    PlainAreApart(d, d', "-"); PlainAreApart(s, s', "-"); PlainAreApart(si, si', "-to-"); PlainAreApart(c, c', "-");
    hide Plain;
    AutoBindingIDSeparates(d, s, si, c, ci, d', s', si', c', ci');
  }

  predicate IsHex(c: char) {
    '0' <= c <= '9' || 'a' <= c <= 'f'
  }

  /** The identity an agent makes up for itself: "node-" and sixteen hexadecimal digits. */
  predicate Generated(id: string) {
    |id| == 21 && id[..5] == "node-" && forall i :: 5 <= i < 21 ==> IsHex(id[i])
  }

  /** Any identities the agents generate are clean and apart, although they hold a dash. */
  lemma GeneratedArePrefixFree(ids: set<string>)
    requires forall id :: id in ids ==> Generated(id)
    ensures PrefixFree(ids, "-")
  {
    forall id | id in ids ensures IsClean(id) {
      GeneratedIsClean(id);
    }
    hide IsClean;
    forall a, b | a in ids && b in ids ensures Apart(a, b, "-") {
      SameLengthAreApart(a, b);
    }
  }

  lemma GeneratedIsClean(id: string)
    requires Generated(id)
    ensures IsClean(id)
  {
    assert forall i :: 0 <= i < 5 ==> id[i] == "node-"[i];
  }

  lemma SameLengthAreApart(a: string, b: string)
    requires |a| == |b|
    ensures Apart(a, b, "-")
  {
    assert (a + "-")[..|a|] == a && (b + "-")[..|b|] == b;
  }

  /** Names in which dashes make one start another do make ids collide. */
  lemma DashedNamesCollide(si: string, c: string, ci: string)
    ensures AutoBindingID("a-b", "c", si, c, ci) == AutoBindingID("a", "b-c", si, c, ci)
  {
    assert "a-b" + "-" + "c" == "a" + "-" + "b-c";
  }
}
