/** The bounded event log: a file of lines that always holds a suffix of an unbounded history. */
module EventLog {
  import opened Text

  newtype byte = b: int | 0 <= b < 256
  type Line = seq<byte>

  const NEWLINE: byte := 10
  const RETURN: byte := 13
  const MAX_BYTES := 1_048_576
  const SCAN_LIMIT := 65_536

  // ---------- The file ----------

  /** What rotation leaves: the last MAX_BYTES bytes, without the broken line they may start with. */
  function Rotated(file: seq<byte>): seq<byte> {
    if |file| <= MAX_BYTES then file
    else
      var raw := file[|file| - MAX_BYTES..];
      var i := IndexOf(raw, NEWLINE);
      if i + 1 < |raw| then raw[i + 1..] else raw
  }

  function Appended(file: seq<byte>, line: Line): seq<byte> {
    Rotated(file + line + [NEWLINE])
  }

  /** The file after every line of the history was appended to an empty one. */
  function FileOf(history: seq<Line>): seq<byte> {
    if history == [] then [] else Appended(FileOf(history[..|history| - 1]), history[|history| - 1])
  }

  /** Whole lines, each with its newline: the unbounded log. */
  function Whole(lines: seq<Line>): seq<byte> {
    if lines == [] then [] else Whole(lines[..|lines| - 1]) + lines[|lines| - 1] + [NEWLINE]
  }

  /** The part of a line that fits into the file with its newline. */
  function Clip(line: Line): Line {
    if |line| < MAX_BYTES then line else line[|line| - (MAX_BYTES - 1)..]
  }

  function ClipAll(history: seq<Line>): seq<Line> {
    seq(|history|, i requires 0 <= i < |history| => Clip(history[i]))
  }

  predicate NoNewlines(lines: seq<Line>) {
    forall i :: 0 <= i < |lines| ==> NEWLINE !in lines[i]
  }

  predicate Fit(lines: seq<Line>) {
    forall i :: 0 <= i < |lines| ==> |lines[i]| < 1_048_576
  }

  // ---------- Reading ----------

  function Lines(file: seq<byte>): seq<Line>
    decreases |file|
  {
    if file == [] then []
    else
      var i := IndexOf(file, NEWLINE);
      if i == |file| then [file] else [file[..i]] + Lines(file[i + 1..])
  }

  function Token(line: Line): Line {
    if line != [] && line[|line| - 1] == RETURN then line[..|line| - 1] else line
  }

  /** The scanner gives up at the first line that does not fit its buffer. */
  function Scanned(lines: seq<Line>): seq<Line> {
    if lines == [] || |lines[0]| >= SCAN_LIMIT then [] else [Token(lines[0])] + Scanned(lines[1..])
  }

  function Decoded(tokens: seq<Line>, decodes: Line -> bool): seq<Line> {
    if tokens == [] then []
    else
      var init, last := Decoded(tokens[..|tokens| - 1], decodes), tokens[|tokens| - 1];
      if decodes(last) then init + [last] else init
  }

  class Log {
    var file: seq<byte>

    constructor ()
      ensures file == FileOf([])
    {
      file := [];
    }

    method Append(line: Line)
      modifies this
      ensures file == Appended(old(file), line)
    {
      file := file + line + [NEWLINE];
      Rotate();
    }

    method Rotate()
      modifies this
      ensures file == Rotated(old(file))
    {
      if |file| <= MAX_BYTES {
        return;
      }
      var raw := file[|file| - MAX_BYTES..];
      var i := IndexOf(raw, NEWLINE);
      if i + 1 < |raw| {
        raw := raw[i + 1..];
      }
      file := raw;
    }

    method Read(limit: int, decodes: Line -> bool) returns (out: seq<Line>)
      ensures var seen := Decoded(Scanned(Lines(file)), decodes);
              && |out| == (if 0 < limit <= |seen| then limit else |seen|)
              && forall i :: 0 <= i < |out| ==> out[i] == seen[|seen| - 1 - i]
    {
      var tokens := Scanned(Lines(file));
      var events := [];
      for i := 0 to |tokens|
        invariant events == Decoded(tokens[..i], decodes)
      {
        assert tokens[..i + 1][..i] == tokens[..i];
        if decodes(tokens[i]) {
          events := events + [tokens[i]];
        }
      }
      assert tokens[..|tokens|] == tokens;
      var n := if limit <= 0 || limit > |events| then |events| else limit;
      out := [];
      var i := |events| - 1;
      while i >= 0 && |out| < n
        invariant -1 <= i < |events| && |out| == |events| - 1 - i && |out| <= n
        invariant forall j :: 0 <= j < |out| ==> out[j] == events[|events| - 1 - j]
      {
        out := out + [events[i]];
        i := i - 1;
      }
    }
  }

  // ---------- The file is a suffix of the history ----------

  lemma {:induction false} WholeConcat(a: seq<Line>, b: seq<Line>)
    ensures Whole(a + b) == Whole(a) + Whole(b)
  {
    if b == [] {
      assert a + b == a;
    } else {
      assert (a + b)[..|a + b| - 1] == a + b[..|b| - 1];
      WholeConcat(a, b[..|b| - 1]);
    }
  }

  lemma WholeOne(line: Line)
    ensures Whole([line]) == line + [NEWLINE]
  {
    assert [line][..0] == [];
  }

  lemma WholeCons(lines: seq<Line>)
    requires lines != []
    ensures Whole(lines) == lines[0] + [NEWLINE] + Whole(lines[1..])
  {
    WholeConcat([lines[0]], lines[1..]);
    WholeOne(lines[0]);
    assert [lines[0]] + lines[1..] == lines;
  }

  /** Rotation looks at the end of the file only. */
  lemma RotatedIgnoresFront(front: seq<byte>, back: seq<byte>)
    requires |back| >= MAX_BYTES
    ensures |front + back| > MAX_BYTES && |back| > MAX_BYTES ==> Rotated(front + back) == Rotated(back)
  {
    assert (front + back)[|front + back| - MAX_BYTES..] == back[|back| - MAX_BYTES..];
  }

  lemma CutInFirstLine(line: Line, rest: seq<byte>, cut: nat)
    requires NEWLINE !in line && cut <= |line| && rest != []
    requires |line| + 1 + |rest| - cut == MAX_BYTES && cut > 0
    ensures Rotated(line + [NEWLINE] + rest) == rest
  {
    var file := line + [NEWLINE] + rest;
    var raw := file[cut..];
    IndexOfIs(raw, NEWLINE, |line| - cut) by {
      assert raw[..|line| - cut] == line[cut..];
    }
    assert raw[|line| - cut + 1..] == rest;
  }

  lemma CutAtBoundary(front: seq<byte>, line: Line, rest: seq<byte>)
    requires NEWLINE !in line && front != [] && |line| + 1 + |rest| == MAX_BYTES
    ensures Rotated(front + (line + [NEWLINE] + rest)) == if rest == [] then line + [NEWLINE] else rest
  {
    var raw := line + [NEWLINE] + rest;
    var file := front + raw;
    assert file[|file| - MAX_BYTES..] == raw;
    IndexOfIs(raw, NEWLINE, |line|) by {
      assert raw[..|line|] == line;
    }
    assert raw[|line| + 1..] == rest;
  }

  predicate Keeps(lines: seq<Line>, j: nat) {
    && 0 < j < |lines| && Rotated(Whole(lines)) == Whole(lines[j..])
    && |Whole(lines[j..])| <= MAX_BYTES <= |Whole(lines[j - 1..])|
  }

  lemma RotatedInFirst(lines: seq<Line>)
    requires |lines| > 1 && NEWLINE !in lines[0]
    requires 0 < |Whole(lines)| - MAX_BYTES <= |lines[0]|
    ensures Keeps(lines, 1)
  {
    WholeCons(lines);
    WholeCons(lines[1..]);
    assert lines[0..] == lines;
    hide Rotated, Whole;
    CutInFirstLine(lines[0], Whole(lines[1..]), |Whole(lines)| - MAX_BYTES);
  }

  lemma RotatedAtSecond(lines: seq<Line>)
    requires |lines| > 1 && NEWLINE !in lines[1]
    requires |Whole(lines[1..])| == MAX_BYTES
    ensures Keeps(lines, if |lines| == 2 then 1 else 2)
  {
    WholeCons(lines);
    WholeCons(lines[1..]);
    assert lines[1..][1..] == lines[2..] && lines[0..] == lines;
    CutAtBoundary(lines[0] + [NEWLINE], lines[1], Whole(lines[2..]));
    if |lines| > 2 {
      WholeCons(lines[2..]);
    } else {
      assert lines[2..] == [];
    }
    hide Rotated, Whole;
  }

  lemma RotatedLater(lines: seq<Line>, j: nat)
    requires lines != [] && |Whole(lines[1..])| > MAX_BYTES && Keeps(lines[1..], j)
    ensures Keeps(lines, j + 1)
  {
    var rest := lines[1..];
    WholeCons(lines);
    hide Rotated, Whole;
    RotatedIgnoresFront(lines[0] + [NEWLINE], Whole(rest));
    assert rest[j..] == lines[j + 1..] && rest[j - 1..] == lines[j..];
  }

  /** Rotating whole lines leaves whole lines: as many as fit, give or take one, and always the last. */
  lemma {:induction false} RotatedWhole(lines: seq<Line>) returns (j: nat)
    requires NoNewlines(lines) && Fit(lines) && |Whole(lines)| > MAX_BYTES
    ensures Keeps(lines, j)
  {
    WholeSize(lines);
    hide Keeps, Whole;
    var rest := lines[1..];
    if |Whole(rest)| > MAX_BYTES {
      j := RotatedWhole(rest);
      RotatedLater(lines, j);
      j := j + 1;
    } else if |Whole(rest)| == MAX_BYTES {
      RotatedAtSecond(lines);
      j := if |lines| == 2 then 1 else 2;
    } else {
      RotatedInFirst(lines);
      j := 1;
    }
  }

  lemma WholeSize(lines: seq<Line>)
    ensures |lines| == 0 ==> |Whole(lines)| == 0
    ensures |lines| > 0 ==> |Whole(lines)| == |lines[0]| + 1 + |Whole(lines[1..])|
    ensures |lines| == 1 ==> |Whole(lines)| == |lines[0]| + 1
  {
    if lines != [] {
      WholeCons(lines);
    }
  }

  /** A line that does not fit is cut to its end. */
  lemma AppendedIsClipped(file: seq<byte>, line: Line)
    requires NEWLINE !in line
    ensures Appended(file, line) == Appended(file, Clip(line))
    ensures |line| >= MAX_BYTES ==> Appended(file, line) == Clip(line) + [NEWLINE]
  {
    if |line| >= MAX_BYTES {
      var c := Clip(line);
      CutToLine(file + line[..|line| - (MAX_BYTES - 1)], c);
      assert line[..|line| - (MAX_BYTES - 1)] + c == line;
      assert file + line[..|line| - (MAX_BYTES - 1)] + c + [NEWLINE] == file + line + [NEWLINE];
      CutToLine(file, c);
    }
  }

  lemma CutToLine(front: seq<byte>, line: Line)
    requires NEWLINE !in line && |line| == MAX_BYTES - 1
    ensures Rotated(front + line + [NEWLINE]) == line + [NEWLINE]
  {
    if front == [] {
      assert front + line + [NEWLINE] == line + [NEWLINE];
    } else {
      assert front + line + [NEWLINE] == front + (line + [NEWLINE] + []);
      CutAtBoundary(front, line, []);
    }
  }

  /** The file holds the last lines of the history, from line `j` on and the newest included, with
      over-long lines clipped; it stays within the bound, which the lines kept reach together with the one
      before them. */
  predicate SuffixFrom(history: seq<Line>, j: nat) {
    && j <= |history| && (history != [] ==> j < |history|)
    && FileOf(history) == Whole(ClipAll(history)[j..])
    && |FileOf(history)| <= 1_048_576
    && (j > 0 ==> |Whole(ClipAll(history)[j - 1..])| >= 1_048_576)
  }

  lemma ClipAllExtends(history: seq<Line>, i: nat)
    requires history != [] && i < |history|
    ensures var n := |history| - 1;
            && ClipAll(history)[i..] == ClipAll(history[..n])[i..] + [Clip(history[n])]
            && Whole(ClipAll(history)[i..]) == Whole(ClipAll(history[..n])[i..]) + Clip(history[n]) + [NEWLINE]
  {
    var n := |history| - 1;
    var all, kept, before := ClipAll(history), ClipAll(history)[i..], ClipAll(history[..n])[i..];
    assert kept == before + [Clip(history[n])];
    assert kept[..|kept| - 1] == before;
  }

  lemma SuffixGrows(history: seq<Line>, i: nat)
    requires history != [] && NoNewlines(history) && SuffixFrom(history[..|history| - 1], i)
    ensures var kept := ClipAll(history)[i..];
            && FileOf(history) == Rotated(Whole(kept)) && NoNewlines(kept) && Fit(kept)
            && (|Whole(kept)| <= MAX_BYTES ==> SuffixFrom(history, i))
  {
    var n := |history| - 1;
    ClipAllExtends(history, i);
    if i > 0 {
      ClipAllExtends(history, i - 1);
    }
    AppendedIsClipped(FileOf(history[..n]), history[n]);
    hide Whole, ClipAll;
    assert FileOf(history) == Rotated(Whole(ClipAll(history)[i..]));
    ClippedFit(history, i);
  }

  lemma ClippedFit(history: seq<Line>, i: nat)
    requires i <= |history| && NoNewlines(history)
    ensures NoNewlines(ClipAll(history)[i..]) && Fit(ClipAll(history)[i..])
  {
  }

  /** For any history of any lines. */
  lemma {:induction false} FileIsSuffix(history: seq<Line>) returns (j: nat)
    requires NoNewlines(history)
    ensures SuffixFrom(history, j)
  {
    j := 0;
    if history != [] {
      assert NoNewlines(history[..|history| - 1]);
      var i := FileIsSuffix(history[..|history| - 1]);
      SuffixGrows(history, i);
      j := i;
      var kept := ClipAll(history)[i..];
      if |Whole(kept)| > MAX_BYTES {
        var k := RotatedWhole(kept);
        j := i + k;
        assert kept[k..] == ClipAll(history)[j..] && kept[k - 1..] == ClipAll(history)[j - 1..];
        hide Rotated, Whole, ClipAll, FileOf, NoNewlines, Fit;
      }
    }
  }

  lemma FittingIsUnclipped(history: seq<Line>)
    ensures ClipAll(history) == history <==> Fit(history)
  {
    if !Fit(history) {
      var i :| 0 <= i < |history| && |history[i]| >= MAX_BYTES;
      assert ClipAll(history)[i] != history[i];
    }
  }

  /** Appending a line leaves whole lines of the history in the file exactly when the line fits;
      otherwise only the end of that line is left. */
  lemma NewestIsWholeIff(history: seq<Line>, line: Line)
    requires NoNewlines(history + [line])
    ensures (exists j :: 0 <= j <= |history| &&
                         FileOf(history + [line]) == Whole(ClipAll(history)[j..]) + line + [NEWLINE])
            <==> |line| < MAX_BYTES
    ensures |line| >= MAX_BYTES ==> FileOf(history + [line]) == Clip(line) + [NEWLINE]
  {
    var all := history + [line];
    assert all[..|history|] == history;
    if |line| < MAX_BYTES {
      var j := FileIsSuffix(all);
      ClipAllExtends(all, j);
    } else {
      AppendedIsClipped(FileOf(history), line);
    }
  }

  // ---------- What reading sees ----------

  lemma LinesCons(line: Line, rest: seq<byte>)
    requires NEWLINE !in line
    ensures Lines(line + [NEWLINE] + rest) == [line] + Lines(rest)
  {
    var file := line + [NEWLINE] + rest;
    IndexOfIs(file, NEWLINE, |line|) by {
      assert file[..|line|] == line;
    }
    assert file[..|line|] == line && file[|line| + 1..] == rest;
  }

  lemma {:induction false} LinesOfWhole(lines: seq<Line>)
    requires NoNewlines(lines)
    ensures Lines(Whole(lines)) == lines
  {
    if lines != [] {
      WholeCons(lines);
      LinesOfWhole(lines[1..]);
      hide Whole, Lines;
      LinesCons(lines[0], Whole(lines[1..]));
    }
  }

  /** What the scanner shows of a line: all but a carriage return at its end. */
  function Shown(line: Line): Line {
    if line != [] && line[|line| - 1] == 13 then line[..|line| - 1] else line
  }

  function ShownAll(lines: seq<Line>): seq<Line> {
    seq(|lines|, i requires 0 <= i < |lines| => Shown(lines[i]))
  }

  /** A line that decodes as it is shown. */
  predicate IsEvent(line: Line, decodes: Line -> bool) {
    decodes(Shown(line)) && NEWLINE !in line
  }

  predicate AreEvents(lines: seq<Line>, decodes: Line -> bool) {
    forall i :: 0 <= i < |lines| ==> IsEvent(lines[i], decodes)
  }

  /** The index of the first line the scanner cannot take, or the number of lines. */
  function FirstTooLong(lines: seq<Line>): (k: nat)
    ensures k <= |lines|
    ensures forall i :: 0 <= i < k ==> |lines[i]| < SCAN_LIMIT
    ensures k < |lines| ==> |lines[k]| >= SCAN_LIMIT
  {
    if lines == [] || |lines[0]| >= SCAN_LIMIT then 0 else 1 + FirstTooLong(lines[1..])
  }

  lemma TokenIsShown(line: Line)
    ensures Token(line) == Shown(line)
  {
  }

  lemma ShownMore(lines: seq<Line>, n: nat)
    requires lines != [] && n <= |lines| - 1
    ensures ShownAll(lines[..n + 1]) == [Shown(lines[0])] + ShownAll(lines[1..][..n])
  {
    hide Shown;
  }

  lemma {:induction false} ScannedIsPrefix(lines: seq<Line>)
    ensures Scanned(lines) == ShownAll(lines[..FirstTooLong(lines)])
  {
    if lines != [] && |lines[0]| < SCAN_LIMIT {
      ScannedIsPrefix(lines[1..]);
      hide Shown, Token;
      ShownMore(lines, FirstTooLong(lines[1..]));
      assert Token(lines[0]) == Shown(lines[0]) by {
        TokenIsShown(lines[0]);
      }
    }
  }

  lemma {:induction false} AllDecoded(tokens: seq<Line>, decodes: Line -> bool)
    requires forall i :: 0 <= i < |tokens| ==> decodes(tokens[i])
    ensures Decoded(tokens, decodes) == tokens
  {
    if tokens != [] {
      AllDecoded(tokens[..|tokens| - 1], decodes);
    }
  }

  /** Reading sees the retained events up to the first one the scanner cannot take. */
  lemma ReadSees(lines: seq<Line>, decodes: Line -> bool)
    requires AreEvents(lines, decodes)
    ensures Decoded(Scanned(Lines(Whole(lines))), decodes) == ShownAll(lines[..FirstTooLong(lines)])
  {
    LinesOfWhole(lines);
    ScannedIsPrefix(lines);
    AllDecoded(ShownAll(lines[..FirstTooLong(lines)]), decodes);
    hide Lines, Scanned, Decoded, Whole;
  }

  lemma RetainedEvents(history: seq<Line>, decodes: Line -> bool) returns (j: nat)
    requires AreEvents(history, decodes) && Fit(history)
    ensures SuffixFrom(history, j) && FileOf(history) == Whole(history[j..])
    ensures AreEvents(history[j..], decodes)
  {
    j := FileIsSuffix(history);
    FittingIsUnclipped(history);
    hide FileOf, Whole, ClipAll;
    var kept := history[j..];
    assert forall i :: 0 <= i < |kept| ==> kept[i] == history[j + i];
  }

  /** Line `n` is the first that is not within the scanner's 64 KiB, or there is none. */
  predicate ScansTo(lines: seq<Line>, n: nat) {
    && n <= |lines| && (forall i :: 0 <= i < n ==> |lines[i]| < 65_536)
    && (n < |lines| ==> |lines[n]| >= 65_536)
  }

  lemma FirstTooLongScansTo(lines: seq<Line>)
    ensures ScansTo(lines, FirstTooLong(lines))
  {
  }

  /** After any history of events that fit, reading answers the newest events it sees, newest first: as many as
      asked for, or all. It sees the retained ones before the first that is over the scanner's limit, which hides
      itself and everything newer. */
  lemma ReadReturnsNewest(history: seq<Line>, decodes: Line -> bool, limit: int, out: seq<Line>)
    returns (j: nat, n: nat)
    requires AreEvents(history, decodes) && Fit(history)
    requires var seen := Decoded(Scanned(Lines(FileOf(history))), decodes);
             && |out| == (if 0 < limit <= |seen| then limit else |seen|)
             && forall i :: 0 <= i < |out| ==> out[i] == seen[|seen| - 1 - i]
    ensures SuffixFrom(history, j) && FileOf(history) == Whole(history[j..]) && ScansTo(history[j..], n)
    ensures |out| == if 0 < limit <= n then limit else n
    ensures forall i :: 0 <= i < |out| ==> out[i] == Shown(history[j..][n - 1 - i])
  {
    j := RetainedEvents(history, decodes);
    hide FileOf, Whole, Lines, Scanned, Decoded, SuffixFrom, AreEvents, ScansTo, Fit, ClipAll;
    var kept := history[j..];
    n := FirstTooLong(kept);
    ReadSees(kept, decodes);
    FirstTooLongScansTo(kept);
    var seen := Decoded(Scanned(Lines(FileOf(history))), decodes);
    assert seen == ShownAll(kept[..n]) && |seen| == n;
  }
}
