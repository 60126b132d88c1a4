/** The wg.conf rewriter: one line of one peer block changes, and reading the file sees exactly that. */
module WGConf {
  import opened Text

  // ---------- Lines ----------

  function SplitKeep(raw: string): seq<string>
    decreases |raw|
  {
    if raw == "" then []
    else
      var i := IndexOf(raw, '\n');
      if i == |raw| then [raw] else [raw[..i + 1]] + SplitKeep(raw[i + 1..])
  }

  function Join(lines: seq<string>): string {
    if lines == [] then "" else lines[0] + Join(lines[1..])
  }

  /** A newline at the end and nowhere else. */
  predicate Terminated(line: string) {
    line != "" && line[|line| - 1] == '\n' && '\n' !in line[..|line| - 1]
  }

  /** Lines as a file splits into them: all terminated, except that the last may be a non-empty rest. */
  predicate Splitted(lines: seq<string>) {
    forall i :: 0 <= i < |lines| ==>
      Terminated(lines[i]) || (i == |lines| - 1 && lines[i] != "" && '\n' !in lines[i])
  }

  lemma JoinCons(line: string, rest: seq<string>)
    ensures Join([line] + rest) == line + Join(rest)
  {
    assert ([line] + rest)[1..] == rest;
  }

  lemma JoinOne(line: string)
    ensures Join([line]) == line
  {
    JoinCons(line, []);
    assert [line] + [] == [line];
  }

  lemma {:induction false} JoinSplit(raw: string)
    ensures Join(SplitKeep(raw)) == raw
    decreases |raw|
  {
    hide Join, IndexOf;
    if raw == "" {
      JoinNone();
    } else {
      var i := IndexOf(raw, '\n');
      if i < |raw| {
        JoinSplit(raw[i + 1..]);
        JoinCons(raw[..i + 1], SplitKeep(raw[i + 1..]));
      } else {
        JoinOne(raw);
      }
    }
  }

  lemma JoinNone()
    ensures Join([]) == ""
  {
  }

  lemma {:induction false} SplitIsSplitted(raw: string)
    ensures Splitted(SplitKeep(raw))
    decreases |raw|
  {
    if raw != "" {
      var i := IndexOf(raw, '\n');
      if i < |raw| {
        SplitIsSplitted(raw[i + 1..]);
        assert raw[..i + 1][..i] == raw[..i];
      } else {
        assert raw[..i] == raw;
      }
    }
  }

  lemma SplitCons(line: string, raw: string)
    requires Terminated(line)
    ensures SplitKeep(line + raw) == [line] + SplitKeep(raw)
  {
    var n := |line| - 1;
    assert (line + raw)[..n] == line[..n];
    IndexOfIs(line + raw, '\n', n);
    assert (line + raw)[..n + 1] == line && (line + raw)[n + 1..] == raw;
  }

  lemma SplitOne(line: string)
    requires line != "" && '\n' !in line
    ensures SplitKeep(line) == [line]
  {
    assert line[..|line|] == line;
    IndexOfIs(line, '\n', |line|);
  }

  lemma {:induction false} SplitJoin(lines: seq<string>)
    requires Splitted(lines)
    ensures SplitKeep(Join(lines)) == lines
  {
    if lines != [] {
      var line, rest := lines[0], lines[1..];
      assert Splitted(rest) by {
        assert forall i :: 0 <= i < |rest| ==> rest[i] == lines[i + 1];
      }
      SplitJoin(rest);
      assert [line] + rest == lines;
      JoinCons(line, rest);
      hide SplitKeep, Join;
      if Terminated(line) {
        SplitCons(line, Join(rest));
      } else {
        assert rest == [];
        JoinOne(line);
        SplitOne(line);
      }
    }
  }

  /** Splitting undoes joining exactly for lines of the shape splitting produces. */
  lemma SplitJoinIff(lines: seq<string>)
    ensures SplitKeep(Join(lines)) == lines <==> Splitted(lines)
  {
    if Splitted(lines) {
      SplitJoin(lines);
    }
    SplitIsSplitted(Join(lines));
  }

  // ---------- What a line means ----------

  datatype Kind = Header(text: string) | Setting(key: string, value: string) | Other

  function Classify(line: string): Kind {
    var t := Trim(line);
    if t != "" && t[0] == '[' && t[|t| - 1] == ']' then Header(t)
    else if (t != "" && t[0] == '#') || '=' !in t then Other
    else
      var i := IndexOf(t, '=');
      if i < |t| then Setting(Trim(t[..i]), Trim(t[i + 1..])) else Other
  }

  predicate IsPeer(header: string) {
    EqualFold(header, "[Peer]")
  }

  predicate IsPublicKey(key: string) {
    EqualFold(key, "PublicKey")
  }

  predicate IsEndpointKey(key: string) {
    EqualFold(key, "Endpoint")
  }

  predicate IsEndpoint(line: string) {
    Classify(line).Setting? && IsEndpointKey(Classify(line).key)
  }

  // ---------- Reading a file ----------

  /** A section: its header, its settings other than endpoints in order, and the endpoint that counts,
      which is the last one given. */
  datatype Block = Block(header: string, settings: seq<(string, string)>, endpoint: string, hasEndpoint: bool)

  function WithEndpoint(b: Block, endpoint: string): Block {
    b.(endpoint := endpoint, hasEndpoint := true)
  }

  function Extend(b: Block, key: string, value: string): Block {
    if IsEndpointKey(key) then WithEndpoint(b, value) else b.(settings := b.settings + [(key, value)])
  }

  function AddLine(bs: seq<Block>, line: string): (r: seq<Block>)
    requires bs != []
    ensures |bs| <= |r|
  {
    var m := |bs| - 1;
    match Classify(line)
    case Header(text) => bs + [Block(text, [], "", false)]
    case Setting(key, value) => bs[m := Extend(bs[m], key, value)]
    case Other => bs
  }

  /** The sections of a file; the first one collects what precedes all headers. */
  function Parse(lines: seq<string>): (bs: seq<Block>)
    ensures bs != []
  {
    if lines == [] then [Block("", [], "", false)]
    else AddLine(Parse(lines[..|lines| - 1]), lines[|lines| - 1])
  }

  predicate HasKey(settings: seq<(string, string)>, publicKey: string) {
    exists i :: 0 <= i < |settings| && IsPublicKey(settings[i].0) && settings[i].1 == publicKey
  }

  predicate Matches(b: Block, publicKey: string) {
    IsPeer(b.header) && HasKey(b.settings, publicKey)
  }

  /** Block `m` is the first peer block holding the key. */
  predicate IsFirstMatch(bs: seq<Block>, publicKey: string, m: nat) {
    m < |bs| && Matches(bs[m], publicKey) && forall j :: 0 <= j < m ==> !Matches(bs[j], publicKey)
  }

  // ---------- The scan ----------

  datatype Index = At(i: nat) | Nowhere

  datatype Scan = Scan(inPeer: bool, matching: bool, endpoint: Index, insert: Index)

  const START := Scan(false, false, Nowhere, Nowhere)

  function ScanLine(st: Scan, i: nat, line: string, publicKey: string): Scan {
    match Classify(line)
    case Header(text) =>
      if st.inPeer && st.matching then st.(insert := At(i))
      else Scan(IsPeer(text), false, Nowhere, st.insert)
    case Setting(key, value) =>
      if !st.inPeer then st
      else if IsPublicKey(key) && value == publicKey then st.(matching := true)
      else if IsEndpointKey(key) && st.matching then st.(endpoint := At(i))
      else st
    case Other => st
  }

  /** The scan over the first `n` lines; it stands still once it found where the block ends. */
  function ScanUpTo(lines: seq<string>, n: nat, publicKey: string): (st: Scan)
    requires n <= |lines|
    ensures st.endpoint.At? ==> st.endpoint.i < n && IsEndpoint(lines[st.endpoint.i])
    ensures st.insert.At? ==> st.insert.i < n && Classify(lines[st.insert.i]).Header?
    ensures st.endpoint.At? ==> st.matching
    ensures st.matching ==> st.inPeer
  {
    if n == 0 then START
    else
      var st := ScanUpTo(lines, n - 1, publicKey);
      if st.insert.At? then st else ScanLine(st, n - 1, lines[n - 1], publicKey)
  }

  datatype Edit = NotFound | UpToDate | Replace(i: nat) | Insert(i: nat)

  function NewLine(endpoint: string): string {
    "Endpoint = " + endpoint + "\n"
  }

  function Plan(lines: seq<string>, publicKey: string, endpoint: string): (edit: Edit)
    ensures edit.Replace? ==> edit.i < |lines|
    ensures edit.Insert? ==> edit.i <= |lines|
  {
    var st := ScanUpTo(lines, |lines|, publicKey);
    if !st.matching then NotFound
    else if st.endpoint.At? then
      if Trim(lines[st.endpoint.i]) == Trim(NewLine(endpoint)) then UpToDate
      else Replace(st.endpoint.i)
    else Insert(if st.insert.At? then st.insert.i else |lines|)
  }

  function Edited(lines: seq<string>, edit: Edit, line: string): seq<string>
    requires edit.Replace? ==> edit.i < |lines|
    requires edit.Insert? ==> edit.i <= |lines|
  {
    match edit
    case Replace(i) => lines[i := line]
    case Insert(i) => lines[..i] + [line] + lines[i..]
    case _ => lines
  }

  datatype Outcome = Failed | Done(changed: bool)

  /** What the update reports, and what the file holds afterwards. */
  function Updated(raw: string, publicKey: string, endpoint: string, dryRun: bool): (Outcome, string) {
    var lines := SplitKeep(raw);
    match Plan(lines, publicKey, endpoint)
    case NotFound => (Failed, raw)
    case UpToDate => (Done(false), raw)
    case edit => (Done(true), if dryRun then raw else Join(Edited(lines, edit, NewLine(endpoint))))
  }

  /** Scans for the first peer block with the key: whether there is one, its last endpoint line after the
      key, and where the block ends. */
  method ScanFile(lines: seq<string>, publicKey: string)
    returns (matchingPeer: bool, endpointIndex: int, insertIndex: int)
    ensures var st := ScanUpTo(lines, |lines|, publicKey);
            && matchingPeer == st.matching
            && -1 <= endpointIndex < |lines| && -1 <= insertIndex <= |lines|
            && st.endpoint == (if endpointIndex >= 0 then At(endpointIndex) else Nowhere)
            && (matchingPeer ==> insertIndex >= 0)
            && (matchingPeer ==> insertIndex == if st.insert.At? then st.insert.i else |lines|)
  {
    hide Classify, IsPeer, IsPublicKey, IsEndpointKey;
    var inPeer := false;
    matchingPeer, endpointIndex, insertIndex := false, -1, -1;
    for i := 0 to |lines|
      invariant insertIndex == -1 && -1 <= endpointIndex < i
      invariant ScanUpTo(lines, i, publicKey) ==
                Scan(inPeer, matchingPeer, if endpointIndex >= 0 then At(endpointIndex) else Nowhere, Nowhere)
    {
      match Classify(lines[i]) {
        case Header(text) =>
          if inPeer && matchingPeer {
            ScanStops(lines, i + 1, |lines|, publicKey);
            insertIndex := i;
            break;
          }
          inPeer, matchingPeer, endpointIndex := IsPeer(text), false, -1;
        case Setting(key, value) =>
          if inPeer {
            if IsPublicKey(key) && value == publicKey {
              matchingPeer := true;
            } else if IsEndpointKey(key) && matchingPeer {
              endpointIndex := i;
            }
          }
        case Other =>
      }
    }
    if inPeer && matchingPeer && insertIndex == -1 {
      insertIndex := |lines|;
    }
  }

  method UpdateWGConf(raw: string, publicKey: string, endpoint: string, dryRun: bool)
    returns (outcome: Outcome, file: string)
    ensures (outcome, file) == Updated(raw, publicKey, endpoint, dryRun)
  {
    hide SplitKeep, Join, Trim, ScanUpTo, NewLine;
    var lines := SplitKeep(raw);
    var matchingPeer, endpointIndex, insertIndex := ScanFile(lines, publicKey);
    if !matchingPeer {
      return Failed, raw;
    }
    var newLine := NewLine(endpoint);
    if endpointIndex >= 0 {
      if Trim(lines[endpointIndex]) == Trim(newLine) {
        return Done(false), raw;
      }
      lines := lines[endpointIndex := newLine];
    } else {
      lines := lines[..insertIndex] + [newLine] + lines[insertIndex..];
    }
    return Done(true), if dryRun then raw else Join(lines);
  }

  lemma {:induction false} ScanStops(lines: seq<string>, n: nat, m: nat, publicKey: string)
    requires n <= m <= |lines| && ScanUpTo(lines, n, publicKey).insert.At?
    ensures ScanUpTo(lines, m, publicKey) == ScanUpTo(lines, n, publicKey)
  {
    if n < m {
      ScanStops(lines, n, m - 1, publicKey);
    }
  }

  // ---------- The scan finds the first matching block ----------

  predicate IsHeader(line: string) {
    Classify(line).Header?
  }

  /** No endpoint setting in the rest of the block that `lines` continues. */
  predicate NoEndpointInBlock(lines: seq<string>) {
    forall j :: 0 <= j < |lines| && IsEndpoint(lines[j]) ==> exists h :: 0 <= h < j && IsHeader(lines[h])
  }

  predicate NoHeader(lines: seq<string>) {
    forall j :: 0 <= j < |lines| ==> !IsHeader(lines[j])
  }

  /** The scan's flags describe the block read last, and no earlier block matches. */
  predicate FlagsMean(bs: seq<Block>, publicKey: string, st: Scan)
    requires bs != []
  {
    var m := |bs| - 1;
    && st.inPeer == IsPeer(bs[m].header)
    && st.matching == Matches(bs[m], publicKey)
    && (forall j :: 0 <= j < m ==> !Matches(bs[j], publicKey))
  }

  /** Line `e` is the last endpoint setting so far, and in the current block. */
  predicate LastEndpoint(lines: seq<string>, e: nat, n: nat)
    requires n <= |lines|
  {
    e < n && forall j :: e <= j < n ==> !IsHeader(lines[j]) && (e < j ==> !IsEndpoint(lines[j]))
  }

  lemma HasKeyExtends(settings: seq<(string, string)>, key: string, value: string, publicKey: string)
    ensures HasKey(settings + [(key, value)], publicKey) <==>
            HasKey(settings, publicKey) || (IsPublicKey(key) && value == publicKey)
  {
    var all := settings + [(key, value)];
    if HasKey(settings, publicKey) {
      var i :| 0 <= i < |settings| && IsPublicKey(settings[i].0) && settings[i].1 == publicKey;
      assert all[i] == settings[i];
    }
    assert all[|settings|] == (key, value);
  }

  lemma KeysDiffer(key: string)
    requires IsPublicKey(key)
    ensures !IsEndpointKey(key)
  {
    assert |"PublicKey"| != |"Endpoint"|;
  }

  lemma FlagsStep(bs: seq<Block>, publicKey: string, st: Scan, i: nat, line: string)
    requires bs != [] && FlagsMean(bs, publicKey, st)
    requires st.insert.Nowhere? && ScanLine(st, i, line, publicKey).insert.Nowhere?
    ensures FlagsMean(AddLine(bs, line), publicKey, ScanLine(st, i, line, publicKey))
  {
    var m := |bs| - 1;
    match Classify(line)
    case Header(text) =>
    case Setting(key, value) =>
      HasKeyExtends(bs[m].settings, key, value, publicKey);
      if IsPublicKey(key) {
        KeysDiffer(key);
      }
      hide HasKey, IsPublicKey, IsEndpointKey, IsPeer;
    case Other =>
  }

  lemma ParseStep(lines: seq<string>, n: nat)
    requires 0 < n <= |lines|
    ensures Parse(lines[..n]) == AddLine(Parse(lines[..n - 1]), lines[n - 1])
  {
    assert lines[..n][..n - 1] == lines[..n - 1];
  }

  lemma ScanStep(lines: seq<string>, n: nat, publicKey: string)
    requires 0 < n <= |lines| && ScanUpTo(lines, n, publicKey).insert.Nowhere?
    ensures var st := ScanUpTo(lines, n - 1, publicKey);
            && st.insert.Nowhere? && (st.endpoint.At? ==> st.matching && st.inPeer)
            && ScanUpTo(lines, n, publicKey) == ScanLine(st, n - 1, lines[n - 1], publicKey)
  {
  }

  lemma {:induction false} FlagsAreMeaningful(lines: seq<string>, n: nat, publicKey: string)
    requires n <= |lines| && ScanUpTo(lines, n, publicKey).insert.Nowhere?
    ensures FlagsMean(Parse(lines[..n]), publicKey, ScanUpTo(lines, n, publicKey))
  {
    if n == 0 {
      assert lines[..0] == [];
    } else {
      hide ScanLine, ScanUpTo, Parse, FlagsMean, AddLine;
      ParseStep(lines, n);
      ScanStep(lines, n, publicKey);
      FlagsAreMeaningful(lines, n - 1, publicKey);
      FlagsStep(Parse(lines[..n - 1]), publicKey, ScanUpTo(lines, n - 1, publicKey), n - 1, lines[n - 1]);
    }
  }

  lemma ScanIsMeaningful(lines: seq<string>, n: nat, publicKey: string)
    requires n <= |lines| && ScanUpTo(lines, n, publicKey).insert.Nowhere?
    ensures FlagsMean(Parse(lines[..n]), publicKey, ScanUpTo(lines, n, publicKey))
    ensures var e := ScanUpTo(lines, n, publicKey).endpoint; e.At? ==> LastEndpoint(lines, e.i, n)
  {
    FlagsAreMeaningful(lines, n, publicKey);
    EndpointIsLast(lines, n, publicKey);
    hide ScanUpTo, Parse, FlagsMean, LastEndpoint;
  }

  lemma {:induction false} EndpointIsLast(lines: seq<string>, n: nat, publicKey: string)
    requires n <= |lines| && ScanUpTo(lines, n, publicKey).insert.Nowhere?
    ensures var e := ScanUpTo(lines, n, publicKey).endpoint; e.At? ==> LastEndpoint(lines, e.i, n)
  {
    if n > 0 {
      hide ScanLine, ScanUpTo, LastEndpoint;
      ScanStep(lines, n, publicKey);
      EndpointIsLast(lines, n - 1, publicKey);
      LastEndpointStep(lines, n, publicKey, ScanUpTo(lines, n - 1, publicKey));
    }
  }

  lemma LastEndpointStep(lines: seq<string>, n: nat, publicKey: string, st: Scan)
    requires 0 < n <= |lines| &&
             (st.endpoint.At? ==> st.matching && st.inPeer && LastEndpoint(lines, st.endpoint.i, n - 1))
    requires ScanLine(st, n - 1, lines[n - 1], publicKey).insert.Nowhere?
    ensures var e := ScanLine(st, n - 1, lines[n - 1], publicKey).endpoint; e.At? ==> LastEndpoint(lines, e.i, n)
  {
    hide IsPeer;
    match Classify(lines[n - 1])
    case Header(text) =>
    case Setting(key, value) =>
      if IsPublicKey(key) {
        KeysDiffer(key);
      }
    case Other =>
  }

  // ---------- The inserted line ----------

  lemma Assignment(line: string, key: string, value: string)
    requires Trim(line) == key + "=" + value
    requires key != "" && '=' !in key && key[0] != '#'
    requires key[0] == '[' ==> value == "" || value[|value| - 1] != ']'
    ensures Classify(line) == Setting(Trim(key), Trim(value))
  {
    var t := Trim(line);
    assert t[0] == key[0] && t[|key|] == '=';
    assert t[..|key|] == key && t[|key| + 1..] == value;
    IndexOfIs(t, '=', |key|);
  }

  lemma NewLineTrimmed(endpoint: string)
    ensures Trim(NewLine(endpoint)) == "Endpoint " + "=" + TrimRight(" " + endpoint + "\n")
  {
    var head, tail := "Endpoint =", " " + endpoint + "\n";
    assert NewLine(endpoint) == head + tail;
    TrimRightOfConcat(head, tail);
    assert TrimLeft(head + tail) == head + tail;
    assert head == "Endpoint " + "=";
  }

  lemma KeyTrimmed()
    ensures Trim("Endpoint ") == "Endpoint"
  {
    assert "Endpoint "[..8] == "Endpoint";
    assert TrimLeft("Endpoint ") == "Endpoint ";
  }

  /** The new line is an endpoint setting with the trimmed endpoint as its value. */
  lemma NewLineMeans(endpoint: string)
    ensures Classify(NewLine(endpoint)) == Setting("Endpoint", Trim(endpoint))
  {
    NewLineTrimmed(endpoint);
    KeyTrimmed();
    TrimPadded(' ', endpoint, '\n');
    hide NewLine, TrimRight, TrimLeft, Trim, Classify;
    Assignment(NewLine(endpoint), "Endpoint ", TrimRight(" " + endpoint + "\n"));
  }

  lemma NewLineTerminated(endpoint: string)
    requires '\n' !in endpoint
    ensures Terminated(NewLine(endpoint))
  {
    var line := NewLine(endpoint);
    assert line[..|line| - 1] == "Endpoint = " + endpoint;
  }

  // ---------- Editing commutes with reading ----------

  lemma NoEndpointPrefix(b: seq<string>)
    requires b != [] && NoEndpointInBlock(b)
    ensures NoEndpointInBlock(b[..|b| - 1])
    ensures IsEndpoint(b[|b| - 1]) ==> !NoHeader(b[..|b| - 1])
    ensures NoHeader(b) <==> NoHeader(b[..|b| - 1]) && !IsHeader(b[|b| - 1])
  {
    hide IsEndpoint, IsHeader;
    var init := b[..|b| - 1];
    forall j | 0 <= j < |b| && IsEndpoint(b[j]) ensures exists h :: 0 <= h < j && IsHeader(init[h]) {
      var h :| 0 <= h < j && IsHeader(b[h]);
      assert IsHeader(init[h]);
    }
  }

  lemma ParseAppend(a: seq<string>, line: string)
    ensures Parse(a + [line]) == AddLine(Parse(a), line)
  {
    assert (a + [line])[..|a|] == a;
  }

  /** Block `m` of `p` with the new endpoint, and every other block as it was. */
  predicate OnlyEndpointSet(p: seq<Block>, m: nat, endpoint: string, q: seq<Block>) {
    m < |p| && q == p[m := WithEndpoint(p[m], endpoint)]
  }

  /** Reading on from a block whose endpoint differs keeps just that difference, as long as the block
      sets no further endpoint. */
  lemma {:induction false} Carry(a: seq<string>, a': seq<string>, b: seq<string>, endpoint: string)
    requires OnlyEndpointSet(Parse(a), |Parse(a)| - 1, endpoint, Parse(a'))
    requires NoEndpointInBlock(b)
    ensures OnlyEndpointSet(Parse(a + b), |Parse(a)| - 1, endpoint, Parse(a' + b))
    ensures NoHeader(b) <==> |Parse(a + b)| == |Parse(a)|
  {
    hide NoEndpointInBlock, IsEndpoint, IsHeader, AddLine, OnlyEndpointSet, Parse;
    if b == [] {
      assert a + b == a && a' + b == a';
    } else {
      hide NoHeader;
      var init, line := b[..|b| - 1], b[|b| - 1];
      NoEndpointPrefix(b);
      Carry(a, a', init, endpoint);
      ParseLast(a, b);
      ParseLast(a', b);
      BlocksGrow(a, init);
      CarryLine(Parse(a + init), Parse(a' + init), |Parse(a)| - 1, line, endpoint, IsEndpoint(line));
    }
  }

  lemma ParseLast(a: seq<string>, b: seq<string>)
    requires b != []
    ensures Parse(a + b) == AddLine(Parse(a + b[..|b| - 1]), b[|b| - 1])
  {
    hide Parse, AddLine;
    assert a + b == a + b[..|b| - 1] + [b[|b| - 1]];
    ParseAppend(a + b[..|b| - 1], b[|b| - 1]);
  }

  lemma {:induction false} BlocksGrow(a: seq<string>, b: seq<string>)
    ensures |Parse(a)| <= |Parse(a + b)|
  {
    if b == [] {
      assert a + b == a;
    } else {
      BlocksGrow(a, b[..|b| - 1]);
      ParseLast(a, b);
    }
  }

  lemma CarryLine(p: seq<Block>, p': seq<Block>, m: nat, line: string, endpoint: string, isEndpoint: bool)
    requires OnlyEndpointSet(p, m, endpoint, p')
    requires isEndpoint == IsEndpoint(line) && (isEndpoint ==> m < |p| - 1)
    ensures p' != [] && OnlyEndpointSet(AddLine(p, line), m, endpoint, AddLine(p', line))
    ensures |AddLine(p, line)| == |p| + if IsHeader(line) then 1 else 0
  {
  }

  /** Blocks already closed stay as they are. */
  lemma {:induction false} ClosedBlocks(a: seq<string>, b: seq<string>)
    requires b == [] || IsHeader(b[0])
    ensures var p, q := Parse(a), Parse(a + b);
            |p| <= |q| && q[..|p|] == p && (b != [] ==> |p| < |q|)
  {
    if b == [] {
      assert a + b == a;
    } else {
      var init, line := b[..|b| - 1], b[|b| - 1];
      assert (a + b)[..|a + b| - 1] == a + init && (a + b)[|a + b| - 1] == line;
      ClosedBlocks(a, init);
    }
  }

  /** Where the scan's block ends: the header that stopped it, or the end of the file. */
  function Stop(lines: seq<string>, publicKey: string): (n: nat)
    ensures n <= |lines|
  {
    var st := ScanUpTo(lines, |lines|, publicKey);
    if st.insert.At? then st.insert.i else |lines|
  }

  lemma {:induction false} StopState(lines: seq<string>, n: nat, publicKey: string)
    requires n <= |lines|
    ensures var st := ScanUpTo(lines, n, publicKey);
            st.insert.At? ==> st.matching && ScanUpTo(lines, st.insert.i, publicKey) == st.(insert := Nowhere)
  {
    if n > 0 {
      StopState(lines, n - 1, publicKey);
    }
  }

  lemma ScanAtStop(lines: seq<string>, publicKey: string)
    ensures var st, stop := ScanUpTo(lines, |lines|, publicKey), Stop(lines, publicKey);
            && (stop < |lines| ==> IsHeader(lines[stop]))
            && (stop < |lines| ==> st.matching)
            && ScanUpTo(lines, stop, publicKey) == st.(insert := Nowhere)
            && (st.endpoint.At? ==> LastEndpoint(lines, st.endpoint.i, stop))
            && FlagsMean(Parse(lines[..stop]), publicKey, st)
  {
    var st, stop := ScanUpTo(lines, |lines|, publicKey), Stop(lines, publicKey);
    StopState(lines, |lines|, publicKey);
    hide Parse, LastEndpoint, ScanUpTo;
    ScanIsMeaningful(lines, stop, publicKey);
  }

  lemma BlocksBeforeStop(lines: seq<string>, stop: nat)
    requires stop <= |lines| && (stop < |lines| ==> IsHeader(lines[stop]))
    ensures var p, q := Parse(lines[..stop]), Parse(lines);
            |p| <= |q| && (forall j :: 0 <= j < |p| ==> q[j] == p[j]) && (stop == |lines| ==> p == q)
  {
    hide Parse, IsHeader;
    assert lines[..stop] + lines[stop..] == lines;
    ClosedBlocks(lines[..stop], lines[stop..]);
    var p, q := Parse(lines[..stop]), Parse(lines);
    assert forall j :: 0 <= j < |p| ==> q[j] == q[..|p|][j];
    if stop == |lines| {
      assert lines[..stop] == lines;
    }
  }

  /** Everything the scan established about the file. */
  lemma ScanResult(lines: seq<string>, publicKey: string)
    ensures var st, stop := ScanUpTo(lines, |lines|, publicKey), Stop(lines, publicKey);
            var m := |Parse(lines[..stop])| - 1;
            && (stop < |lines| ==> IsHeader(lines[stop]))
            && (st.endpoint.At? ==> LastEndpoint(lines, st.endpoint.i, stop))
            && m < |Parse(lines)|
            && (st.matching ==> IsFirstMatch(Parse(lines), publicKey, m))
            && (!st.matching ==> forall j :: 0 <= j < |Parse(lines)| ==> !Matches(Parse(lines)[j], publicKey))
  {
    ScanAtStop(lines, publicKey);
    hide Matches, Parse, ScanUpTo, IsHeader, LastEndpoint, Stop;
    BlocksBeforeStop(lines, Stop(lines, publicKey));
  }

  /** Inserting the new line before what follows a block gives that block the new endpoint. */
  lemma InsertParses(lines: seq<string>, stop: nat, endpoint: string)
    requires stop <= |lines| && (stop < |lines| ==> IsHeader(lines[stop]))
    ensures OnlyEndpointSet(Parse(lines), |Parse(lines[..stop])| - 1, Trim(endpoint),
                            Parse(lines[..stop] + [NewLine(endpoint)] + lines[stop..]))
  {
    hide *;
    var a, b := lines[..stop], lines[stop..];
    HeaderFirst(b);
    AddsEndpoint(a, endpoint);
    assert a + b == lines;
    Carry(a, a + [NewLine(endpoint)], b, Trim(endpoint));
  }

  lemma HeaderFirst(b: seq<string>)
    requires b != [] ==> IsHeader(b[0])
    ensures NoEndpointInBlock(b)
  {
  }

  lemma AddsEndpoint(a: seq<string>, endpoint: string)
    ensures OnlyEndpointSet(Parse(a), |Parse(a)| - 1, Trim(endpoint), Parse(a + [NewLine(endpoint)]))
  {
    NewLineMeans(endpoint);
    NewLineIsEndpoint(endpoint);
    ParseAppend(a, NewLine(endpoint));
    hide NewLine, Parse, Trim, Classify, IsEndpointKey;
  }

  /** Replacing the last endpoint line of a block gives that block the new endpoint. */
  lemma ReplaceParses(lines: seq<string>, e: nat, stop: nat, endpoint: string)
    requires stop <= |lines| && (stop < |lines| ==> IsHeader(lines[stop]))
    requires LastEndpoint(lines, e, stop) && IsEndpoint(lines[e])
    ensures OnlyEndpointSet(Parse(lines), |Parse(lines[..stop])| - 1, Trim(endpoint),
                            Parse(lines[e := NewLine(endpoint)]))
  {
    var before, c, d := lines[..e], lines[e + 1..], lines[e + 1..stop];
    var a, a' := before + [lines[e]], before + [NewLine(endpoint)];
    SwapLine(before, lines[e], endpoint);
    RestHasNoEndpoint(lines, e, stop);
    assert e < stop;
    hide NewLine, Parse, LastEndpoint, NoEndpointInBlock, IsHeader, IsEndpoint, NoHeader, WithEndpoint, Trim;
    Carry(a, a', d, Trim(endpoint));
    Carry(a, a', c, Trim(endpoint));
    Slices(lines, e, stop, NewLine(endpoint));
  }

  lemma Slices(lines: seq<string>, e: nat, stop: nat, line: string)
    requires e < stop <= |lines|
    ensures lines[..e] + [lines[e]] + lines[e + 1..stop] == lines[..stop]
    ensures lines[..e] + [lines[e]] + lines[e + 1..] == lines
    ensures lines[..e] + [line] + lines[e + 1..] == lines[e := line]
  {
  }

  lemma SwapLine(before: seq<string>, line: string, endpoint: string)
    requires IsEndpoint(line)
    ensures var p := Parse(before + [line]);
            Parse(before + [NewLine(endpoint)]) == p[|p| - 1 := WithEndpoint(p[|p| - 1], Trim(endpoint))]
  {
    NewLineMeans(endpoint);
    var a, a' := before + [line], before + [NewLine(endpoint)];
    assert a[..|a| - 1] == before && a'[..|a'| - 1] == before;
    hide NewLine;
  }

  lemma RestHasNoEndpoint(lines: seq<string>, e: nat, stop: nat)
    requires stop <= |lines| && (stop < |lines| ==> IsHeader(lines[stop])) && LastEndpoint(lines, e, stop)
    ensures NoHeader(lines[e + 1..stop]) && NoEndpointInBlock(lines[e + 1..stop]) && NoEndpointInBlock(lines[e + 1..])
  {
    var c, d := lines[e + 1..], lines[e + 1..stop];
    assert forall j :: 0 <= j < |d| ==> d[j] == lines[e + 1 + j];
    forall j | 0 <= j < |c| && IsEndpoint(c[j]) ensures exists h :: 0 <= h < j && IsHeader(c[h]) {
      assert c[j] == lines[e + 1 + j];
      var h := stop - (e + 1);
      assert h <= j && c[h] == lines[stop];
    }
  }

  /** Reading depends on lines only through what they mean. */
  lemma {:induction false} ParseByMeaning(a: seq<string>, b: seq<string>)
    requires |a| == |b| && forall i :: 0 <= i < |a| ==> Classify(a[i]) == Classify(b[i])
    ensures Parse(a) == Parse(b)
  {
    if a != [] {
      ParseByMeaning(a[..|a| - 1], b[..|b| - 1]);
    }
  }

  lemma ChangeParses(lines: seq<string>, publicKey: string, endpoint: string)
    requires ScanUpTo(lines, |lines|, publicKey).matching
    ensures var m := |Parse(lines[..Stop(lines, publicKey)])| - 1;
            var edited := Edited(lines, Plan(lines, publicKey, endpoint), NewLine(endpoint));
            OnlyEndpointSet(Parse(lines), m, Trim(endpoint), Parse(edited))
  {
    var st, stop := ScanUpTo(lines, |lines|, publicKey), Stop(lines, publicKey);
    ScanResult(lines, publicKey);
    hide ScanUpTo, Parse, NewLine, IsHeader, IsEndpoint, LastEndpoint, OnlyEndpointSet, IsFirstMatch, Trim, Classify;
    if st.endpoint.At? {
      var e := st.endpoint.i;
      ReplaceParses(lines, e, stop, endpoint);
      if Trim(lines[e]) == Trim(NewLine(endpoint)) {
        SameTrimSameMeaning(lines[e], NewLine(endpoint));
        ParseByMeaning(lines, lines[e := NewLine(endpoint)]);
      }
    } else {
      InsertParses(lines, stop, endpoint);
    }
  }

  lemma SameTrimSameMeaning(a: string, b: string)
    requires Trim(a) == Trim(b)
    ensures Classify(a) == Classify(b)
  {
  }

  /** On lines: an update fails exactly when no peer block has the key; otherwise reading the edited
      lines sees the first such block with the new endpoint and nothing else changed. */
  lemma EditParses(lines: seq<string>, publicKey: string, endpoint: string) returns (m: nat)
    ensures var edit := Plan(lines, publicKey, endpoint);
            var p := Parse(lines);
            && (edit.NotFound? <==> forall j :: 0 <= j < |p| ==> !Matches(p[j], publicKey))
            && (!edit.NotFound? ==>
                  && IsFirstMatch(p, publicKey, m)
                  && OnlyEndpointSet(p, m, Trim(endpoint), Parse(Edited(lines, edit, NewLine(endpoint)))))
  {
    ScanResult(lines, publicKey);
    m := |Parse(lines[..Stop(lines, publicKey)])| - 1;
    if ScanUpTo(lines, |lines|, publicKey).matching {
      ChangeParses(lines, publicKey, endpoint);
    }
    hide ScanUpTo, Parse, NewLine, OnlyEndpointSet, Trim, Matches, Edited;
  }

  // ---------- On whole files ----------

  /** The new line stands on a line of its own: it does not go in behind an unterminated last line. */
  predicate StandsAlone(lines: seq<string>, edit: Edit) {
    edit.Insert? && edit.i == |lines| && lines != [] ==> Terminated(lines[|lines| - 1])
  }

  /** The written file consists of exactly the edited lines if and only if the new line stands alone. */
  lemma EditedLinesIff(raw: string, publicKey: string, endpoint: string)
    requires '\n' !in endpoint
    ensures var lines := SplitKeep(raw);
            var edit := Plan(lines, publicKey, endpoint);
            var out := Edited(lines, edit, NewLine(endpoint));
            SplitKeep(Join(out)) == out <==> StandsAlone(lines, edit)
  {
    var lines := SplitKeep(raw);
    var edit := Plan(lines, publicKey, endpoint);
    SplitIsSplitted(raw);
    NewLineTerminated(endpoint);
    hide Plan, NewLine, Join, SplitKeep, Terminated, Splitted;
    EditedIsSplitted(lines, edit, NewLine(endpoint));
    SplitJoinIff(Edited(lines, edit, NewLine(endpoint)));
  }

  /** In a file that ends in a newline, or is empty, it always does. */
  lemma TerminatedStandsAlone(raw: string, edit: Edit)
    requires raw == "" || raw[|raw| - 1] == '\n'
    ensures StandsAlone(SplitKeep(raw), edit)
  {
    if raw != "" {
      LastLineTerminated(raw);
    }
  }

  lemma {:induction false} LastLineTerminated(raw: string)
    requires raw != "" && raw[|raw| - 1] == '\n'
    ensures SplitKeep(raw) != [] && Terminated(SplitKeep(raw)[|SplitKeep(raw)| - 1])
    decreases |raw|
  {
    hide IndexOf;
    var i := IndexOf(raw, '\n');
    assert i < |raw| by {
      assert raw[..|raw|] == raw;
    }
    if i + 1 < |raw| {
      hide Terminated;
      LastLineTerminated(raw[i + 1..]);
    } else {
      assert raw[..i + 1][..i] == raw[..i];
      assert SplitKeep(raw[i + 1..]) == [];
    }
  }

  lemma EditedIsSplitted(lines: seq<string>, edit: Edit, line: string)
    requires Splitted(lines) && Terminated(line)
    requires edit.Replace? ==> edit.i < |lines|
    requires edit.Insert? ==> edit.i <= |lines|
    ensures Splitted(Edited(lines, edit, line)) <==> StandsAlone(lines, edit)
  {
    var out := Edited(lines, edit, line);
    if edit.Insert? {
      var i := edit.i;
      assert forall j :: 0 <= j < i ==> out[j] == lines[j];
      assert forall j :: i < j < |out| ==> out[j] == lines[j - 1];
    }
  }

  /** The update commutes with reading. It fails, leaving the file alone, exactly when no peer block holds
      the key. Otherwise the file's lines are the old ones up to the one edit, and reading them sees the
      first such block with the new endpoint and every other block and setting as before. */
  lemma UpdateCommutesWithReading(raw: string, publicKey: string, endpoint: string) returns (m: nat)
    requires '\n' !in endpoint
    requires StandsAlone(SplitKeep(raw), Plan(SplitKeep(raw), publicKey, endpoint))
    ensures var (outcome, file) := Updated(raw, publicKey, endpoint, false);
            var lines := SplitKeep(raw);
            var p := Parse(lines);
            && (outcome.Failed? <==> forall j :: 0 <= j < |p| ==> !Matches(p[j], publicKey))
            && (outcome.Failed? ==> file == raw)
            && (!outcome.Failed? ==>
                  && SplitKeep(file) == Edited(lines, Plan(lines, publicKey, endpoint), NewLine(endpoint))
                  && IsFirstMatch(p, publicKey, m)
                  && OnlyEndpointSet(p, m, Trim(endpoint), Parse(SplitKeep(file))))
  {
    var lines := SplitKeep(raw);
    m := EditParses(lines, publicKey, endpoint);
    EditedLinesIff(raw, publicKey, endpoint);
    hide SplitKeep, Join, Plan, Parse, StandsAlone, OnlyEndpointSet, IsFirstMatch, Matches, NewLine;
  }

  lemma {:induction false} JoinConcat(a: seq<string>, b: seq<string>)
    ensures Join(a + b) == Join(a) + Join(b)
  {
    if a == [] {
      assert a + b == b;
    } else {
      assert (a + b)[1..] == a[1..] + b;
      JoinConcat(a[1..], b);
    }
  }

  lemma JoinSnoc(lines: seq<string>, line: string)
    ensures Join(lines + [line]) == Join(lines) + line
  {
    JoinConcat(lines, [line]);
    JoinOne(line);
  }

  lemma GluedIsSplitted(init: seq<string>, last: string, line: string)
    requires Splitted(init + [last]) && !Terminated(last) && Terminated(line)
    ensures Splitted(init + [last + line])
  {
    var lines, glued := init + [last], init + [last + line];
    assert lines[|init|] == last && last != "" && '\n' !in last;
    assert (last + line)[..|last + line| - 1] == last + line[..|line| - 1];
    assert forall i :: 0 <= i < |init| ==> glued[i] == lines[i] == init[i];
  }

  lemma GluedLines(init: seq<string>, last: string, line: string)
    requires Splitted(init + [last]) && !Terminated(last) && Terminated(line)
    ensures SplitKeep(Join(init + [last] + [line])) == init + [last + line]
  {
    GluedIsSplitted(init, last, line);
    hide Join, SplitKeep, Splitted, Terminated;
    JoinSnoc(init + [last], line);
    JoinSnoc(init, last);
    JoinSnoc(init, last + line);
    assert Join(init) + last + line == Join(init) + (last + line);
    SplitJoin(init + [last + line]);
  }

  /** When the new line does not stand alone, it is glued to the unterminated last line: the file has one
      line for both. */
  lemma GluedToLastLine(raw: string, publicKey: string, endpoint: string)
    requires '\n' !in endpoint
    requires !StandsAlone(SplitKeep(raw), Plan(SplitKeep(raw), publicKey, endpoint))
    ensures var (outcome, file) := Updated(raw, publicKey, endpoint, false);
            var lines := SplitKeep(raw);
            var n := |lines| - 1;
            && outcome == Done(true) && n >= 0
            && SplitKeep(file) == lines[..n] + [lines[n] + NewLine(endpoint)]
  {
    var lines := SplitKeep(raw);
    SplitIsSplitted(raw);
    NewLineTerminated(endpoint);
    hide NewLine, Plan, SplitKeep, Join, Splitted, Terminated, Trim;
    var n := |lines| - 1;
    assert lines[..n] + [lines[n]] == lines;
    EditedAtEnd(lines, NewLine(endpoint));
    hide Edited;
    GluedLines(lines[..n], lines[n], NewLine(endpoint));
  }

  lemma EditedAtEnd(lines: seq<string>, line: string)
    ensures Edited(lines, Insert(|lines|), line) == lines + [line]
  {
  }

  // ---------- Repeating an update ----------

  lemma EndpointLinesScanAlike(st: Scan, i: nat, a: string, b: string, publicKey: string)
    requires IsEndpoint(a) && IsEndpoint(b)
    ensures ScanLine(st, i, a, publicKey) == ScanLine(st, i, b, publicKey)
  {
    EndpointIsNoKey(a);
    EndpointIsNoKey(b);
  }

  lemma {:induction false} ScanAgrees(a: seq<string>, b: seq<string>, n: nat, publicKey: string)
    requires n <= |a| && n <= |b|
    requires forall i :: 0 <= i < n ==> a[i] == b[i] || (IsEndpoint(a[i]) && IsEndpoint(b[i]))
    ensures ScanUpTo(a, n, publicKey) == ScanUpTo(b, n, publicKey)
  {
    hide IsEndpoint, ScanLine;
    if n > 0 {
      ScanAgrees(a, b, n - 1, publicKey);
      if a[n - 1] != b[n - 1] {
        EndpointLinesScanAlike(ScanUpTo(a, n - 1, publicKey), n - 1, a[n - 1], b[n - 1], publicKey);
      }
    }
  }

  lemma EndpointIsNoKey(line: string)
    requires IsEndpoint(line)
    ensures !IsPublicKey(Classify(line).key)
  {
    if IsPublicKey(Classify(line).key) {
      KeysDiffer(Classify(line).key);
    }
  }

  lemma NewLineIsEndpoint(endpoint: string)
    ensures IsEndpoint(NewLine(endpoint)) && !IsPublicKey("Endpoint")
  {
    NewLineMeans(endpoint);
    EndpointIsNoKey(NewLine(endpoint));
  }

  lemma ReplacedIsUpToDate(lines: seq<string>, publicKey: string, endpoint: string)
    requires Plan(lines, publicKey, endpoint).Replace?
    ensures Plan(Edited(lines, Plan(lines, publicKey, endpoint), NewLine(endpoint)), publicKey, endpoint) == UpToDate
  {
    var e := Plan(lines, publicKey, endpoint).i;
    NewLineIsEndpoint(endpoint);
    hide NewLine, IsEndpoint;
    ScanAgrees(lines, lines[e := NewLine(endpoint)], |lines|, publicKey);
  }

  lemma ScanPastInsertion(out: seq<string>, i: nat, endpoint: string, publicKey: string)
    requires i < |out| && out[i] == NewLine(endpoint)
    requires var st := ScanUpTo(out, i, publicKey); st.matching && st.inPeer && st.insert.Nowhere?
    requires i + 1 < |out| ==> IsHeader(out[i + 1])
    ensures var st := ScanUpTo(out, |out|, publicKey); st.matching && st.endpoint == At(i)
  {
    NewLineMeans(endpoint);
    NewLineIsEndpoint(endpoint);
    hide NewLine, IsPublicKey, IsPeer;
    assert ScanUpTo(out, i + 1, publicKey) == ScanUpTo(out, i, publicKey).(endpoint := At(i));
    if i + 1 < |out| {
      assert ScanUpTo(out, i + 2, publicKey) == ScanUpTo(out, i + 1, publicKey).(insert := At(i + 1));
      hide IsEndpointKey, Classify;
      ScanStops(out, i + 2, |out|, publicKey);
    }
  }

  lemma InsertedIsUpToDate(lines: seq<string>, publicKey: string, endpoint: string)
    requires Plan(lines, publicKey, endpoint).Insert?
    ensures Plan(Edited(lines, Plan(lines, publicKey, endpoint), NewLine(endpoint)), publicKey, endpoint) == UpToDate
  {
    var i := Plan(lines, publicKey, endpoint).i;
    var out := lines[..i] + [NewLine(endpoint)] + lines[i..];
    StopState(lines, |lines|, publicKey);
    hide NewLine, ScanUpTo, Classify, Trim, IsEndpoint;
    ScanAgrees(lines, out, i, publicKey);
    assert i + 1 < |out| ==> out[i + 1] == lines[i];
    ScanPastInsertion(out, i, endpoint, publicKey);
  }

  // ---------- Repeating a glued update ----------

  lemma {:induction false} BlankIsTrimmedAway(a: string, b: string)
    requires Trim(a) == ""
    ensures Trim(a + b) == Trim(b)
  {
    AllSpace(a);
    SpacesBefore(a, b);
  }

  lemma {:induction false} AllSpace(a: string)
    requires Trim(a) == ""
    ensures forall i :: 0 <= i < |a| ==> IsSpace(a[i])
  {
    if a != "" {
      if IsSpace(a[0]) {
        AllSpace(a[1..]);
      } else {
        SolidStays(a);
      }
    }
  }

  lemma {:induction false} SpacesBefore(a: string, b: string)
    requires forall i :: 0 <= i < |a| ==> IsSpace(a[i])
    ensures TrimLeft(a + b) == TrimLeft(b)
  {
    if a == "" {
      assert a + b == b;
    } else {
      assert (a + b)[1..] == a[1..] + b;
      SpacesBefore(a[1..], b);
    }
  }

  /** A solid first character survives trimming on the right. */
  lemma {:induction false} SolidStays(a: string)
    requires a != "" && !IsSpace(a[0])
    ensures TrimRight(a) != ""
  {
    if IsSpace(a[|a| - 1]) {
      SolidStays(a[..|a| - 1]);
    }
  }

  lemma {:induction false} TrimRightBehind(a: string, b: string)
    requires TrimRight(b) != ""
    ensures TrimRight(a + b) == a + TrimRight(b)
  {
    if IsSpace(b[|b| - 1]) {
      assert (a + b)[..|a + b| - 1] == a + b[..|b| - 1];
      TrimRightBehind(a, b[..|b| - 1]);
    }
  }

  lemma {:induction false} TrimLeftStops(a: string, b: string)
    requires Trim(a) != ""
    ensures TrimLeft(a + b) == TrimLeft(a) + b
  {
    if IsSpace(a[0]) {
      assert (a + b)[1..] == a[1..] + b;
      TrimLeftStops(a[1..], b);
    }
  }

  /** Text in front of a line stays in front of it. */
  lemma TextStaysInFront(a: string, line: string)
    requires Trim(a) != "" && line != "" && !IsSpace(line[0])
    ensures Trim(a + line) == TrimLeft(a) + Trim(line) && TrimLeft(a) != ""
  {
    TrimLeftStops(a, line);
    SolidStays(line);
    TrimRightBehind(TrimLeft(a), line);
    assert TrimLeft(line) == line;
  }

  /** Behind the last line of the block, the glued line is up to date exactly when the old last line was blank. */
  lemma GluedPlan(init: seq<string>, last: string, publicKey: string, endpoint: string)
    requires Plan(init + [last], publicKey, endpoint) == Insert(|init| + 1)
    ensures Plan(init + [last + NewLine(endpoint)], publicKey, endpoint) == UpToDate <==> Trim(last) == ""
  {
    var n, line := |init|, NewLine(endpoint);
    var lines, glued := init + [last], init + [last + line];
    LastScanned(init, last, publicKey);
    LastScanned(init, last + line, publicKey);
    if Trim(last) == "" {
      BlankIsTrimmedAway(last, line);
      BlankIsOther(last);
      SameTrimSameMeaning(last + line, line);
      NewLineIsEndpoint(endpoint);
      hide NewLine, Trim, Classify;
    } else {
      TextStaysInFront(last, line);
      NoEarlierEndpoint(init, last, publicKey);
      hide NewLine, Trim, Classify, ScanUpTo;
    }
  }

  lemma BlankIsOther(line: string)
    requires Trim(line) == ""
    ensures Classify(line) == Other
  {
  }

  lemma LastScanned(init: seq<string>, last: string, publicKey: string)
    ensures var lines := init + [last];
            var st := ScanUpTo(init, |init|, publicKey);
            ScanUpTo(lines, |lines|, publicKey) == if st.insert.At? then st else ScanLine(st, |init|, last, publicKey)
  {
    hide ScanLine, IsEndpoint, IsHeader;
    var lines := init + [last];
    assert lines[|init|] == last && forall i :: 0 <= i < |init| ==> lines[i] == init[i];
    ScanAgrees(init, lines, |init|, publicKey);
  }

  /** A block that ends unfinished with no endpoint line has seen none before its last line either. */
  lemma NoEarlierEndpoint(init: seq<string>, last: string, publicKey: string)
    requires var st := ScanUpTo(init + [last], |init| + 1, publicKey);
             st.matching && st.endpoint.Nowhere? && st.insert.Nowhere?
    ensures ScanUpTo(init, |init|, publicKey).endpoint.Nowhere? && ScanUpTo(init, |init|, publicKey).insert.Nowhere?
  {
    LastScanned(init, last, publicKey);
    hide ScanUpTo;
  }

  lemma RepeatedAlone(raw: string, publicKey: string, endpoint: string)
    requires '\n' !in endpoint
    requires StandsAlone(SplitKeep(raw), Plan(SplitKeep(raw), publicKey, endpoint))
    ensures var (outcome, file) := Updated(raw, publicKey, endpoint, false);
            !outcome.Failed? ==> Updated(file, publicKey, endpoint, false) == (Done(false), file)
  {
    var lines := SplitKeep(raw);
    var edit := Plan(lines, publicKey, endpoint);
    EditedLinesIff(raw, publicKey, endpoint);
    if edit.Replace? {
      ReplacedIsUpToDate(lines, publicKey, endpoint);
    } else if edit.Insert? {
      InsertedIsUpToDate(lines, publicKey, endpoint);
    }
    hide Plan, Edited, NewLine, SplitKeep, Join, StandsAlone;
  }

  lemma RepeatedGlued(raw: string, publicKey: string, endpoint: string)
    requires '\n' !in endpoint
    requires !StandsAlone(SplitKeep(raw), Plan(SplitKeep(raw), publicKey, endpoint))
    ensures var (outcome, file) := Updated(raw, publicKey, endpoint, false);
            var lines := SplitKeep(raw);
            && outcome == Done(true) && lines != []
            && (Updated(file, publicKey, endpoint, false) == (Done(false), file) <==> Trim(lines[|lines| - 1]) == "")
  {
    var lines := SplitKeep(raw);
    GluedToLastLine(raw, publicKey, endpoint);
    var n := |lines| - 1;
    assert lines[..n] + [lines[n]] == lines;
    hide SplitKeep, Plan, NewLine, Trim, Join;
    GluedPlan(lines[..n], lines[n], publicKey, endpoint);
  }

  /** Running the same update again on its own output reports that nothing changed and writes nothing, exactly
      when the new line stood alone or was glued to a blank line. */
  lemma UpdateIsIdempotentIff(raw: string, publicKey: string, endpoint: string)
    requires '\n' !in endpoint
    ensures var (outcome, file) := Updated(raw, publicKey, endpoint, false);
            var lines := SplitKeep(raw);
            !outcome.Failed? ==>
              (Updated(file, publicKey, endpoint, false) == (Done(false), file) <==>
               StandsAlone(lines, Plan(lines, publicKey, endpoint)) || (lines != [] && Trim(lines[|lines| - 1]) == ""))
  {
    hide SplitKeep, Plan, Trim, Updated;
    if StandsAlone(SplitKeep(raw), Plan(SplitKeep(raw), publicKey, endpoint)) {
      RepeatedAlone(raw, publicKey, endpoint);
    } else {
      RepeatedGlued(raw, publicKey, endpoint);
    }
  }

  // ---------- Reading a glued update ----------

  lemma {:induction false} TrimRightIsPrefix(s: string)
    ensures var n := |TrimRight(s)|;
            n <= |s| && TrimRight(s) == s[..n] && forall i :: n <= i < |s| ==> IsSpace(s[i])
  {
    if s != "" && IsSpace(s[|s| - 1]) {
      TrimRightIsPrefix(s[..|s| - 1]);
    }
  }

  lemma TrimRightOfSolid(z: string)
    requires Trim(z) != ""
    ensures TrimRight(z) != ""
  {
    TrimCommutes(z);
  }

  /** Trimming never undoes the appending of something solid. */
  lemma LongerBehind(x: string, z: string)
    requires Trim(z) != ""
    ensures |Trim(x + z)| > |Trim(x)|
  {
    if Trim(x) == "" {
      BlankIsTrimmedAway(x, z);
    } else {
      TrimLeftStops(x, z);
      TrimRightOfSolid(z);
      TrimRightBehind(TrimLeft(x), z);
      TrimRightIsPrefix(TrimLeft(x));
    }
  }

  /** How a line that is not blank and the new line behind it are trimmed together. */
  lemma GluedTrim(last: string, endpoint: string) returns (tail: string)
    requires Trim(last) != ""
    ensures var front := TrimLeft(last);
            && front != "" && !IsSpace(front[0])
            && Trim(last) == TrimRight(front) && Trim(last)[0] == front[0]
            && Trim(NewLine(endpoint)) == "Endpoint " + "=" + tail
            && Trim(last + NewLine(endpoint)) == front + Trim(NewLine(endpoint))
  {
    tail := TrimRight(" " + endpoint + "\n");
    NewLineTrimmed(endpoint);
    TextStaysInFront(last, NewLine(endpoint));
    TrimRightIsPrefix(TrimLeft(last));
    TrimmedIsSolid(last);
  }

  lemma {:induction false} TrimmedIsSolid(s: string)
    requires TrimLeft(s) != ""
    ensures !IsSpace(TrimLeft(s)[0])
  {
    if IsSpace(s[0]) {
      TrimmedIsSolid(s[1..]);
    }
  }

  /** Behind text without an equality sign, the new line is not an endpoint setting: its key has grown. */
  lemma GluedKeyGrows(front: string, tail: string)
    requires front != "" && !IsSpace(front[0]) && '=' !in front
    ensures var t := front + "Endpoint " + "=" + tail;
            && '=' in t && IndexOf(t, '=') == |front| + 9
            && Trim(t[..|front| + 9]) == front + "Endpoint" && !IsEndpointKey(front + "Endpoint")
  {
    var key := front + "Endpoint ";
    var t := key + "=" + tail;
    assert t[|key|] == '=' && t[..|key|] == key;
    IndexOfIs(t, '=', |key|);
    assert TrimLeft(key) == key;
    var word := front + "Endpoint";
    assert key[..|key| - 1] == word && word[|word| - 1] == 't';
    assert TrimRight(key) == TrimRight(word) == word;
    assert |word| > |"Endpoint"|;
  }

  /** Behind a setting, the new line becomes part of its value. */
  lemma GluedValueGrows(front: string, z: string)
    requires '=' in TrimRight(front) && z != "" && !IsSpace(z[0])
    ensures var t, u := TrimRight(front), front + z;
            var i := IndexOf(t, '=');
            && i < |t| && '=' in u && IndexOf(u, '=') == i && u[..i] == t[..i]
            && Trim(u[i + 1..]) != Trim(t[i + 1..])
  {
    RestIsSolid(front, z);
    var t := TrimRight(front);
    hide TrimRight, TrimLeft, Trim, IsSpace, IndexOf;
    Rejoined(front, |t|, z);
    ValueGrows(t, front[|t|..] + z);
  }

  lemma Rejoined(front: string, n: nat, z: string)
    requires n <= |front|
    ensures front + z == front[..n] + (front[n..] + z)
  {
  }

  lemma ValueGrows(t: string, rest: string)
    requires '=' in t && Trim(rest) != ""
    ensures var u := t + rest;
            var i := IndexOf(t, '=');
            && i < |t| && '=' in u && IndexOf(u, '=') == i && u[..i] == t[..i]
            && Trim(u[i + 1..]) != Trim(t[i + 1..])
  {
    hide TrimRight, TrimLeft, Trim, IsSpace, IndexOf;
    var i := IndexOf(t, '=');
    assert t[..|t|] == t;
    SameSign(t, rest, i);
    LongerBehind(t[i + 1..], rest);
  }

  lemma RestIsSolid(front: string, z: string)
    requires z != "" && !IsSpace(z[0])
    ensures var n := |TrimRight(front)|;
            n <= |front| && TrimRight(front) == front[..n] && Trim(front[n..] + z) != ""
  {
    TrimRightIsPrefix(front);
    SolidBehindSpace(front[|TrimRight(front)|..], z);
  }

  lemma SolidBehindSpace(spaces: string, z: string)
    requires (forall i :: 0 <= i < |spaces| ==> IsSpace(spaces[i])) && z != "" && !IsSpace(z[0])
    ensures Trim(spaces + z) != ""
  {
    SpacesBefore(spaces, z);
    assert TrimLeft(z) == z;
    SolidStays(z);
  }

  /** A text that goes on has the same first equality sign. */
  lemma SameSign(t: string, rest: string, i: nat)
    requires i < |t| && i == IndexOf(t, '=')
    ensures var u := t + rest;
            '=' in u && IndexOf(u, '=') == i && u[..i] == t[..i] && u[i + 1..] == t[i + 1..] + rest
  {
    hide IndexOf;
    var u := t + rest;
    assert u[..i] == t[..i] && u[i] == '=';
    IndexOfIs(u, '=', i);
    assert u[i + 1..] == t[i + 1..] + rest;
  }

  predicate IsComment(line: string) {
    Trim(line) != "" && Trim(line)[0] == '#'
  }

  /** Two lines with the same text up to their first equality sign, and different values behind it. */
  lemma OtherValue(a: string, b: string)
    requires Trim(a) != "" && Trim(b) != "" && Trim(a)[0] == Trim(b)[0] != '#' && !IsHeader(a)
    requires '=' in Trim(a) && '=' in Trim(b)
    requires var i := IndexOf(Trim(a), '=');
             && i < |Trim(a)| && IndexOf(Trim(b), '=') == i && i < |Trim(b)|
             && Trim(b)[..i] == Trim(a)[..i] && Trim(Trim(b)[i + 1..]) != Trim(Trim(a)[i + 1..])
    ensures var k, g := Classify(a), Classify(b);
            k.Setting? && (g.Header? || (g.Setting? && g.key == k.key && g.value != k.value))
  {
    hide Trim, IndexOf;
  }

  lemma GluedSetting(last: string, endpoint: string)
    requires Trim(last) != "" && '=' in Trim(last) && !IsHeader(last) && !IsComment(last)
    ensures var k, g := Classify(last), Classify(last + NewLine(endpoint));
            k.Setting? && (g.Header? || (g.Setting? && g.key == k.key && g.value != k.value))
  {
    var tail := GluedTrim(last, endpoint);
    assert Trim(NewLine(endpoint))[0] == 'E';
    hide NewLine, Trim, TrimLeft, TrimRight, IndexOf, IsHeader, Classify;
    GluedValueGrows(TrimLeft(last), Trim(NewLine(endpoint)));
    OtherValue(last, last + NewLine(endpoint));
  }

  lemma GluedWord(last: string, endpoint: string)
    requires Trim(last) != "" && '=' !in Trim(last) && !IsHeader(last) && !IsComment(last)
    ensures var k, g := Classify(last), Classify(last + NewLine(endpoint));
            k.Other? && (g.Header? || (g.Setting? && !IsEndpointKey(g.key)))
  {
    var tail := GluedTrim(last, endpoint);
    var front, t := TrimLeft(last), Trim(last);
    TrimRightIsPrefix(front);
    assert '=' !in front by {
      assert forall i :: 0 <= i < |front| ==> (i < |t| ==> front[i] == t[i] && t[i] in t);
    }
    GluedKeyGrows(front, tail);
    assert front + ("Endpoint " + "=" + tail) == front + "Endpoint " + "=" + tail;
    hide NewLine, Trim, TrimLeft, TrimRight, IsEndpointKey, IsSpace, IndexOf;
  }

  lemma GluedComment(last: string, endpoint: string)
    requires IsComment(last)
    ensures Classify(last) == Other && Classify(last + NewLine(endpoint)) == Other
  {
    var tail := GluedTrim(last, endpoint);
    hide NewLine, Trim, TrimLeft, TrimRight, IsSpace, IndexOf;
  }

  /** The line behind which the new one is glued hides it from reading or spoils itself, unless it is blank, or a
      comment in a block whose endpoint already is the new one. */
  predicate GluedReads(bs: seq<Block>, last: string, endpoint: string)
    requires bs != []
  {
    var b := bs[|bs| - 1];
    Trim(last) == "" || (IsComment(last) && b.hasEndpoint && b.endpoint == Trim(endpoint))
  }

  /** Setting an endpoint changes nothing exactly where it is set already. */
  lemma SettingAgain(p: seq<Block>, endpoint: string)
    requires p != []
    ensures OnlyEndpointSet(p, |p| - 1, endpoint, p) <==> p[|p| - 1].hasEndpoint && p[|p| - 1].endpoint == endpoint
  {
    var m := |p| - 1;
    if p[m].hasEndpoint && p[m].endpoint == endpoint {
      assert WithEndpoint(p[m], endpoint) == p[m];
      assert p[m := p[m]] == p;
    }
  }

  /** A header, another setting, or another value is more than a new endpoint. */
  lemma MoreThanEndpoint(bs: seq<Block>, last: string, glued: string, endpoint: string)
    requires bs != [] && !IsHeader(last) && !IsEndpoint(last)
    requires var k, g := Classify(last), Classify(glued);
             || g.Header?
             || (k.Other? && g.Setting? && !IsEndpointKey(g.key))
             || (k.Setting? && g.Setting? && g.key == k.key && g.value != k.value)
    ensures var p := AddLine(bs, last);
            !OnlyEndpointSet(p, |p| - 1, endpoint, AddLine(bs, glued))
  {
    var m, k, g := |bs| - 1, Classify(last), Classify(glued);
    var p, q := AddLine(bs, last), AddLine(bs, glued);
    hide Classify, IsEndpointKey;
    assert |p| == |bs|;
    if g.Setting? {
      assert q[m].settings == bs[m].settings + [(g.key, g.value)];
      assert q[m].settings[|bs[m].settings|] == (g.key, g.value);
      assert q[m].settings != p[m].settings;
    }
  }

  lemma GluedAdds(bs: seq<Block>, last: string, endpoint: string)
    requires bs != [] && !IsHeader(last) && !IsEndpoint(last)
    ensures var p := AddLine(bs, last);
            OnlyEndpointSet(p, |p| - 1, Trim(endpoint), AddLine(bs, last + NewLine(endpoint))) <==>
            GluedReads(p, last, endpoint)
  {
    var glued := last + NewLine(endpoint);
    if Trim(last) == "" {
      BlankIsTrimmedAway(last, NewLine(endpoint));
      SameTrimSameMeaning(glued, NewLine(endpoint));
      BlankIsOther(last);
      NewLineMeans(endpoint);
      NewLineIsEndpoint(endpoint);
      hide NewLine, Trim, Classify, IsEndpointKey;
    } else {
      hide NewLine, Trim, Classify, IsEndpointKey, OnlyEndpointSet;
      if IsComment(last) {
        GluedComment(last, endpoint);
        SettingAgain(bs, Trim(endpoint));
      } else {
        if '=' in Trim(last) {
          GluedSetting(last, endpoint);
        } else {
          GluedWord(last, endpoint);
        }
        MoreThanEndpoint(bs, last, glued, Trim(endpoint));
      }
    }
  }

  /** The last line before a glued one is neither a header nor an endpoint setting, and the block it ends is the
      first with the key. */
  lemma GluedBehind(init: seq<string>, last: string, publicKey: string, endpoint: string)
    requires Plan(init + [last], publicKey, endpoint) == Insert(|init| + 1)
    ensures !IsHeader(last) && !IsEndpoint(last)
    ensures var p := Parse(init + [last]); IsFirstMatch(p, publicKey, |p| - 1)
  {
    var lines := init + [last];
    LastScanned(init, last, publicKey);
    if IsEndpoint(last) {
      EndpointIsNoKey(last);
    }
    ScanResult(lines, publicKey);
    hide NewLine, Trim, Classify, ScanUpTo, IsPeer, IsPublicKey, IsEndpointKey, Parse, Matches;
    assert lines[..|lines|] == lines;
  }

  lemma GluedReadsIff(raw: string, publicKey: string, endpoint: string) returns (m: nat)
    requires '\n' !in endpoint
    requires !StandsAlone(SplitKeep(raw), Plan(SplitKeep(raw), publicKey, endpoint))
    ensures var (outcome, file) := Updated(raw, publicKey, endpoint, false);
            var lines := SplitKeep(raw);
            var p := Parse(lines);
            && lines != [] && IsFirstMatch(p, publicKey, m)
            && (OnlyEndpointSet(p, m, Trim(endpoint), Parse(SplitKeep(file))) <==>
                GluedReads(p, lines[|lines| - 1], endpoint))
  {
    var lines := SplitKeep(raw);
    GluedToLastLine(raw, publicKey, endpoint);
    var n := |lines| - 1;
    var init, last := lines[..n], lines[n];
    assert init + [last] == lines;
    GluedBehind(init, last, publicKey, endpoint);
    m := |Parse(lines)| - 1;
    hide SplitKeep, Plan, NewLine, Trim, Join, IsHeader, IsEndpoint, AddLine, GluedReads, IsFirstMatch, Updated, Parse;
    ParseAppend(init, last);
    ParseAppend(init, last + NewLine(endpoint));
    GluedAdds(Parse(init), last, endpoint);
  }

  /** Reading the written file sees the first peer block with the key with the new endpoint, and nothing else
      changed, exactly when the new line stands alone, or goes behind a blank last line, or behind a comment in a
      block whose endpoint is the new one already. */
  lemma UpdateReadsIff(raw: string, publicKey: string, endpoint: string) returns (m: nat)
    requires '\n' !in endpoint
    ensures var (outcome, file) := Updated(raw, publicKey, endpoint, false);
            var lines := SplitKeep(raw);
            var p := Parse(lines);
            !outcome.Failed? ==>
              && IsFirstMatch(p, publicKey, m)
              && (OnlyEndpointSet(p, m, Trim(endpoint), Parse(SplitKeep(file))) <==>
                  || StandsAlone(lines, Plan(lines, publicKey, endpoint))
                  || (lines != [] && GluedReads(p, lines[|lines| - 1], endpoint)))
  {
    hide SplitKeep, Plan, Trim, Updated, Parse, IsFirstMatch, GluedReads, OnlyEndpointSet, Edited, Matches;
    if StandsAlone(SplitKeep(raw), Plan(SplitKeep(raw), publicKey, endpoint)) {
      m := UpdateCommutesWithReading(raw, publicKey, endpoint);
    } else {
      m := GluedReadsIff(raw, publicKey, endpoint);
    }
  }

  lemma SolidTrims(s: string)
    requires s != "" && !IsSpace(s[0]) && !IsSpace(s[|s| - 1])
    ensures Trim(s) == s
  {
    assert TrimLeft(s) == s;
  }

  const PEER := "[Peer]"
  const PEER_LINE := PEER + "\n"
  const KEY_LINE := "PublicKey" + "=" + "K"

  lemma PeerLineMeans()
    ensures Classify(PEER_LINE) == Header(PEER) && IsPeer(PEER) && Terminated(PEER_LINE)
  {
    var line := PEER_LINE;
    assert TrimLeft(line) == line && line[..|line| - 1] == PEER;
    assert TrimRight(PEER) == PEER;
  }

  lemma KeyLineMeans()
    ensures Classify(KEY_LINE) == Setting("PublicKey", "K") && Trim(KEY_LINE) == KEY_LINE && KEY_LINE[0] == 'P'
    ensures KEY_LINE != "" && '\n' !in KEY_LINE && IsPublicKey("PublicKey")
  {
    SolidTrims(KEY_LINE);
    SolidTrims("PublicKey");
    SolidTrims("K");
    assert '\n' !in "PublicKey" && '\n' !in "=" && '\n' !in "K";
    hide Classify, Trim;
    Assignment(KEY_LINE, "PublicKey", "K");
  }

  lemma KeyLinePlan(endpoint: string)
    ensures Plan([PEER_LINE, KEY_LINE], "K", endpoint) == Insert(2)
  {
    PeerLineMeans();
    KeyLineMeans();
    hide Classify, IsPeer, IsPublicKey, Trim;
    var lines := [PEER_LINE, KEY_LINE];
    assert ScanUpTo(lines, 0, "K") == START;
    assert ScanUpTo(lines, 1, "K") == Scan(true, false, Nowhere, Nowhere);
    assert ScanUpTo(lines, 2, "K") == Scan(true, true, Nowhere, Nowhere);
  }

  /** A file in which it does not, for any endpoint: the line of the key has no newline, and the new line ends up
      in the key. */
  lemma GluedToTheKey(endpoint: string) returns (m: nat)
    requires '\n' !in endpoint
    ensures var raw := PEER_LINE + KEY_LINE;
            var (outcome, file) := Updated(raw, "K", endpoint, false);
            var p := Parse(SplitKeep(raw));
            && outcome == Done(true) && IsFirstMatch(p, "K", m)
            && !OnlyEndpointSet(p, m, Trim(endpoint), Parse(SplitKeep(file)))
  {
    var lines := [PEER_LINE, KEY_LINE];
    PeerLineMeans();
    KeyLineMeans();
    hide PEER_LINE, KEY_LINE, Trim, Classify, IsPeer, IsPublicKey;
    SplitCons(PEER_LINE, KEY_LINE);
    SplitOne(KEY_LINE);
    assert [PEER_LINE] + [KEY_LINE] == lines;
    KeyLinePlan(endpoint);
    assert !StandsAlone(lines, Insert(2));
    hide Parse, SplitKeep, Updated, Plan, IsFirstMatch, OnlyEndpointSet;
    GluedToLastLine(PEER_LINE + KEY_LINE, "K", endpoint);
    m := UpdateReadsIff(PEER_LINE + KEY_LINE, "K", endpoint);
  }

  lemma JoinAround(a: seq<string>, line: string, b: seq<string>)
    ensures Join(a + [line] + b) == Join(a) + line + Join(b)
  {
    JoinConcat(a + [line], b);
    JoinSnoc(a, line);
  }

  lemma InsertLengthens(lines: seq<string>, i: nat, line: string)
    requires i <= |lines|
    ensures |Join(lines[..i] + [line] + lines[i..])| == |Join(lines)| + |line|
  {
    JoinAround(lines[..i], line, lines[i..]);
    JoinConcat(lines[..i], lines[i..]);
    assert lines[..i] + lines[i..] == lines;
    hide Join;
  }

  lemma ReplaceDiffers(lines: seq<string>, i: nat, line: string)
    requires i < |lines| && lines[i] != line
    ensures Join(lines[i := line]) != Join(lines)
  {
    hide Join;
    Slices(lines, i, i + 1, line);
    JoinAround(lines[..i], lines[i], lines[i + 1..]);
    JoinAround(lines[..i], line, lines[i + 1..]);
    Cancel(Join(lines[..i]), lines[i], line, Join(lines[i + 1..]));
  }

  lemma Cancel(a: string, x: string, y: string, b: string)
    requires x != y
    ensures a + x + b != a + y + b
  {
    if |x| == |y| {
      var i :| 0 <= i < |x| && x[i] != y[i];
      assert (a + x + b)[|a| + i] == x[i] && (a + y + b)[|a| + i] == y[i];
    } else {
      assert |a + x + b| != |a + y + b|;
    }
  }

  /** An update reports a change exactly when the written file differs from the old one, for every text and
      every endpoint; a dry run reports the same and writes nothing. */
  lemma ChangedIffDifferent(raw: string, publicKey: string, endpoint: string)
    ensures var (outcome, file) := Updated(raw, publicKey, endpoint, false);
            && (outcome == Done(true) <==> file != raw)
            && Updated(raw, publicKey, endpoint, true) == (outcome, raw)
  {
    var lines := SplitKeep(raw);
    var edit := Plan(lines, publicKey, endpoint);
    JoinSplit(raw);
    if edit.Insert? {
      InsertLengthens(lines, edit.i, NewLine(endpoint));
      assert NewLine(endpoint) != "";
    } else if edit.Replace? {
      assert lines[edit.i] != NewLine(endpoint);
      hide NewLine, Plan;
      ReplaceDiffers(lines, edit.i, NewLine(endpoint));
    }
    hide Plan, NewLine, SplitKeep, Join;
  }
}
