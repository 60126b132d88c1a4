/** Configuration files as they are written: what the rewriter reads in them, and leaves in them, section by section. */
module ConfFiles {
  import opened Text
  import opened WGConf

  /** A word between spaces. */
  predicate Plain(s: string) {
    Trim(s) == s && '\n' !in s
  }

  predicate PlainHeader(h: string) {
    |h| >= 2 && h[0] == '[' && h[|h| - 1] == ']' && '\n' !in h
  }

  predicate PlainKey(key: string) {
    Plain(key) && key != "" && key[0] != '#' && '=' !in key
  }

  /** A key and a value whose line is no header. */
  predicate PlainSetting(key: string, value: string) {
    PlainKey(key) && Plain(value) && (key[0] == '[' ==> value == "" || value[|value| - 1] != ']')
  }

  /** `word` in letters of either case. */
  predicate Spells(word: string, lower: string, upper: string) {
    |word| == |lower| == |upper| && forall i :: 0 <= i < |word| ==> word[i] == lower[i] || word[i] == upper[i]
  }

  predicate SaysEndpoint(key: string) {
    Spells(key, "endpoint", "ENDPOINT")
  }

  /** The Kelvin sign passes for a k. */
  predicate SaysPublicKey(key: string) {
    Spells(key, "publickey", "PUBLICKEY") || Spells(key, "public\U{212a}ey", "PUBLIC\U{212a}EY")
  }

  /** A section that can be written down: its header, its settings in order, and its endpoint, if it has one, last. */
  predicate Writable(b: Block) {
    && PlainHeader(b.header) && Plain(b.endpoint) && (b.hasEndpoint || b.endpoint == "")
    && forall i :: 0 <= i < |b.settings| ==>
         PlainSetting(b.settings[i].0, b.settings[i].1) && !SaysEndpoint(b.settings[i].0)
  }

  predicate AllWritable(bs: seq<Block>) {
    forall i :: 0 <= i < |bs| ==> Writable(bs[i])
  }

  function SettingLine(key: string, value: string): string {
    key + " = " + value + "\n"
  }

  function SettingLines(settings: seq<(string, string)>): seq<string> {
    if settings == [] then []
    else
      var n := |settings| - 1;
      SettingLines(settings[..n]) + [SettingLine(settings[n].0, settings[n].1)]
  }

  function BlockLines(b: Block): seq<string> {
    [b.header + "\n"] + SettingLines(b.settings) +
    if b.hasEndpoint then [SettingLine("Endpoint", b.endpoint)] else []
  }

  function FileLines(bs: seq<Block>): seq<string> {
    if bs == [] then [] else FileLines(bs[..|bs| - 1]) + BlockLines(bs[|bs| - 1])
  }

  /** The file with these sections. */
  function Written(bs: seq<Block>): string {
    Join(FileLines(bs))
  }

  /** A peer section with the key among its public keys. */
  predicate PeerWith(b: Block, publicKey: string) {
    && Spells(b.header, "[peer]", "[PEER]")
    && exists i :: 0 <= i < |b.settings| && SaysPublicKey(b.settings[i].0) && b.settings[i].1 == publicKey
  }

  /** What comes before all sections: nothing. */
  const PREAMBLE := Block("", [], "", false)

  // ---------- Words ----------

  lemma PeerHeaders(h: string)
    ensures IsPeer(h) <==> Spells(h, "[peer]", "[PEER]")
  {
  }

  lemma EndpointKeys(key: string)
    ensures IsEndpointKey(key) <==> SaysEndpoint(key)
  {
  }

  lemma PublicKeys(key: string)
    ensures IsPublicKey(key) <==> SaysPublicKey(key)
  {
  }

  // ---------- Lines ----------

  lemma PlainIsSolid(s: string)
    requires Trim(s) == s && s != ""
    ensures !IsSpace(s[0]) && TrimLeft(s) == s
  {
    TrimRightIsPrefix(TrimLeft(s));
    TrimLeftShorter(s);
  }

  lemma {:induction false} TrimLeftShorter(s: string)
    ensures |TrimLeft(s)| <= |s| && (|TrimLeft(s)| == |s| ==> TrimLeft(s) == s)
    ensures s != "" && IsSpace(s[0]) ==> |TrimLeft(s)| < |s|
  {
    if s != "" && IsSpace(s[0]) {
      TrimLeftShorter(s[1..]);
    }
  }

  lemma KeySpaced(key: string)
    requires Trim(key) == key && key != ""
    ensures Trim(key + " ") == key
  {
    PlainIsSolid(key);
    assert (key + " ")[..|key|] == key;
    assert TrimLeft(key + " ") == key + " ";
  }

  lemma SettingTrimmed(key: string, value: string)
    requires PlainKey(key)
    ensures Trim(SettingLine(key, value)) == key + " " + "=" + TrimRight(" " + value + "\n")
  {
    var head, tail := key + " =", " " + value + "\n";
    PlainIsSolid(key);
    assert SettingLine(key, value) == head + tail;
    TrimRightOfConcat(head, tail);
    assert TrimLeft(head + tail) == head + tail;
    assert head == key + " " + "=";
  }

  lemma ValueEnds(value: string)
    requires Plain(value)
    ensures TrimRight(" " + value + "\n") == if value == "" then "" else " " + value
  {
    var s := " " + value + "\n";
    assert s[..|s| - 1] == " " + value;
    if value == "" {
      assert " "[..0] == "";
    } else {
      PlainEnds(value);
    }
  }

  lemma PlainEnds(s: string)
    requires Trim(s) == s && s != ""
    ensures !IsSpace(s[|s| - 1])
  {
    PlainIsSolid(s);
    TrimRightIsPrefix(s[..|s| - 1]);
  }

  lemma SettingMeans(key: string, value: string)
    requires PlainSetting(key, value)
    ensures Classify(SettingLine(key, value)) == Setting(key, value) && Terminated(SettingLine(key, value))
  {
    var line := SettingLine(key, value);
    assert line[..|line| - 1] == key + " = " + value;
    hide TrimRight, TrimLeft, Trim, Classify;
    SettingTrimmed(key, value);
    hide SettingLine;
    KeySpaced(key);
    TrimPadded(' ', value, '\n');
    ValueEnds(value);
    Assignment(line, key + " ", TrimRight(" " + value + "\n"));
  }

  lemma HeaderMeans(h: string)
    requires PlainHeader(h)
    ensures Classify(h + "\n") == Header(h) && Terminated(h + "\n")
  {
    var line := h + "\n";
    assert line[..|line| - 1] == h;
    assert TrimLeft(line) == line && TrimRight(h) == h;
    assert Trim(line) == h;
  }

  /** Comments and blank lines mean nothing, whatever they say. */
  lemma RemarkMeansNothing(line: string)
    requires Trim(line) == "" || (Trim(line)[0] == '#')
    ensures Classify(line) == Other
  {
  }

  // ---------- Reading what is written ----------

  lemma {:induction false} SettingsRead(a: seq<string>, h: string, settings: seq<(string, string)>)
    requires PlainHeader(h)
    requires forall i :: 0 <= i < |settings| ==>
               PlainSetting(settings[i].0, settings[i].1) && !SaysEndpoint(settings[i].0)
    ensures Parse(a + [h + "\n"] + SettingLines(settings)) == Parse(a) + [Block(h, settings, "", false)]
  {
    hide Classify, Parse, PlainSetting;
    if settings == [] {
      HeaderMeans(h);
      ParseAppend(a, h + "\n");
      assert a + [h + "\n"] + [] == a + [h + "\n"];
    } else {
      var n := |settings| - 1;
      SettingsRead(a, h, settings[..n]);
      var line := SettingLine(settings[n].0, settings[n].1);
      SettingMeans(settings[n].0, settings[n].1);
      EndpointKeys(settings[n].0);
      hide SettingLine, IsEndpointKey;
      ParseAppend(a + [h + "\n"] + SettingLines(settings[..n]), line);
      assert a + [h + "\n"] + SettingLines(settings) == a + [h + "\n"] + SettingLines(settings[..n]) + [line];
      assert settings[..n] + [settings[n]] == settings;
    }
  }

  lemma EndpointReads(lines: seq<string>, before: seq<Block>, b: Block)
    requires Plain(b.endpoint) && b.hasEndpoint
    requires Parse(lines) == before + [Block(b.header, b.settings, "", false)]
    ensures Parse(lines + [SettingLine("Endpoint", b.endpoint)]) == before + [b]
  {
    assert PlainKey("Endpoint") by {
      SolidTrims("Endpoint");
    }
    SettingMeans("Endpoint", b.endpoint);
    EndpointKeys("Endpoint");
    ParseAppend(lines, SettingLine("Endpoint", b.endpoint));
    hide Classify, Parse, SettingLine, Plain, PlainKey, IsEndpointKey;
  }

  lemma Associates(a: seq<string>, b: seq<string>, c: seq<string>, d: seq<string>)
    ensures a + (b + c + d) == a + b + c + d
  {
  }

  lemma BlockReads(a: seq<string>, b: Block)
    requires Writable(b)
    ensures Parse(a + BlockLines(b)) == Parse(a) + [b]
  {
    SettingsRead(a, b.header, b.settings);
    var start, more := [b.header + "\n"], SettingLines(b.settings);
    if b.hasEndpoint {
      Associates(a, start, more, [SettingLine("Endpoint", b.endpoint)]);
      hide SettingLines, SettingLine, Parse, Plain, PlainHeader, PlainSetting, SaysEndpoint;
      EndpointReads(a + start + more, Parse(a), b);
    } else {
      Associates(a, start, more, []);
      assert a + start + more + [] == a + start + more;
      hide SettingLines, Parse, Plain, PlainHeader, PlainSetting, SaysEndpoint;
    }
  }

  lemma {:induction false} FileReads(bs: seq<Block>)
    requires AllWritable(bs)
    ensures Parse(FileLines(bs)) == [PREAMBLE] + bs
  {
    hide Parse, BlockLines, Writable;
    if bs == [] {
      NothingRead();
    } else {
      var n := |bs| - 1;
      assert AllWritable(bs[..n]) && Writable(bs[n]);
      hide AllWritable;
      FileReads(bs[..n]);
      BlockReads(FileLines(bs[..n]), bs[n]);
      assert [PREAMBLE] + bs[..n] + [bs[n]] == [PREAMBLE] + bs;
    }
  }

  lemma NothingRead()
    ensures Parse([]) == [PREAMBLE]
  {
  }

  lemma {:induction false} SettingsAreLines(settings: seq<(string, string)>)
    requires forall i :: 0 <= i < |settings| ==> PlainSetting(settings[i].0, settings[i].1)
    ensures forall i :: 0 <= i < |SettingLines(settings)| ==> Terminated(SettingLines(settings)[i])
  {
    if settings != [] {
      var n := |settings| - 1;
      SettingsAreLines(settings[..n]);
      SettingMeans(settings[n].0, settings[n].1);
    }
  }

  lemma BlockIsLines(b: Block)
    requires Writable(b)
    ensures forall i :: 0 <= i < |BlockLines(b)| ==> Terminated(BlockLines(b)[i])
  {
    HeaderMeans(b.header);
    SettingsAreLines(b.settings);
    assert PlainKey("Endpoint") by {
      SolidTrims("Endpoint");
    }
    SettingMeans("Endpoint", b.endpoint);
  }

  lemma {:induction false} FileIsLines(bs: seq<Block>)
    requires AllWritable(bs)
    ensures forall i :: 0 <= i < |FileLines(bs)| ==> Terminated(FileLines(bs)[i])
  {
    if bs != [] {
      var n := |bs| - 1;
      assert AllWritable(bs[..n]) && Writable(bs[n]);
      FileIsLines(bs[..n]);
      BlockIsLines(bs[n]);
    }
  }

  /** Reading undoes writing. */
  lemma WrittenReads(bs: seq<Block>)
    requires AllWritable(bs)
    ensures SplitKeep(Written(bs)) == FileLines(bs) && Parse(SplitKeep(Written(bs))) == [PREAMBLE] + bs
  {
    FileIsLines(bs);
    SplitJoinIff(FileLines(bs));
    FileReads(bs);
  }

  lemma MatchesAre(b: Block, publicKey: string)
    ensures Matches(b, publicKey) <==> PeerWith(b, publicKey)
  {
    PeerHeaders(b.header);
    hide IsPeer, IsPublicKey, SaysPublicKey, Spells;
    forall i | 0 <= i < |b.settings| ensures IsPublicKey(b.settings[i].0) <==> SaysPublicKey(b.settings[i].0) {
      PublicKeys(b.settings[i].0);
    }
  }

  predicate IsFirstPeer(bs: seq<Block>, publicKey: string, m: nat) {
    m < |bs| && PeerWith(bs[m], publicKey) && forall i :: 0 <= i < m ==> !PeerWith(bs[i], publicKey)
  }

  predicate NoPeer(bs: seq<Block>, publicKey: string) {
    forall i :: 0 <= i < |bs| ==> !PeerWith(bs[i], publicKey)
  }

  lemma FirstMatchIs(bs: seq<Block>, publicKey: string, n: nat)
    ensures var p := [PREAMBLE] + bs;
            && (IsFirstMatch(p, publicKey, n) ==> n > 0 && IsFirstPeer(bs, publicKey, n - 1))
            && ((forall j :: 0 <= j < |p| ==> !Matches(p[j], publicKey)) <==> NoPeer(bs, publicKey))
  {
    var p := [PREAMBLE] + bs;
    assert !Matches(PREAMBLE, publicKey);
    hide Matches, PeerWith;
    forall i | 0 <= i < |bs| ensures p[i + 1] == bs[i] && (Matches(bs[i], publicKey) <==> PeerWith(bs[i], publicKey)) {
      MatchesAre(bs[i], publicKey);
    }
    assert forall j :: 0 < j < |p| ==> p[j] == bs[j - 1];
    if forall j :: 0 <= j < |p| ==> !Matches(p[j], publicKey) {
      forall i | 0 <= i < |bs| ensures !PeerWith(bs[i], publicKey) {
        assert !Matches(p[i + 1], publicKey);
      }
    }
  }

  lemma SetBehind(bs: seq<Block>, m: nat, b: Block)
    requires m < |bs|
    ensures var p := [PREAMBLE] + bs; p[m + 1] == bs[m] && p[m + 1 := b] == [PREAMBLE] + bs[m := b]
  {
  }

  lemma WrittenStandsAlone(bs: seq<Block>, edit: Edit)
    requires AllWritable(bs)
    ensures StandsAlone(SplitKeep(Written(bs)), edit)
  {
    WrittenReads(bs);
    FileIsLines(bs);
  }

  /** Updating a written file fails exactly when no peer section has the key, and otherwise leaves a file that reads as
      the same sections, the first such one with the new endpoint. */
  lemma WrittenUpdates(bs: seq<Block>, publicKey: string, endpoint: string) returns (m: nat)
    requires AllWritable(bs) && '\n' !in endpoint
    ensures var (outcome, file) := Updated(Written(bs), publicKey, endpoint, false);
            && (outcome.Failed? <==> NoPeer(bs, publicKey))
            && (outcome.Failed? ==> file == Written(bs))
            && (!outcome.Failed? ==>
                  && IsFirstPeer(bs, publicKey, m)
                  && Parse(SplitKeep(file)) ==
                     [PREAMBLE] + bs[m := bs[m].(endpoint := Trim(endpoint), hasEndpoint := true)])
  {
    WrittenReads(bs);
    var lines := SplitKeep(Written(bs));
    WrittenStandsAlone(bs, Plan(lines, publicKey, endpoint));
    hide Written, Parse, SplitKeep, FileLines, Plan, Updated, Edited, IsFirstMatch, Matches, NoPeer, PeerWith, Trim;
    hide AllWritable, NewLine, StandsAlone, Terminated;
    var n := UpdateCommutesWithReading(Written(bs), publicKey, endpoint);
    FirstMatchIs(bs, publicKey, n);
    m := if n > 0 then n - 1 else 0;
    if m < |bs| {
      SetBehind(bs, m, WithEndpoint(bs[m], Trim(endpoint)));
    }
  }
}
