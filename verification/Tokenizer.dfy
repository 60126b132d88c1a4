/** The shell-like splitting of a typed command, and the printers it undoes. */
module Tokenizer {
  import Text

  datatype Lexer = Lexer(parts: seq<string>, current: string, quote: string, escaped: bool)

  const START := Lexer([], "", "", false)

  /** There are two splitters: the command line's, and the one of the approval page, which agree up to what
      counts as white space. */
  datatype Dialect = CommandLine | Page

  /** White space in the page's scripts: all but U+0085 of what trims on the command line, and the byte order
      mark. */
  predicate IsPageSpace(c: char) {
    (Text.IsSpace(c) && c != '\U{85}') || c == '\U{feff}'
  }

  /** What is trimmed at the two ends. */
  predicate IsSpace(d: Dialect, c: char) {
    if d.Page? then IsPageSpace(c) else Text.IsSpace(c)
  }

  /** What separates tokens. */
  predicate IsBlank(d: Dialect, c: char) {
    if d.Page? then IsPageSpace(c) else c == ' ' || c == '\t' || c == '\n' || c == '\r'
  }

  function TrimLeft(d: Dialect, s: string): string {
    if s != "" && IsSpace(d, s[0]) then TrimLeft(d, s[1..]) else s
  }

  function TrimRight(d: Dialect, s: string): string {
    if s != "" && IsSpace(d, s[|s| - 1]) then TrimRight(d, s[..|s| - 1]) else s
  }

  function Trim(d: Dialect, s: string): string {
    TrimRight(d, TrimLeft(d, s))
  }

  lemma {:induction false} CommandLineTrimsRight(s: string)
    ensures TrimRight(CommandLine, s) == Text.TrimRight(s)
  {
    if s != "" && Text.IsSpace(s[|s| - 1]) {
      CommandLineTrimsRight(s[..|s| - 1]);
    }
  }

  /** On the command line this is the trimming of the standard library. */
  lemma {:induction false} CommandLineTrims(s: string)
    ensures Trim(CommandLine, s) == Text.Trim(s)
  {
    if s != "" && Text.IsSpace(s[0]) {
      CommandLineTrims(s[1..]);
    } else {
      CommandLineTrimsRight(s);
    }
  }

  predicate IsQuote(c: char) {
    c == '\'' || c == '\"'
  }

  function Flush(l: Lexer): Lexer {
    if l.current == "" then l else l.(parts := l.parts + [l.current], current := "")
  }

  /** One character. `quote` holds the open quote character, if any. */
  function Next(d: Dialect, l: Lexer, c: char): Lexer {
    if l.escaped then l.(current := l.current + [c], escaped := false)
    else if c == '\\' then l.(escaped := true)
    else if l.quote != "" then
      if l.quote == [c] then l.(quote := "") else l.(current := l.current + [c])
    else if IsQuote(c) then l.(quote := [c])
    else if IsBlank(d, c) then Flush(l)
    else l.(current := l.current + [c])
  }

  function Lex(d: Dialect, l: Lexer, s: string): Lexer {
    if s == "" then l else Next(d, Lex(d, l, s[..|s| - 1]), s[|s| - 1])
  }

  /** A trailing backslash stands for itself; an unfinished token counts. */
  function Finish(l: Lexer): seq<string> {
    Flush(if l.escaped then l.(current := l.current + "\\") else l).parts
  }

  function Split(d: Dialect, value: string): seq<string> {
    Finish(Lex(d, START, Trim(d, value)))
  }

  /** Both splitters, which are the same loop. */
  method SplitCommand(d: Dialect, value: string) returns (parts: seq<string>)
    ensures parts == Split(d, value)
  {
    var text := Trim(d, value);
    parts := [];
    if text == "" {
      return;
    }
    var current, quote, escaped := "", "", false;
    for i := 0 to |text|
      invariant Lexer(parts, current, quote, escaped) == Lex(d, START, text[..i])
    {
      var c := text[i];
      assert text[..i + 1][..i] == text[..i];
      if escaped {
        current, escaped := current + [c], false;
      } else if c == '\\' {
        escaped := true;
      } else if quote != "" {
        if quote == [c] {
          quote := "";
        } else {
          current := current + [c];
        }
      } else if c == '\'' || c == '\"' {
        quote := [c];
      } else if IsBlank(d, c) {
        if |current| > 0 {
          parts, current := parts + [current], "";
        }
      } else {
        current := current + [c];
      }
    }
    assert text[..|text|] == text;
    if escaped {
      current := current + "\\";
    }
    if |current| > 0 {
      parts := parts + [current];
    }
  }

  // ---------- Printers ----------

  /** A character a token can be put between. */
  predicate QuoteMark(q: char) {
    q == '\'' || q == '\"'
  }

  function Escape(q: char, token: string): string {
    if token == "" then ""
    else
      var init, c := Escape(q, token[..|token| - 1]), token[|token| - 1];
      init + if c == '\\' || c == q then ['\\', c] else [c]
  }

  function Quoted(q: char, token: string): string {
    [q] + Escape(q, token) + [q]
  }

  /** The words separated by single spaces. */
  function JoinWords(words: seq<string>): string {
    if words == [] then ""
    else if |words| == 1 then words[0]
    else JoinWords(words[..|words| - 1]) + [' '] + words[|words| - 1]
  }

  function QuotedWords(q: char, tokens: seq<string>): seq<string> {
    seq(|tokens|, i requires 0 <= i < |tokens| => Quoted(q, tokens[i]))
  }

  function NonEmpty(tokens: seq<string>): seq<string> {
    if tokens == [] then []
    else
      var init, last := NonEmpty(tokens[..|tokens| - 1]), tokens[|tokens| - 1];
      if last == "" then init else init + [last]
  }

  // ---------- Lexing what was printed ----------

  lemma {:induction false} LexConcat(d: Dialect, l: Lexer, s: string, t: string)
    ensures Lex(d, l, s + t) == Lex(d, Lex(d, l, s), t)
  {
    if t == "" {
      assert s + t == s;
    } else {
      assert (s + t)[..|s + t| - 1] == s + t[..|t| - 1];
      LexConcat(d, l, s, t[..|t| - 1]);
    }
  }

  lemma LexOne(d: Dialect, l: Lexer, c: char)
    ensures Lex(d, l, [c]) == Next(d, l, c)
  {
    assert [c][..0] == "";
  }

  lemma {:induction false} LexEscaped(d: Dialect, l: Lexer, q: char, token: string)
    requires !l.escaped && l.quote == [q] && QuoteMark(q)
    ensures Lex(d, l, Escape(q, token)) == l.(current := l.current + token)
  {
    if token != "" {
      var init, c := token[..|token| - 1], token[|token| - 1];
      LexEscaped(d, l, q, init);
      var mid := l.(current := l.current + init);
      assert l.current + init + [c] == l.current + token;
      if c == '\\' || c == q {
        LexConcat(d, l, Escape(q, init), ['\\', c]);
        assert ['\\', c] == ['\\'] + [c];
        LexConcat(d, mid, ['\\'], [c]);
        LexOne(d, mid, '\\');
        LexOne(d, mid.(escaped := true), c);
      } else {
        LexConcat(d, l, Escape(q, init), [c]);
        LexOne(d, mid, c);
      }
    }
  }

  lemma LexQuoted(d: Dialect, l: Lexer, q: char, token: string)
    requires !l.escaped && l.quote == "" && QuoteMark(q)
    ensures Lex(d, l, Quoted(q, token)) == l.(current := l.current + token)
  {
    LexConcat(d, l, [q] + Escape(q, token), [q]);
    LexConcat(d, l, [q], Escape(q, token));
    LexOne(d, l, q);
    LexEscaped(d, l.(quote := [q]), q, token);
    LexOne(d, l.(quote := [q], current := l.current + token), q);
  }

  /** The characters that do not stand for themselves. */
  predicate Special(d: Dialect, c: char) {
    || c == '\'' || c == '\"' || c == '\\'
    || c == ' ' || c == '\t' || c == '\n' || c == '\r'
    || (d.Page? && (c == '\U{0b}' || c == '\U{0c}' || c == '\U{a0}' || c == '\U{1680}' || c == '\U{feff}'
                    || '\U{2000}' <= c <= '\U{200a}' || c == '\U{2028}' || c == '\U{2029}'
                    || c == '\U{202f}' || c == '\U{205f}' || c == '\U{3000}'))
  }

  predicate Ordinary(d: Dialect, c: char) {
    !Special(d, c)
  }

  /** No blank, quote or backslash. */
  predicate OrdinaryToken(d: Dialect, token: string) {
    forall i :: 0 <= i < |token| ==> Ordinary(d, token[i])
  }

  lemma {:induction false} LexOrdinary(d: Dialect, l: Lexer, token: string)
    requires !l.escaped && l.quote == "" && OrdinaryToken(d, token)
    ensures Lex(d, l, token) == l.(current := l.current + token)
  {
    if token != "" {
      var init, c := token[..|token| - 1], token[|token| - 1];
      LexOrdinary(d, l, init);
      assert l.current + init + [c] == l.current + token;
    } else {
      assert l.current + token == l.current;
    }
  }

  /** The lexer reads the word back as the token, wherever it stands between tokens. */
  ghost predicate ReadsAs(d: Dialect, word: string, token: string) {
    forall l: Lexer :: !l.escaped && l.quote == "" ==> Lex(d, l, word) == l.(current := l.current + token)
  }

  ghost predicate Readable(d: Dialect, words: seq<string>, tokens: seq<string>) {
    |words| == |tokens| && forall i :: 0 <= i < |tokens| ==> ReadsAs(d, words[i], tokens[i])
  }

  /** Outside quotes, with the last token unfinished and all before it flushed. */
  predicate Between(l: Lexer, tokens: seq<string>) {
    && !l.escaped && l.quote == ""
    && Flush(l).parts == NonEmpty(tokens)
    && l.current == (if tokens == [] then "" else tokens[|tokens| - 1])
  }

  lemma NothingLexed(d: Dialect)
    ensures Between(START, []) && Lex(d, START, "") == START && Next(d, START, ' ') == START
  {
  }

  lemma LexAnother(d: Dialect, init: seq<string>, l: Lexer, last: string, word: string)
    requires Between(l, init) && ReadsAs(d, word, last)
    ensures Between(Lex(d, Next(d, l, ' '), word), init + [last])
  {
    var m := Next(d, l, ' ');
    assert m == Flush(l) && |m.current| == 0;
    assert m.current + last == last;
    assert Lex(d, m, word) == m.(current := last);
    assert (init + [last])[..|init|] == init;
  }

  lemma LexTail(d: Dialect, head: string, word: string)
    ensures Lex(d, START, head + [' '] + word) == Lex(d, Next(d, Lex(d, START, head), ' '), word)
  {
    LexConcat(d, START, head + [' '], word);
    LexConcat(d, START, head, [' ']);
    LexOne(d, Lex(d, START, head), ' ');
  }

  lemma {:induction false} LexJoined(d: Dialect, words: seq<string>, tokens: seq<string>)
    requires Readable(d, words, tokens)
    ensures Between(Lex(d, START, JoinWords(words)), tokens)
  {
    NothingLexed(d);
    hide Lex, Next, NonEmpty, Between, Flush, ReadsAs;
    if |tokens| > 0 {
      var n := |tokens| - 1;
      assert tokens[..n] + [tokens[n]] == tokens;
      if n == 0 {
        assert [] + [tokens[0]] == tokens;
        LexAnother(d, [], START, tokens[0], words[0]);
      } else {
        LexJoined(d, words[..n], tokens[..n]);
        LexTail(d, JoinWords(words[..n]), words[n]);
        LexAnother(d, tokens[..n], Lex(d, START, JoinWords(words[..n])), tokens[n], words[n]);
      }
    }
  }

  predicate SolidEnds(d: Dialect, s: string) {
    s != "" && !IsSpace(d, s[0]) && !IsSpace(d, s[|s| - 1])
  }

  /** Words that start and end solid join into a text that trimming leaves alone. */
  lemma {:induction false} JoinedIsTrimmed(d: Dialect, words: seq<string>)
    requires forall i :: 0 <= i < |words| ==> SolidEnds(d, words[i])
    ensures var s := JoinWords(words);
            Trim(d, s) == s && (words != [] ==> SolidEnds(d, s))
  {
    if |words| > 1 {
      JoinedIsTrimmed(d, words[..|words| - 1]);
    }
  }

  lemma BetweenFinishes(l: Lexer, tokens: seq<string>)
    requires Between(l, tokens)
    ensures Finish(l) == NonEmpty(tokens)
  {
  }

  lemma ReadBack(d: Dialect, words: seq<string>, tokens: seq<string>)
    requires Readable(d, words, tokens)
    requires forall i :: 0 <= i < |words| ==> SolidEnds(d, words[i])
    ensures Split(d, JoinWords(words)) == NonEmpty(tokens)
  {
    LexJoined(d, words, tokens);
    JoinedIsTrimmed(d, words);
    hide Lex, JoinWords, NonEmpty, Readable, Trim, Between, Finish;
    BetweenFinishes(Lex(d, START, JoinWords(words)), tokens);
  }

  lemma QuotedReadsAs(d: Dialect, q: char, token: string)
    requires QuoteMark(q)
    ensures ReadsAs(d, Quoted(q, token), token) && SolidEnds(d, Quoted(q, token))
  {
    forall l: Lexer | !l.escaped && l.quote == ""
      ensures Lex(d, l, Quoted(q, token)) == l.(current := l.current + token)
    {
      LexQuoted(d, l, q, token);
    }
    hide Lex;
  }

  lemma QuotedIsReadable(d: Dialect, q: char, tokens: seq<string>)
    requires QuoteMark(q)
    ensures Readable(d, QuotedWords(q, tokens), tokens)
    ensures forall i :: 0 <= i < |tokens| ==> SolidEnds(d, QuotedWords(q, tokens)[i])
  {
    hide Quoted, ReadsAs, SolidEnds;
    forall i | 0 <= i < |tokens|
      ensures ReadsAs(d, Quoted(q, tokens[i]), tokens[i]) && SolidEnds(d, Quoted(q, tokens[i]))
    {
      QuotedReadsAs(d, q, tokens[i]);
    }
  }

  /** Splitting undoes the quoting printer, with either quote, on every list of tokens, except that empty tokens are
      dropped: it is the inverse exactly on lists of non-empty tokens. */
  lemma SplitInvertsQuoting(d: Dialect, q: char, tokens: seq<string>)
    requires q == '\'' || q == '\"'
    ensures var text := JoinWords(QuotedWords(q, tokens));
            && Split(d, text) == NonEmpty(tokens)
            && (Split(d, text) == tokens <==> forall i :: 0 <= i < |tokens| ==> tokens[i] != "")
  {
    QuotedIsReadable(d, q, tokens);
    ReadBack(d, QuotedWords(q, tokens), tokens);
    NonEmptyIsAllIff(tokens);
    hide *;
  }

  lemma {:induction false} NonEmptyIsAllIff(tokens: seq<string>)
    ensures |NonEmpty(tokens)| <= |tokens|
    ensures NonEmpty(tokens) == tokens <==> forall i :: 0 <= i < |tokens| ==> tokens[i] != ""
  {
    if tokens != [] {
      var init := tokens[..|tokens| - 1];
      NonEmptyIsAllIff(init);
      assert tokens == init + [tokens[|tokens| - 1]];
      if NonEmpty(tokens) == tokens {
        assert |NonEmpty(init)| == |init|;
        assert NonEmpty(init) == NonEmpty(tokens)[..|init|];
      }
    }
  }

  // ---------- Exactly which plain joins split back ----------

  /** A backslash may end the last token, where it stands for itself. */
  predicate EndsInBackslash(tokens: seq<string>) {
    tokens != [] && tokens[|tokens| - 1] != "" && tokens[|tokens| - 1][|tokens[|tokens| - 1]| - 1] == '\\'
  }

  function WithoutBackslash(tokens: seq<string>): seq<string>
    requires EndsInBackslash(tokens)
  {
    var last := tokens[|tokens| - 1];
    tokens[|tokens| - 1 := last[..|last| - 1]]
  }

  predicate AllOrdinary(d: Dialect, tokens: seq<string>) {
    forall i :: 0 <= i < |tokens| ==> OrdinaryToken(d, tokens[i])
  }

  /** Non-empty tokens of ordinary characters but for a final backslash, with no white space at either end. */
  predicate Joinable(d: Dialect, tokens: seq<string>) {
    && (forall i :: 0 <= i < |tokens| ==> tokens[i] != "")
    && AllOrdinary(d, if EndsInBackslash(tokens) then WithoutBackslash(tokens) else tokens)
    && (tokens != [] ==> !IsSpace(d, tokens[0][0]) && !IsSpace(d, tokens[|tokens| - 1][|tokens[|tokens| - 1]| - 1]))
  }

  lemma OrdinaryReads(d: Dialect, tokens: seq<string>)
    requires AllOrdinary(d, tokens)
    ensures Between(Lex(d, START, JoinWords(tokens)), tokens)
  {
    forall i | 0 <= i < |tokens| ensures ReadsAs(d, tokens[i], tokens[i]) {
      OrdinaryReadsAs(d, tokens[i]);
    }
    hide ReadsAs, OrdinaryToken, Between;
    LexJoined(d, tokens, tokens);
  }

  lemma OrdinaryReadsAs(d: Dialect, token: string)
    requires OrdinaryToken(d, token)
    ensures ReadsAs(d, token, token)
  {
    forall l: Lexer | !l.escaped && l.quote == "" ensures Lex(d, l, token) == l.(current := l.current + token) {
      LexOrdinary(d, l, token);
    }
    hide Lex;
  }

  /** The two ends of a joined text are the ends of its outer words. */
  lemma {:induction false} JoinedEnds(words: seq<string>)
    requires words != [] && forall i :: 0 <= i < |words| ==> words[i] != ""
    ensures var s, last := JoinWords(words), words[|words| - 1];
            s != "" && s[0] == words[0][0] && s[|s| - 1] == last[|last| - 1]
  {
    if |words| > 1 {
      JoinedEnds(words[..|words| - 1]);
    }
  }

  lemma BackslashLast(tokens: seq<string>)
    requires EndsInBackslash(tokens)
    ensures JoinWords(tokens) == JoinWords(WithoutBackslash(tokens)) + ['\\']
  {
    var n := |tokens| - 1;
    var cut := WithoutBackslash(tokens);
    assert cut[..n] == tokens[..n];
    assert tokens[n] == cut[n] + ['\\'];
    if n > 0 {
      assert JoinWords(tokens[..n]) + [' '] + tokens[n] == JoinWords(tokens[..n]) + [' '] + cut[n] + ['\\'];
    }
  }

  lemma {:induction false} NonEmptyKeepsFront(tokens: seq<string>, last: string)
    requires last != ""
    ensures NonEmpty(tokens + [last]) == NonEmpty(tokens) + [last]
  {
    assert (tokens + [last])[..|tokens|] == tokens;
  }

  lemma BackslashFinishes(d: Dialect, tokens: seq<string>, l: Lexer)
    requires EndsInBackslash(tokens) && Between(l, WithoutBackslash(tokens))
    ensures Finish(Next(d, l, '\\')) == NonEmpty(tokens)
  {
    var n := |tokens| - 1;
    var cut := WithoutBackslash(tokens);
    assert cut[..n] == tokens[..n] && tokens[..n] + [tokens[n]] == tokens;
    assert l.current + "\\" == tokens[n];
    assert l.parts == NonEmpty(tokens[..n]) by {
      assert (l.parts + [l.current])[..|l.parts|] == l.parts;
      assert (NonEmpty(tokens[..n]) + [cut[n]])[..|NonEmpty(tokens[..n])|] == NonEmpty(tokens[..n]);
    }
    NonEmptyKeepsFront(tokens[..n], tokens[n]);
  }

  lemma JoinableSplits(d: Dialect, tokens: seq<string>)
    requires Joinable(d, tokens)
    ensures Split(d, JoinWords(tokens)) == tokens
  {
    var text := JoinWords(tokens);
    if tokens != [] {
      JoinedEnds(tokens);
    }
    assert Trim(d, text) == text;
    NonEmptyIsAllIff(tokens);
    hide Trim, NonEmpty, JoinWords;
    if EndsInBackslash(tokens) {
      OrdinaryReads(d, WithoutBackslash(tokens));
      BackslashLast(tokens);
      var body := JoinWords(WithoutBackslash(tokens));
      LexConcat(d, START, body, ['\\']);
      LexOne(d, Lex(d, START, body), '\\');
      hide Lex, Between, Finish;
      BackslashFinishes(d, tokens, Lex(d, START, body));
    } else {
      OrdinaryReads(d, tokens);
      hide Lex, Between, Finish;
      BetweenFinishes(Lex(d, START, text), tokens);
    }
  }

  // ---------- Nothing else does: every other character is lost ----------

  function Length(parts: seq<string>): nat {
    if parts == [] then 0 else Length(parts[..|parts| - 1]) + |parts[|parts| - 1]|
  }

  /** Characters kept plus tokens completed. */
  function Packed(l: Lexer): nat {
    Length(l.parts) + |l.parts| + |l.current|
  }

  function Blanks(d: Dialect, s: string): nat {
    if s == "" then 0 else Blanks(d, s[..|s| - 1]) + if IsBlank(d, s[|s| - 1]) then 1 else 0
  }

  /** A character that is neither kept nor ends a token is lost. */
  predicate Useful(d: Dialect, l: Lexer, c: char) {
    || l.escaped
    || (c != '\\' && if l.quote != "" then l.quote != [c] else !IsQuote(c) && (IsBlank(d, c) ==> l.current != ""))
  }

  lemma LengthAppend(parts: seq<string>, part: string)
    ensures Length(parts + [part]) == Length(parts) + |part|
  {
    assert (parts + [part])[..|parts|] == parts;
  }

  lemma PackedStep(d: Dialect, l: Lexer, c: char)
    ensures Packed(Next(d, l, c)) == Packed(l) + if Useful(d, l, c) then 1 else 0
  {
    LengthAppend(l.parts, l.current);
  }

  /** A text can fill its length only by being ordinary, with each blank ending a token. */
  lemma {:induction false} PackedAtMost(d: Dialect, s: string)
    ensures var l := Lex(d, START, s);
            && Packed(l) <= |s|
            && (Packed(l) == |s| ==>
                  && !l.escaped && l.quote == "" && |l.parts| == Blanks(d, s)
                  && forall i :: 0 <= i < |s| ==> IsBlank(d, s[i]) || Ordinary(d, s[i]))
  {
    if s != "" {
      var init, c := s[..|s| - 1], s[|s| - 1];
      PackedAtMost(d, init);
      PackedStep(d, Lex(d, START, init), c);
      assert s == init + [c];
    }
  }

  lemma FinishPacked(l: Lexer)
    ensures var r := Finish(l);
            Length(r) + |r| == Packed(l) + if l.escaped then 2 else if l.current != "" then 1 else 0
  {
    LengthAppend(l.parts, l.current + "\\");
    LengthAppend(l.parts, l.current);
  }

  lemma {:induction false} JoinedSize(d: Dialect, words: seq<string>)
    requires words != []
    ensures |JoinWords(words)| == Length(words) + |words| - 1
    ensures Blanks(d, JoinWords(words)) == BlanksIn(d, words) + |words| - 1
  {
    var n := |words| - 1;
    if n == 0 {
      assert words[..0] == [];
    } else {
      JoinedSize(d, words[..n]);
      BlanksConcat(d, JoinWords(words[..n]), [' ']);
      BlanksConcat(d, JoinWords(words[..n]) + [' '], words[n]);
      assert [' '][..0] == "";
      assert Blanks(d, [' ']) == 1;
    }
  }

  function BlanksIn(d: Dialect, words: seq<string>): nat {
    if words == [] then 0 else BlanksIn(d, words[..|words| - 1]) + Blanks(d, words[|words| - 1])
  }

  lemma {:induction false} BlanksConcat(d: Dialect, a: string, b: string)
    ensures Blanks(d, a + b) == Blanks(d, a) + Blanks(d, b)
  {
    if b == "" {
      assert a + b == a;
    } else {
      assert (a + b)[..|a + b| - 1] == a + b[..|b| - 1];
      BlanksConcat(d, a, b[..|b| - 1]);
    }
  }

  lemma {:induction false} NoBlanksInside(d: Dialect, words: seq<string>)
    requires BlanksIn(d, words) == 0
    ensures forall i, j :: 0 <= i < |words| && 0 <= j < |words[i]| ==> !IsBlank(d, words[i][j])
  {
    if words != [] {
      NoBlanksInside(d, words[..|words| - 1]);
      NoBlanks(d, words[|words| - 1]);
    }
  }

  lemma {:induction false} NoBlanks(d: Dialect, s: string)
    requires Blanks(d, s) == 0
    ensures forall j :: 0 <= j < |s| ==> !IsBlank(d, s[j])
  {
    if s != "" {
      NoBlanks(d, s[..|s| - 1]);
    }
  }

  predicate Harmless(d: Dialect, s: string) {
    forall i :: 0 <= i < |s| ==> IsBlank(d, s[i]) || Ordinary(d, s[i])
  }

  lemma HarmlessParts(d: Dialect, a: string, b: string)
    requires Harmless(d, a + b)
    ensures Harmless(d, a) && Harmless(d, b)
  {
    assert forall i :: 0 <= i < |a| ==> (a + b)[i] == a[i];
    assert forall i :: 0 <= i < |b| ==> (a + b)[|a| + i] == b[i];
  }

  lemma {:induction false} HarmlessWords(d: Dialect, words: seq<string>)
    requires Harmless(d, JoinWords(words))
    ensures forall i :: 0 <= i < |words| ==> Harmless(d, words[i])
  {
    if |words| > 1 {
      var n := |words| - 1;
      HarmlessParts(d, JoinWords(words[..n]) + [' '], words[n]);
      HarmlessParts(d, JoinWords(words[..n]), [' ']);
      hide Harmless;
      HarmlessWords(d, words[..n]);
    }
  }

  /** Harmless text with no more blanks than separators is made of ordinary tokens. */
  lemma OrdinaryWords(d: Dialect, words: seq<string>)
    requires words != [] && Harmless(d, JoinWords(words)) && Blanks(d, JoinWords(words)) == |words| - 1
    ensures AllOrdinary(d, words)
  {
    JoinedSize(d, words);
    NoBlanksInside(d, words);
    HarmlessWords(d, words);
    hide JoinWords, Blanks, BlanksIn;
    forall i | 0 <= i < |words| ensures OrdinaryToken(d, words[i]) {
      assert Harmless(d, words[i]);
    }
  }

  lemma {:induction false} TrimLeftShortens(d: Dialect, s: string)
    ensures |TrimLeft(d, s)| <= |s| && (|TrimLeft(d, s)| == |s| ==> s == "" || !IsSpace(d, s[0]))
  {
    if s != "" && IsSpace(d, s[0]) {
      TrimLeftShortens(d, s[1..]);
    }
  }

  lemma {:induction false} TrimRightShortens(d: Dialect, s: string)
    ensures |TrimRight(d, s)| <= |s| && (|TrimRight(d, s)| == |s| ==> s == "" || !IsSpace(d, s[|s| - 1]))
  {
    if s != "" && IsSpace(d, s[|s| - 1]) {
      TrimRightShortens(d, s[..|s| - 1]);
    }
  }

  lemma TrimShortens(d: Dialect, s: string)
    ensures |Trim(d, s)| <= |s|
    ensures |Trim(d, s)| == |s| ==> Trim(d, s) == s && (s != "" ==> SolidEnds(d, s))
  {
    TrimLeftShortens(d, s);
    TrimRightShortens(d, TrimLeft(d, s));
  }

  lemma {:induction false} PartsAreNonEmpty(d: Dialect, s: string)
    ensures forall i :: 0 <= i < |Lex(d, START, s).parts| ==> Lex(d, START, s).parts[i] != ""
  {
    if s != "" {
      PartsAreNonEmpty(d, s[..|s| - 1]);
    }
  }

  lemma FinishedAreNonEmpty(d: Dialect, s: string)
    ensures forall i :: 0 <= i < |Finish(Lex(d, START, s))| ==> Finish(Lex(d, START, s))[i] != ""
  {
    PartsAreNonEmpty(d, s);
    hide Lex;
  }

  /** A text that splits into the tokens it joins is not trimmed, and fills its length up to a final backslash. */
  lemma SplitIsTight(d: Dialect, tokens: seq<string>)
    requires tokens != [] && Split(d, JoinWords(tokens)) == tokens
    ensures var text := JoinWords(tokens);
            var l := Lex(d, START, text);
            && Trim(d, text) == text && text != "" && SolidEnds(d, text) && Finish(l) == tokens
            && Packed(l) == |text| - (if l.escaped then 1 else 0)
            && (!l.escaped ==> l.current != "")
  {
    var text := JoinWords(tokens);
    JoinedSize(d, tokens);
    TrimShortens(d, text);
    PackedAtMost(d, Trim(d, text));
    FinishPacked(Lex(d, START, Trim(d, text)));
    hide Lex, JoinWords, Trim, Finish, Packed, Length, Blanks, BlanksIn;
  }

  lemma TightIsJoinable(d: Dialect, tokens: seq<string>)
    requires tokens != [] && Split(d, JoinWords(tokens)) == tokens
    ensures AllOrdinary(d, if EndsInBackslash(tokens) then WithoutBackslash(tokens) else tokens)
  {
    var text := JoinWords(tokens);
    SplitIsTight(d, tokens);
    FinishedAreNonEmpty(d, text);
    JoinedEnds(tokens);
    var l := Lex(d, START, text);
    if l.escaped {
      var body := text[..|text| - 1];
      PackedAtMost(d, body);
      PackedStep(d, Lex(d, START, body), text[|text| - 1]);
      assert EndsInBackslash(tokens);
      BackslashLast(tokens);
      assert body == JoinWords(WithoutBackslash(tokens));
      hide JoinWords, Packed, Trim;
      OrdinaryWords(d, WithoutBackslash(tokens));
    } else {
      PackedAtMost(d, text);
      hide JoinWords, Packed, Trim, Lex;
      OrdinaryWords(d, tokens);
    }
  }

  /** Plainly joined tokens split back into themselves exactly when they are joinable. */
  lemma SplitInvertsPlainJoinIff(d: Dialect, tokens: seq<string>)
    ensures Split(d, JoinWords(tokens)) == tokens <==> Joinable(d, tokens)
  {
    if Joinable(d, tokens) {
      JoinableSplits(d, tokens);
    }
    if tokens != [] && Split(d, JoinWords(tokens)) == tokens {
      SplitIsTight(d, tokens);
      FinishedAreNonEmpty(d, JoinWords(tokens));
      TightIsJoinable(d, tokens);
      JoinedEnds(tokens);
      hide Lex, JoinWords, Split, Packed;
    }
  }
}
