/** The string operations of the standard library the program relies on. */
module Text {

  /** Unicode white space. */
  predicate IsSpace(c: char) {
    || c == '\t' || c == '\n' || c == '\U{0b}' || c == '\U{0c}' || c == '\r' || c == ' '
    || c == '\U{85}' || c == '\U{a0}' || c == '\U{1680}' || '\U{2000}' <= c <= '\U{200a}'
    || c == '\U{2028}' || c == '\U{2029}' || c == '\U{202f}' || c == '\U{205f}' || c == '\U{3000}'
  }

  function TrimLeft(s: string): string {
    if s != "" && IsSpace(s[0]) then TrimLeft(s[1..]) else s
  }

  function TrimRight(s: string): string {
    if s != "" && IsSpace(s[|s| - 1]) then TrimRight(s[..|s| - 1]) else s
  }

  function Trim(s: string): string {
    TrimRight(TrimLeft(s))
  }

  /** Case folding as far as comparisons with ASCII words can see it: besides the ASCII letters, the
      Kelvin sign folds to k and the long s to s. */
  function FoldChar(c: char): char {
    if 'A' <= c <= 'Z' then c - 'A' + 'a'
    else if c == '\U{212a}' then 'k'
    else if c == '\U{17f}' then 's'
    else c
  }

  predicate EqualFold(a: string, b: string) {
    |a| == |b| && forall i :: 0 <= i < |a| ==> FoldChar(a[i]) == FoldChar(b[i])
  }

  /** The index of the first `c`, or the length. */
  function IndexOf<T(==)>(s: seq<T>, c: T): (i: nat)
    ensures i <= |s|
    ensures c !in s[..i]
    ensures i < |s| ==> s[i] == c
  {
    if s == [] || s[0] == c then 0 else 1 + IndexOf(s[1..], c)
  }

  lemma IndexOfIs<T>(s: seq<T>, c: T, i: nat)
    requires i <= |s| && c !in s[..i] && (i < |s| ==> s[i] == c)
    ensures IndexOf(s, c) == i
  {
    var j := IndexOf(s, c);
    assert forall k :: 0 <= k < i ==> s[k] == s[..i][k] != c;
    assert forall k :: 0 <= k < j ==> s[k] == s[..j][k] != c;
  }

  lemma {:induction false} TrimRightOfCons(c: char, s: string)
    ensures TrimRight([c] + s) == if TrimRight(s) == "" && IsSpace(c) then "" else [c] + TrimRight(s)
  {
    var t := [c] + s;
    if s == "" {
      assert t == [c] && t[..0] == "";
    } else {
      assert t[..|t| - 1] == [c] + s[..|s| - 1];
      if IsSpace(s[|s| - 1]) {
        TrimRightOfCons(c, s[..|s| - 1]);
      }
    }
  }

  /** The two ends can be trimmed in either order. */
  lemma {:induction false} TrimCommutes(s: string)
    ensures TrimRight(TrimLeft(s)) == TrimLeft(TrimRight(s))
  {
    if s != "" {
      assert s == [s[0]] + s[1..];
      TrimRightOfCons(s[0], s[1..]);
      if IsSpace(s[0]) {
        TrimCommutes(s[1..]);
        assert ([s[0]] + TrimRight(s[1..]))[1..] == TrimRight(s[1..]);
      }
    }
  }

  lemma {:induction false} TrimRightIdempotent(s: string)
    ensures TrimRight(TrimRight(s)) == TrimRight(s)
  {
    if s != "" && IsSpace(s[|s| - 1]) {
      TrimRightIdempotent(s[..|s| - 1]);
    }
  }

  /** Space around a text does not change what trimming leaves. */
  lemma TrimPadded(c: char, s: string, d: char)
    requires IsSpace(c) && IsSpace(d)
    ensures Trim(TrimRight([c] + s + [d])) == Trim(s)
  {
    var b := [c] + s + [d];
    TrimCommutes(b);
    assert b[1..] == s + [d];
    TrimRightIdempotent(TrimLeft(b));
    TrimCommutes(s + [d]);
    assert (s + [d])[..|s|] == s;
    TrimCommutes(s);
  }

  /** Trailing space of a part can be trimmed before or after a solid head is put in front. */
  lemma {:induction false} TrimRightOfConcat(a: string, b: string)
    requires a != "" && !IsSpace(a[|a| - 1])
    ensures TrimRight(a + b) == a + TrimRight(b)
  {
    if b == "" {
      assert a + b == a;
    } else if IsSpace(b[|b| - 1]) {
      assert (a + b)[..|a + b| - 1] == a + b[..|b| - 1];
      TrimRightOfConcat(a, b[..|b| - 1]);
    }
  }
}
