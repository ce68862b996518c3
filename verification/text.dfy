/** The few `str` operations the assembler uses: `lower`, `replace` of one character,
    `splitlines` and `"\n".join`. */
module Text {

  function LowerChar(c: char): char {
    if 'A' <= c <= 'Z' then (c as int + 32) as char else c
  }

  /** `s.lower()` on ASCII letters. */
  function Lower(s: string): (r: string)
    ensures |r| == |s|
    ensures forall i :: 0 <= i < |s| ==> r[i] == LowerChar(s[i])
  {
    seq(|s|, i requires 0 <= i < |s| => LowerChar(s[i]))
  }

  /** No lower-case ASCII letter: how Werkzeug stores a rule's methods. */
  predicate UpperCase(s: string) {
    forall i :: 0 <= i < |s| ==> !('a' <= s[i] <= 'z')
  }

  /** Lower-casing loses nothing on upper-case text. */
  lemma LowerInjective(a: string, b: string)
    requires UpperCase(a) && UpperCase(b)
    requires Lower(a) == Lower(b)
    ensures a == b
  {
    assert |a| == |b|;
    forall i | 0 <= i < |a|
      ensures a[i] == b[i]
    {
      assert LowerChar(a[i]) == LowerChar(b[i]);
    }
  }

  /** `s.replace(from, to)` for single characters. */
  function ReplaceChar(s: string, from: char, to: char): (r: string)
    ensures |r| == |s|
    ensures forall i :: 0 <= i < |s| ==> r[i] == if s[i] == from then to else s[i]
  {
    seq(|s|, i requires 0 <= i < |s| => if s[i] == from then to else s[i])
  }

  /** The characters `str.splitlines` treats as line boundaries (`"\r\n"` counts as one). */
  predicate IsLineBreak(c: char) {
    || c == '\n' || c == '\r' || c == '\U{B}' || c == '\U{C}' || c == '\U{1C}' || c == '\U{1D}'
    || c == '\U{1E}' || c == '\U{85}' || c == '\U{2028}' || c == '\U{2029}'
  }

  predicate NoLineBreak(s: string) {
    forall i :: 0 <= i < |s| ==> !IsLineBreak(s[i])
  }

  /** Index of the first line boundary in `s`, or `|s|` when there is none. */
  function LineEnd(s: string): (n: nat)
    ensures n <= |s|
    ensures NoLineBreak(s[..n])
    ensures n < |s| ==> IsLineBreak(s[n])
  {
    if |s| == 0 || IsLineBreak(s[0]) then 0
    else
      var n := 1 + LineEnd(s[1..]);
      assert s[..n] == [s[0]] + s[1..][..n - 1];
      n
  }

  /** `s.splitlines()`: the text between boundaries; a final boundary opens no empty line. */
  function SplitLines(s: string): (lines: seq<string>)
    ensures forall i :: 0 <= i < |lines| ==> NoLineBreak(lines[i])
    ensures |lines| == 0 <==> |s| == 0
    decreases |s|
  {
    if |s| == 0 then []
    else
      var n := LineEnd(s);
      if n == |s| then [s]
      else [s[..n]] + SplitLines(s[n + BreakWidth(s, n)..])
  }

  /** The length of the line boundary at `n`: two for `"\r\n"`, one otherwise. */
  function BreakWidth(s: string, n: nat): (w: nat)
    requires n < |s|
    ensures 1 <= w <= 2 && n + w <= |s|
    ensures s[n] == '\n' ==> w == 1
  {
    if s[n] == '\r' && n + 1 < |s| && s[n + 1] == '\n' then 2 else 1
  }

  /** `sep.join(parts)`. */
  function Join(sep: string, parts: seq<string>): string {
    if |parts| == 0 then ""
    else if |parts| == 1 then parts[0]
    else parts[0] + sep + Join(sep, parts[1..])
  }

  /** Text whose only line boundary is `'\n'` and that does not end in one. */
  predicate PlainLines(s: string) {
    && (forall i :: 0 <= i < |s| ==> IsLineBreak(s[i]) ==> s[i] == '\n')
    && (|s| > 0 ==> s[|s| - 1] != '\n')
  }

  /** For such text, splitting into lines and joining them with `"\n"` gives it back. */
  lemma {:induction false} JoinSplitLines(s: string)
    requires PlainLines(s)
    ensures Join("\n", SplitLines(s)) == s
    decreases |s|
  {
    if |s| > 0 && LineEnd(s) < |s| {
      var n := LineEnd(s);
      var rest := s[n + 1..];
      SplitLinesStep(s);
      JoinSplitLines(rest);
      JoinCons(s[..n], SplitLines(rest));
    }
  }

  /** The first line of plain text, the `'\n'` ending it, and the plain text after it. */
  lemma SplitLinesStep(s: string)
    requires PlainLines(s) && |s| > 0 && LineEnd(s) < |s|
    ensures var n := LineEnd(s);
      && PlainLines(s[n + 1..])
      && SplitLines(s) == [s[..n]] + SplitLines(s[n + 1..])
      && s == s[..n] + "\n" + s[n + 1..]
  {
    var n := LineEnd(s);
    assert s[n] == '\n';
    PlainLinesRest(s, n);
    SplitLinesAt(s, n);
    SplitAround(s, n);
  }

  lemma SplitAround<T>(s: seq<T>, n: nat)
    requires n < |s|
    ensures s == s[..n] + [s[n]] + s[n + 1..]
  {
    assert s[..n] + s[n..] == s;
    assert s[n..] == [s[n]] + s[n + 1..];
  }

  lemma PlainLinesRest(s: string, n: nat)
    requires PlainLines(s) && n < |s|
    ensures PlainLines(s[n + 1..])
  {
    var rest := s[n + 1..];
    forall i | 0 <= i < |rest| && IsLineBreak(rest[i])
      ensures rest[i] == '\n'
    {
      assert rest[i] == s[n + 1 + i];
    }
    if |rest| > 0 {
      assert rest[|rest| - 1] == s[|s| - 1];
    }
  }

  lemma SplitLinesAt(s: string, n: nat)
    requires |s| > 0 && n == LineEnd(s) && n < |s| && s[n] == '\n'
    ensures SplitLines(s) == [s[..n]] + SplitLines(s[n + 1..])
  {
    assert BreakWidth(s, n) == 1;
  }

  lemma JoinCons(first: string, rest: seq<string>)
    requires |rest| > 0
    ensures Join("\n", [first] + rest) == first + "\n" + Join("\n", rest)
  {
    assert ([first] + rest)[1..] == rest;
  }
}
