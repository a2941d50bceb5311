/**
 * The string primitives the inventory scripts rely on: String.prototype.trim,
 * indexOf/replace with a string pattern, split on one character, and text
 * built from newline-terminated lines.
 */
module Strings {
  import opened Js

  /** ECMAScript WhiteSpace and LineTerminator code points, which trim() removes. */
  predicate IsSpace(c: char) {
    || c == '\U{9}' || c == '\U{B}' || c == '\U{C}' || c == ' ' || c == '\U{A0}' || c == '\U{FEFF}'
    || c == '\U{1680}' || ('\U{2000}' <= c <= '\U{200A}') || c == '\U{202F}' || c == '\U{205F}' || c == '\U{3000}'
    || c == '\n' || c == '\r' || c == '\U{2028}' || c == '\U{2029}'
  }

  predicate AllSpace(s: string) {
    forall i :: 0 <= i < |s| ==> IsSpace(s[i])
  }

  /** The number of white-space characters that open `s`. */
  function LeadingSpaces(s: string): (n: nat)
    ensures n <= |s|
  {
    if |s| > 0 && IsSpace(s[0]) then 1 + LeadingSpaces(s[1..]) else 0
  }

  lemma {:induction false} LeadingSpacesSpec(s: string)
    ensures var n := LeadingSpaces(s); AllSpace(s[..n]) && (n < |s| ==> !IsSpace(s[n]))
  {
    if |s| > 0 && IsSpace(s[0]) {
      LeadingSpacesSpec(s[1..]);
      var n := LeadingSpaces(s);
      assert s[..n] == [s[0]] + s[1..][..n - 1];
    }
  }

  /** The number of white-space characters that close `s`. */
  function TrailingSpaces(s: string): (n: nat)
    ensures n <= |s|
  {
    if |s| > 0 && IsSpace(s[|s| - 1]) then 1 + TrailingSpaces(s[..|s| - 1]) else 0
  }

  lemma {:induction false} TrailingSpacesSpec(s: string)
    ensures var n := TrailingSpaces(s); AllSpace(s[|s| - n..]) && (n < |s| ==> !IsSpace(s[|s| - 1 - n]))
  {
    if |s| > 0 && IsSpace(s[|s| - 1]) {
      var t := s[..|s| - 1];
      TrailingSpacesSpec(t);
      var m := TrailingSpaces(t);
      assert TrailingSpaces(s) == m + 1;
      var tail := s[|s| - (m + 1)..];
      assert forall i :: 0 <= i < m ==> tail[i] == t[|t| - m..][i];
      assert tail[m] == s[|s| - 1];
      assert AllSpace(tail);
      if m + 1 < |s| {
        assert s[|s| - 1 - (m + 1)] == t[|t| - 1 - m];
      }
    }
  }

  /** A text that does not start with white space keeps some of it after the trailing run is cut. */
  lemma SpacesDoNotOverlap(s: string)
    requires LeadingSpaces(s) < |s|
    ensures LeadingSpaces(s) < |s| - TrailingSpaces(s)
  {
    LeadingSpacesSpec(s);
    TrailingSpacesSpec(s);
    var b := TrailingSpaces(s);
    forall j | |s| - b <= j < |s| ensures IsSpace(s[j]) {
      assert s[j] == s[|s| - b..][j - (|s| - b)];
    }
  }

  /** s.trim(): `s` without its leading and trailing white space. */
  function Trim(s: string): string {
    var a := LeadingSpaces(s);
    if a == |s| then ""
    else
      SpacesDoNotOverlap(s);
      s[a..|s| - TrailingSpaces(s)]
  }

  /** The trimmed text is empty exactly when `s` is all white space. */
  lemma TrimEmpty(s: string)
    ensures Trim(s) == "" <==> AllSpace(s)
  {
    LeadingSpacesSpec(s);
    var a := LeadingSpaces(s);
    if a == |s| {
      assert s[..a] == s;
    } else {
      SpacesDoNotOverlap(s);
    }
  }

  /** A non-empty trimmed text neither starts nor ends with white space. */
  lemma TrimEnds(s: string)
    requires Trim(s) != ""
    ensures !IsSpace(Trim(s)[0]) && !IsSpace(Trim(s)[|Trim(s)| - 1])
  {
    LeadingSpacesSpec(s);
    TrailingSpacesSpec(s);
    SpacesDoNotOverlap(s);
  }

  /** `s` is its trimmed text with only white space before and after. */
  lemma TrimSurrounded(s: string)
    requires Trim(s) != ""
    ensures var r, a := Trim(s), LeadingSpaces(s);
      a + |r| <= |s| && s == s[..a] + r + s[a + |r|..] && AllSpace(s[..a]) && AllSpace(s[a + |r|..])
  {
    LeadingSpacesSpec(s);
    TrailingSpacesSpec(s);
    SpacesDoNotOverlap(s);
    var a, b := LeadingSpaces(s), TrailingSpaces(s);
    ThreeParts(s, a, |s| - b);
  }

  lemma ThreeParts<T>(s: seq<T>, i: nat, j: nat)
    requires i <= j <= |s|
    ensures s == s[..i] + s[i..j] + s[j..]
  {
  }

  lemma {:induction false} TrimIdempotent(s: string)
    ensures Trim(Trim(s)) == Trim(s)
  {
    var r := Trim(s);
    if r != "" {
      TrimEnds(s);
      assert LeadingSpaces(r) == 0;
      assert TrailingSpaces(r) == 0;
      assert r[0..|r|] == r;
    }
  }

  predicate OccursAt(s: string, pat: string, j: nat) {
    j + |pat| <= |s| && s[j..j + |pat|] == pat
  }

  /** The first index at or after `from` where `pat` occurs in `s`. */
  function IndexFrom(s: string, pat: string, from: nat): (k: Option<nat>)
    requires from <= |s|
    ensures k.Some? ==> from <= k.value && OccursAt(s, pat, k.value)
    ensures k.Some? ==> forall j :: from <= j < k.value ==> !OccursAt(s, pat, j)
    ensures k.None? ==> forall j :: from <= j <= |s| ==> !OccursAt(s, pat, j)
    decreases |s| - from
  {
    if OccursAt(s, pat, from) then Some(from)
    else if from == |s| then None
    else IndexFrom(s, pat, from + 1)
  }

  /** s.indexOf(pat), None for -1. */
  function IndexOf(s: string, pat: string): Option<nat> {
    IndexFrom(s, pat, 0)
  }

  /** s.replace(pat, rep) with a string pattern: only the first occurrence is replaced. */
  function ReplaceFirst(s: string, pat: string, rep: string): (r: string)
    ensures IndexOf(s, pat).None? ==> r == s
    ensures IndexOf(s, pat).Some? ==> var k := IndexOf(s, pat).value;
      s == s[..k] + pat + s[k + |pat|..] && r == s[..k] + rep + s[k + |pat|..]
  {
    match IndexOf(s, pat)
    case None => s
    case Some(k) =>
      assert s == s[..k] + s[k..k + |pat|] + s[k + |pat|..];
      s[..k] + rep + s[k + |pat|..]
  }

  /** s.split(c)[0]: the text before the first `c`, or all of `s`. */
  function BeforeChar(s: string, c: char): (r: string)
    ensures |r| <= |s| && r == s[..|r|] && c !in r
    ensures |r| < |s| ==> s[|r|] == c
  {
    match FindFirst(s, c)
    case None => s
    case Some(i) =>
      assert forall j :: 0 <= j < i ==> s[..i][j] == s[j];
      s[..i]
  }

  /** parts.join(c) */
  function Join(parts: seq<string>, c: char): string
    requires |parts| >= 1
  {
    if |parts| == 1 then parts[0] else parts[0] + [c] + Join(parts[1..], c)
  }

  /** s.split(c): the pieces between the occurrences of `c`; joining them back gives `s`. */
  function Split(s: string, c: char): (parts: seq<string>)
    ensures |parts| >= 1 && Join(parts, c) == s
    ensures forall i :: 0 <= i < |parts| ==> c !in parts[i]
    decreases |s|
  {
    match FindFirst(s, c)
    case None => [s]
    case Some(i) =>
      var rest := Split(s[i + 1..], c);
      var parts := [s[..i]] + rest;
      assert parts[1..] == rest;
      assert s == s[..i] + [c] + s[i + 1..];
      assert forall j :: 0 <= j < i ==> s[..i][j] == s[j];
      parts
  }

  /** Splitting text joined from pieces that do not contain the separator gives back the pieces. */
  lemma {:induction false} SplitJoin(parts: seq<string>, c: char)
    requires |parts| >= 1
    requires forall i :: 0 <= i < |parts| ==> c !in parts[i]
    ensures Split(Join(parts, c), c) == parts
  {
    if |parts| == 1 {
      assert FindFirst(parts[0], c).None?;
    } else {
      var p := parts[0];
      var rest := Join(parts[1..], c);
      var s := p + [c] + rest;
      assert forall j :: 0 <= j < |p| ==> s[j] == p[j];
      FindFirstIs(s, c, |p|);
      assert s[..|p|] == p;
      assert s[|p| + 1..] == rest;
      SplitJoin(parts[1..], c);
    }
  }

  /** Splitting a separator-free first piece off the front. */
  lemma SplitCons(p: string, c: char, rest: string)
    requires c !in p
    ensures Split(p + [c] + rest, c) == [p] + Split(rest, c)
  {
    var s := p + [c] + rest;
    assert forall j :: 0 <= j < |p| ==> s[j] == p[j];
    FindFirstIs(s, c, |p|);
    assert s[..|p|] == p;
    assert s[|p| + 1..] == rest;
  }

  /** Text splits into more than one piece exactly when it holds the separator. */
  lemma SplitSeveral(s: string, c: char)
    ensures c in s <==> |Split(s, c)| > 1
  {
    var parts := Split(s, c);
    if |parts| == 1 {
      assert Join(parts, c) == parts[0];
    } else {
      assert Join(parts, c) == parts[0] + [c] + Join(parts[1..], c);
      assert Join(parts, c)[|parts[0]|] == c;
    }
  }

  /** Joining parts whose first `n` hold no `c`, then splitting, gives back those `n` and the pieces of the rest. */
  lemma {:induction false} SplitJoinFront(parts: seq<string>, n: nat, c: char)
    requires n < |parts|
    requires forall i :: 0 <= i < n ==> c !in parts[i]
    ensures Split(Join(parts, c), c) == parts[..n] + Split(Join(parts[n..], c), c)
  {
    if n == 0 {
      assert parts[n..] == parts;
    } else {
      var rest := parts[1..];
      PrefixOfTail(parts, n);
      calc {
        Split(Join(parts, c), c);
        Split(parts[0] + [c] + Join(rest, c), c);
        { SplitCons(parts[0], c, Join(rest, c)); }
        [parts[0]] + Split(Join(rest, c), c);
        { SplitJoinFront(rest, n - 1, c); }
        [parts[0]] + (rest[..n - 1] + Split(Join(rest[n - 1..], c), c));
        { AppendAssoc([parts[0]], rest[..n - 1], Split(Join(rest[n - 1..], c), c)); }
        ([parts[0]] + rest[..n - 1]) + Split(Join(rest[n - 1..], c), c);
        parts[..n] + Split(Join(parts[n..], c), c);
      }
    }
  }

  /** Text in which every line is followed by a newline. */
  function Terminated(lines: seq<string>): string {
    if |lines| == 0 then "" else Terminated(lines[..|lines| - 1]) + lines[|lines| - 1] + "\n"
  }

  /** Appending a line appends its text and a newline. */
  lemma TerminatedSnoc(lines: seq<string>, line: string)
    ensures Terminated(lines + [line]) == Terminated(lines) + line + "\n"
  {
    assert (lines + [line])[..|lines|] == lines;
  }

  /** Six lines, each followed by a newline. */
  lemma TerminatedSix(a: string, b: string, c: string, d: string, e: string, f: string)
    ensures Terminated([a, b, c, d, e, f]) == a + "\n" + b + "\n" + c + "\n" + d + "\n" + e + "\n" + f + "\n"
  {
    TerminatedSnoc([], a);
    TerminatedSnoc([a], b);
    TerminatedSnoc([a, b], c);
    TerminatedSnoc([a, b, c], d);
    TerminatedSnoc([a, b, c, d], e);
    TerminatedSnoc([a, b, c, d, e], f);
    assert [a, b, c, d, e, f] == [a, b, c, d, e] + [f];
    assert [a, b, c, d, e] == [a, b, c, d] + [e];
    assert [a, b, c, d] == [a, b, c] + [d];
    assert [a, b, c] == [a, b] + [c];
    assert [a, b] == [a] + [b];
    assert [a] == [] + [a];
  }

  lemma {:induction false} JoinSnoc(parts: seq<string>, q: string, c: char)
    requires |parts| >= 1
    ensures Join(parts + [q], c) == Join(parts, c) + [c] + q
  {
    if |parts| > 1 {
      assert (parts + [q])[1..] == parts[1..] + [q];
      JoinSnoc(parts[1..], q, c);
    }
  }

  /** Newline-terminated lines followed by a last piece are the lines and that piece joined by newlines. */
  lemma {:induction false} TerminatedThenJoin(lines: seq<string>, last: string)
    ensures Terminated(lines) + last == Join(lines + [last], '\n')
  {
    if |lines| > 0 {
      var init, l := lines[..|lines| - 1], lines[|lines| - 1];
      assert lines + [last] == init + [l] + [last];
      TerminatedThenJoin(init, l);
      if |init| == 0 {
        assert init + [l] == [l];
      } else {
        JoinSnoc(init, l, '\n');
      }
      JoinSnoc(init + [l], last, '\n');
    }
  }

  /** No line holds a line break. */
  predicate OneLineEach(lines: seq<string>) {
    forall i :: 0 <= i < |lines| ==> '\n' !in lines[i]
  }

  lemma OneLineEachAppend(a: seq<string>, b: seq<string>)
    requires OneLineEach(a) && OneLineEach(b)
    ensures OneLineEach(a + b)
  {
    forall i | 0 <= i < |a + b|
      ensures '\n' !in (a + b)[i]
    {
      if i < |a| {
        assert (a + b)[i] == a[i];
      } else {
        assert (a + b)[i] == b[i - |a|];
      }
    }
  }

  /** The text of newline-terminated lines is the concatenation of the texts of their parts. */
  lemma {:induction false} TerminatedAppend(a: seq<string>, b: seq<string>)
    ensures Terminated(a + b) == Terminated(a) + Terminated(b)
  {
    if |b| > 0 {
      var init, last := b[..|b| - 1], b[|b| - 1];
      assert a + b == (a + init) + [last];
      assert b == init + [last];
      TerminatedAppend(a, init);
      TerminatedSnoc(a + init, last);
      TerminatedSnoc(init, last);
    } else {
      assert a + b == a;
    }
  }

  /**
   * Splitting newline-terminated lines followed by `last` at the newlines gives
   * back each line, then `last`.
   */
  lemma LinesOfText(lines: seq<string>, last: string)
    requires OneLineEach(lines)
    requires '\n' !in last
    ensures Split(Terminated(lines) + last, '\n') == lines + [last]
  {
    TerminatedThenJoin(lines, last);
    SplitJoin(lines + [last], '\n');
  }

  /**
   * Splitting newline-terminated text at its newlines gives back each line, plus
   * the empty piece after the final newline.
   */
  lemma LinesOfTerminated(lines: seq<string>)
    requires OneLineEach(lines)
    ensures Split(Terminated(lines), '\n') == lines + [""]
  {
    LinesOfText(lines, "");
    assert Terminated(lines) + "" == Terminated(lines);
  }

  /** A text in double quotes. */
  function Quote(s: string): string {
    "\"" + s + "\""
  }

  /** Quoting adds no character other than the double quote. */
  lemma QuoteHolds(s: string, c: char)
    requires c != '"'
    ensures c in Quote(s) <==> c in s
  {
    var q := Quote(s);
    if c in q {
      var i :| 0 <= i < |q| && q[i] == c;
      assert q[i] == s[i - 1];
    }
    if c in s {
      var i :| 0 <= i < |s| && s[i] == c;
      assert q[i + 1] == c;
    }
  }
}
