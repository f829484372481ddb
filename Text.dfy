/**
 * The .NET string operations the dialog relies on: `char.IsWhiteSpace`,
 * `string.IsNullOrWhiteSpace`, `string.Trim`, `string.Split` on one
 * character or on the three line breaks, and `StringSplitOptions.RemoveEmptyEntries`.
 */
module Text {
  import opened Wrappers

  /** The characters `char.IsWhiteSpace` accepts (the Unicode White_Space property). */
  predicate IsWhiteSpace(c: char) {
    ('\t' <= c <= '\r') || c == ' ' || c == '\U{85}' || c == '\U{A0}' || c == '\U{1680}'
    || ('\U{2000}' <= c <= '\U{200A}') || c == '\U{2028}' || c == '\U{2029}'
    || c == '\U{202F}' || c == '\U{205F}' || c == '\U{3000}'
  }

  predicate AllWhiteSpace(s: string) {
    forall i :: 0 <= i < |s| ==> IsWhiteSpace(s[i])
  }

  /** `string.IsNullOrWhiteSpace`: `None` stands for `null`. */
  predicate IsNullOrWhiteSpace(s: Option<string>) {
    s.None? || AllWhiteSpace(s.value)
  }

  /** `s` without its leading white space. */
  function TrimStart(s: string): string
  {
    if s != [] && IsWhiteSpace(s[0]) then TrimStart(s[1..]) else s
  }

  /** `s` without its trailing white space. */
  function TrimEnd(s: string): string
  {
    if s != [] && IsWhiteSpace(s[|s| - 1]) then TrimEnd(s[..|s| - 1]) else s
  }

  /** `string.Trim()`: white space removed from both ends. */
  function Trim(s: string): string
  {
    TrimEnd(TrimStart(s))
  }

  /** TrimStart keeps a suffix and cuts only white space before it. */
  lemma {:induction false} TrimStartSpec(s: string)
    ensures |TrimStart(s)| <= |s| && TrimStart(s) == s[|s| - |TrimStart(s)|..]
    ensures AllWhiteSpace(s[..|s| - |TrimStart(s)|])
    ensures TrimStart(s) != [] ==> !IsWhiteSpace(TrimStart(s)[0])
  {
    if s != [] && IsWhiteSpace(s[0]) {
      TrimStartSpec(s[1..]);
      var r := TrimStart(s);
      assert s[..|s| - |r|] == [s[0]] + s[1..][..|s| - 1 - |r|];
    }
  }

  /** TrimEnd keeps a prefix and cuts only white space after it. */
  lemma {:induction false} TrimEndSpec(s: string)
    ensures |TrimEnd(s)| <= |s| && TrimEnd(s) == s[..|TrimEnd(s)|]
    ensures AllWhiteSpace(s[|TrimEnd(s)|..])
    ensures TrimEnd(s) != [] ==> !IsWhiteSpace(TrimEnd(s)[|TrimEnd(s)| - 1])
  {
    if s != [] && IsWhiteSpace(s[|s| - 1]) {
      TrimEndSpec(s[..|s| - 1]);
      var r := TrimEnd(s);
      assert s[|r|..] == s[..|s| - 1][|r|..] + [s[|s| - 1]];
    }
  }

  /** Trim keeps a contiguous piece of `s` and cuts only white space around it. */
  lemma TrimCutsOnlyWhiteSpace(s: string)
    ensures exists i, j :: 0 <= i <= j <= |s| && Trim(s) == s[i..j]
                           && AllWhiteSpace(s[..i]) && AllWhiteSpace(s[j..])
    ensures Trim(s) != [] ==> !IsWhiteSpace(Trim(s)[0]) && !IsWhiteSpace(Trim(s)[|Trim(s)| - 1])
  {
    var t := TrimStart(s);
    TrimStartSpec(s);
    TrimEndSpec(t);
    var i := |s| - |t|;
    var j := i + |TrimEnd(t)|;
    assert Trim(s) == s[i..j];
    assert s[j..] == t[|TrimEnd(t)|..];
  }

  /** The converse: padding a piece that has no white space at its ends is undone by Trim. */
  lemma {:induction false} TrimUnpads(pre: string, t: string, post: string)
    requires AllWhiteSpace(pre) && AllWhiteSpace(post)
    requires t != [] ==> !IsWhiteSpace(t[0]) && !IsWhiteSpace(t[|t| - 1])
    ensures Trim(pre + t + post) == t
  {
    if t == [] {
      TrimStartUnpads(pre + post, []);
      assert pre + t + post == pre + post + [];
    } else {
      assert pre + t + post == pre + (t + post);
      TrimStartUnpads(pre, t + post);
      TrimEndUnpads(t, post);
    }
  }

  lemma {:induction false} TrimStartUnpads(pre: string, rest: string)
    requires AllWhiteSpace(pre)
    requires rest != [] ==> !IsWhiteSpace(rest[0])
    ensures TrimStart(pre + rest) == rest
  {
    if pre != [] {
      assert (pre + rest)[1..] == pre[1..] + rest;
      TrimStartUnpads(pre[1..], rest);
    } else {
      assert pre + rest == rest;
    }
  }

  lemma {:induction false} TrimEndUnpads(t: string, post: string)
    requires AllWhiteSpace(post)
    requires t != [] ==> !IsWhiteSpace(t[|t| - 1])
    ensures TrimEnd(t + post) == t
  {
    if post != [] {
      assert (t + post)[..|t + post| - 1] == t + post[..|post| - 1];
      TrimEndUnpads(t, post[..|post| - 1]);
    } else {
      assert t + post == t;
    }
  }

  /** `string.IsNullOrWhiteSpace` holds exactly for `null` and for a string that trims to nothing. */
  lemma NullOrWhiteSpaceTrimsEmpty(s: Option<string>)
    ensures IsNullOrWhiteSpace(s) <==> s.None? || Trim(s.value) == []
  {
    if s.Some? {
      TrimEmptyIffWhiteSpace(s.value);
    }
  }

  /** Trim gives the empty string exactly for white-space-only input. */
  lemma TrimEmptyIffWhiteSpace(s: string)
    ensures Trim(s) == [] <==> AllWhiteSpace(s)
  {
    if AllWhiteSpace(s) {
      TrimUnpads(s, [], []);
      assert s + [] + [] == s;
    } else if Trim(s) == [] {
      TrimCutsOnlyWhiteSpace(s);
      var i, j :| 0 <= i <= j <= |s| && Trim(s) == s[i..j] && AllWhiteSpace(s[..i]) && AllWhiteSpace(s[j..]);
      forall k | 0 <= k < |s| ensures IsWhiteSpace(s[k]) {
        if k < i { assert s[..i][k] == s[k]; } else { assert s[j..][k - j] == s[k]; }
      }
    }
  }

  // ---------------------------------------------------------------------
  // Splitting on one character: `s.Split(new[] { sep })`, every piece kept.

  /** Length of the longest prefix of `s` without `sep`. */
  function RunLength(s: string, sep: char): (n: nat)
    ensures n <= |s|
    ensures forall i :: 0 <= i < n ==> s[i] != sep
    ensures n < |s| ==> s[n] == sep
  {
    if s == [] || s[0] == sep then 0 else 1 + RunLength(s[1..], sep)
  }

  /** The pieces of `s` between occurrences of `sep`, empty pieces included. */
  function Split(s: string, sep: char): (parts: seq<string>)
    ensures |parts| >= 1
    ensures forall k :: 0 <= k < |parts| ==> sep !in parts[k]
    decreases |s|
  {
    var n := RunLength(s, sep);
    if n == |s| then [s] else [s[..n]] + Split(s[n + 1..], sep)
  }

  /** `string.Join` with a one-character separator. */
  function Join(parts: seq<string>, sep: char): string
  {
    if parts == [] then ""
    else if |parts| == 1 then parts[0]
    else parts[0] + [sep] + Join(parts[1..], sep)
  }

  /** Joining the pieces back gives the original string. */
  lemma {:induction false} JoinSplit(s: string, sep: char)
    ensures Join(Split(s, sep), sep) == s
    decreases |s|
  {
    var n := RunLength(s, sep);
    if n < |s| {
      var rest := s[n + 1..];
      var parts := Split(s, sep);
      assert parts == [s[..n]] + Split(rest, sep);
      assert parts[1..] == Split(rest, sep);
      JoinSplit(rest, sep);
      assert Join(parts, sep) == s[..n] + [sep] + rest;
      assert s == s[..n] + [sep] + rest;
    }
  }

  /** Splitting pieces that hold no separator gives them back. */
  lemma {:induction false} SplitJoin(parts: seq<string>, sep: char)
    requires |parts| >= 1
    requires forall k :: 0 <= k < |parts| ==> sep !in parts[k]
    ensures Split(Join(parts, sep), sep) == parts
  {
    var p := parts[0];
    assert sep !in p;
    if |parts| == 1 {
      assert Join(parts, sep) == p;
      NoSepRun(p, sep);
    } else {
      var tail := parts[1..];
      assert forall k :: 0 <= k < |tail| ==> sep !in tail[k] by {
        forall k | 0 <= k < |tail| ensures sep !in tail[k] { assert tail[k] == parts[k + 1]; }
      }
      var rest := Join(tail, sep);
      var s := Join(parts, sep);
      assert s == p + ([sep] + rest);
      PrefixRun(p, [sep] + rest, sep);
      assert s[..|p|] == p && s[|p| + 1..] == rest;
      SplitJoin(tail, sep);
      assert Split(s, sep) == [p] + Split(rest, sep);
      assert parts == [p] + tail;
    }
  }

  lemma {:induction false} NoSepRun(p: string, sep: char)
    requires sep !in p
    ensures RunLength(p, sep) == |p|
  {
    if p != [] {
      assert p[0] in p;
      NoSepRun(p[1..], sep);
    }
  }

  lemma {:induction false} PrefixRun(p: string, rest: string, sep: char)
    requires sep !in p
    requires rest != [] && rest[0] == sep
    ensures RunLength(p + rest, sep) == |p|
  {
    if p == [] {
      assert p + rest == rest;
    } else {
      assert p[0] in p;
      assert (p + rest)[1..] == p[1..] + rest;
      PrefixRun(p[1..], rest, sep);
    }
  }

  /** The pieces of a white-space-only string are white space only. */
  lemma {:induction false} SplitWhiteSpace(s: string, sep: char)
    requires AllWhiteSpace(s)
    ensures forall k :: 0 <= k < |Split(s, sep)| ==> AllWhiteSpace(Split(s, sep)[k])
    decreases |s|
  {
    var n := RunLength(s, sep);
    if n < |s| {
      SplitWhiteSpace(s[n + 1..], sep);
      assert Split(s, sep) == [s[..n]] + Split(s[n + 1..], sep);
    }
  }

  // ---------------------------------------------------------------------
  // Splitting on line breaks: `s.Split(new[] { "\r\n", "\r", "\n" }, ...)`.

  predicate IsLineBreak(c: char) {
    c == '\r' || c == '\n'
  }

  predicate HasNoLineBreak(s: string) {
    forall i :: 0 <= i < |s| ==> !IsLineBreak(s[i])
  }

  /** Length of the longest prefix of `s` without a line break. */
  function LineLength(s: string): (n: nat)
    ensures n <= |s|
    ensures HasNoLineBreak(s[..n])
    ensures n < |s| ==> IsLineBreak(s[n])
  {
    if s == [] || IsLineBreak(s[0]) then 0 else 1 + LineLength(s[1..])
  }

  /**
   * The lines of `s`, empty ones included. The separators are tried in the
   * order "\r\n", "\r", "\n", so a "\r" followed by "\n" is one break.
   */
  function Lines(s: string): (lines: seq<string>)
    ensures |lines| >= 1
    ensures forall k :: 0 <= k < |lines| ==> HasNoLineBreak(lines[k])
    decreases |s|
  {
    var n := LineLength(s);
    if n == |s| then [s]
    else if s[n] == '\r' && n + 1 < |s| && s[n + 1] == '\n' then [s[..n]] + Lines(s[n + 2..])
    else [s[..n]] + Lines(s[n + 1..])
  }

  predicate IsNewLine(nl: string) {
    nl == "\r\n" || nl == "\r" || nl == "\n"
  }

  /** Lines written one after the other, each followed by `nl` except the last. */
  function JoinLines(lines: seq<string>, nl: string): string
  {
    if lines == [] then ""
    else if |lines| == 1 then lines[0]
    else lines[0] + nl + JoinLines(lines[1..], nl)
  }

  /** Lines written with any of the three conventions are read back as written. */
  lemma {:induction false} LinesJoinLines(lines: seq<string>, nl: string)
    requires |lines| >= 1 && IsNewLine(nl)
    requires forall k :: 0 <= k < |lines| ==> HasNoLineBreak(lines[k])
    ensures Lines(JoinLines(lines, nl)) == lines
  {
    var p := lines[0];
    if |lines| == 1 {
      NoBreakLine(p, []);
      assert p + [] == p;
    } else {
      var tail := lines[1..];
      assert forall k :: 0 <= k < |tail| ==> HasNoLineBreak(tail[k]) by {
        forall k | 0 <= k < |tail| ensures HasNoLineBreak(tail[k]) { assert tail[k] == lines[k + 1]; }
      }
      var rest := JoinLines(tail, nl);
      if nl == "\r" && |rest| > 0 {
        LinesJoinLinesHead(tail, nl);
      }
      LinesStep(p, nl, rest);
      LinesJoinLines(tail, nl);
      assert lines == [p] + tail;
    }
  }

  /** One line and its break, then the rest: the line comes off first. */
  lemma LinesStep(p: string, nl: string, rest: string)
    requires HasNoLineBreak(p) && IsNewLine(nl)
    requires nl == "\r" && rest != [] ==> rest[0] != '\n'
    ensures Lines(p + nl + rest) == [p] + Lines(rest)
  {
    var s := p + nl + rest;
    assert s == p + (nl + rest);
    NoBreakLine(p, nl + rest);
    assert s[..|p|] == p;
    if nl == "\r\n" {
      assert s[|p| + 2..] == rest;
    } else {
      assert s[|p| + 1..] == rest;
    }
  }

  /** A joined text starts with its first line, or with a separator when that line is empty. */
  lemma LinesJoinLinesHead(lines: seq<string>, nl: string)
    requires |lines| >= 1 && IsNewLine(nl) && JoinLines(lines, nl) != []
    requires forall k :: 0 <= k < |lines| ==> HasNoLineBreak(lines[k])
    ensures JoinLines(lines, nl)[0] != '\n' || (nl == "\n" && lines[0] == [])
  {
    if |lines| > 1 {
      assert JoinLines(lines, nl) == lines[0] + nl + JoinLines(lines[1..], nl);
      if lines[0] == [] {
        assert JoinLines(lines, nl)[0] == nl[0];
      } else {
        assert JoinLines(lines, nl)[0] == lines[0][0];
      }
    }
  }

  lemma {:induction false} NoBreakLine(p: string, rest: string)
    requires HasNoLineBreak(p)
    requires rest != [] ==> IsLineBreak(rest[0])
    ensures LineLength(p + rest) == |p|
  {
    if p == [] {
      assert p + rest == rest;
    } else {
      assert (p + rest)[1..] == p[1..] + rest;
      NoBreakLine(p[1..], rest);
    }
  }

  // ---------------------------------------------------------------------
  // `StringSplitOptions.RemoveEmptyEntries`.

  /** The non-empty pieces, in their order. */
  function RemoveEmpty(parts: seq<string>): (r: seq<string>)
    ensures |r| <= |parts|
    ensures forall k :: 0 <= k < |r| ==> r[k] != []
  {
    if parts == [] then []
    else if parts[0] == [] then RemoveEmpty(parts[1..])
    else [parts[0]] + RemoveEmpty(parts[1..])
  }

  /** Exactly the empty pieces are dropped: every other piece is kept as often as it occurs. */
  lemma {:induction false} RemoveEmptyDropsOnlyEmpty(parts: seq<string>)
    ensures multiset(RemoveEmpty(parts)) == multiset(parts)[[] := 0]
  {
    if parts != [] {
      RemoveEmptyDropsOnlyEmpty(parts[1..]);
      assert parts == [parts[0]] + parts[1..];
      assert multiset(parts) == multiset{parts[0]} + multiset(parts[1..]);
    }
  }
}
