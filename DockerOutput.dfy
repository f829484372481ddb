/**
 * What the dialog makes of the docker CLI's answers: the container listing
 * (`GetContainerNames`) and the `pidof` answer (the parsing half of
 * `UpdateDotNetPIDs`). The CLI itself is not modelled: its output is a parameter.
 */
module DockerOutput {
  import opened Wrappers
  import opened Text
  import opened Ordering
  import opened Int32Text

  /** The command that lists the names of the running containers. */
  const ListContainersCommand: string := "ps --format \"{{.Names}}\""

  /** The command that asks a container for the process ids of a process name. */
  function PidofCommand(container: string, processName: string): string
  {
    "exec -it " + container + " pidof " + processName
  }

  /** The listing command is the three words `ps`, `--format` and the Go template of the names. */
  lemma ListContainersCommandWords()
    ensures Split(ListContainersCommand, ' ') == ["ps", "--format", "\"{{.Names}}\""]
  {
    var template := "\"{{.Names}}\"";
    var words := ["ps", "--format", template];
    assert Join(words[2..], ' ') == template;
    assert Join(words[1..], ' ') == "--format" + [' '] + template;
    assert Join(words, ' ') == "ps" + [' '] + ("--format" + [' '] + template);
    assert ListContainersCommand == "ps" + [' '] + ("--format" + [' '] + template);
    SplitJoin(words, ' ');
  }

  /**
   * For a container and a process name without spaces, the command is the
   * five words `exec`, `-it`, the container, `pidof` and the process name:
   * `pidof` runs inside the chosen container on the chosen name.
   */
  lemma PidofCommandWords(container: string, processName: string)
    requires ' ' !in container && ' ' !in processName
    ensures Split(PidofCommand(container, processName), ' ') == ["exec", "-it", container, "pidof", processName]
  {
    var words := ["exec", "-it", container, "pidof", processName];
    assert Join(words[4..], ' ') == processName;
    assert Join(words[3..], ' ') == "pidof " + processName;
    assert Join(words[2..], ' ') == container + " pidof " + processName;
    assert Join(words[1..], ' ') == "-it " + container + " pidof " + processName;
    assert Join(words, ' ') == PidofCommand(container, processName);
    SplitJoin(words, ' ');
  }

  // ---------------------------------------------------------------------
  // Container listing.

  /** `GetContainerNames`: the non-empty lines of the listing, sorted in ordinal order. */
  function ContainerNames(output: string): (names: seq<string>)
    ensures multiset(names) == multiset(Lines(output))[[] := 0]
  {
    var lines := RemoveEmpty(Lines(output));
    SortCorrect(lines);
    RemoveEmptyDropsOnlyEmpty(Lines(output));
    Sort(lines)
  }

  /**
   * The listing is sorted, is a permutation of the non-empty lines (so
   * duplicates and white-space-only names are kept) and holds neither an
   * empty name nor a line break.
   */
  lemma ContainerNamesCorrect(output: string)
    ensures Sorted(ContainerNames(output))
    ensures multiset(ContainerNames(output)) == multiset(Lines(output))[[] := 0]
    ensures forall k :: 0 <= k < |ContainerNames(output)| ==>
              ContainerNames(output)[k] != [] && HasNoLineBreak(ContainerNames(output)[k])
  {
    var lines := RemoveEmpty(Lines(output));
    var names := ContainerNames(output);
    SortCorrect(lines);
    RemoveEmptyDropsOnlyEmpty(Lines(output));
    forall k | 0 <= k < |names|
      ensures names[k] != [] && HasNoLineBreak(names[k])
    {
      assert names[k] in multiset(lines);
      var j :| 0 <= j < |lines| && lines[j] == names[k];
      assert multiset(Lines(output))[lines[j]] > 0;
      assert lines[j] in Lines(output);
    }
  }

  lemma {:induction false} RemoveEmptyKeepsNonEmpty(parts: seq<string>)
    requires forall k :: 0 <= k < |parts| ==> parts[k] != []
    ensures RemoveEmpty(parts) == parts
  {
    if parts != [] {
      RemoveEmptyKeepsNonEmpty(parts[1..]);
      assert parts == [parts[0]] + parts[1..];
    }
  }

  lemma {:induction false} RemoveEmptyAppend(a: seq<string>, b: seq<string>)
    ensures RemoveEmpty(a + b) == RemoveEmpty(a) + RemoveEmpty(b)
  {
    if a == [] {
      assert a + b == b;
    } else {
      assert (a + b)[0] == a[0];
      assert (a + b)[1..] == a[1..] + b;
      RemoveEmptyAppend(a[1..], b);
      if a[0] != [] {
        assert RemoveEmpty(a + b) == [a[0]] + RemoveEmpty(a[1..] + b);
        assert RemoveEmpty(a) == [a[0]] + RemoveEmpty(a[1..]);
      }
    }
  }

  /**
   * A listing that ends every name with the same line break, in any of the
   * three conventions, yields exactly those names, sorted.
   */
  lemma ContainerNamesOfListing(names: seq<string>, nl: string)
    requires IsNewLine(nl)
    requires forall k :: 0 <= k < |names| ==> names[k] != [] && HasNoLineBreak(names[k])
    ensures ContainerNames(JoinLines(names + [""], nl)) == Sort(names)
  {
    var lines := names + [""];
    forall k | 0 <= k < |lines| ensures HasNoLineBreak(lines[k]) {
      if k < |names| { assert lines[k] == names[k]; }
    }
    LinesJoinLines(lines, nl);
    assert Lines(JoinLines(lines, nl)) == lines;
    RemoveEmptyAppend(names, [""]);
    assert RemoveEmpty([""]) == [];
    RemoveEmptyKeepsNonEmpty(names);
    assert RemoveEmpty(lines) == names;
  }

  // ---------------------------------------------------------------------
  // The `pidof` answer.

  /** The pieces of the answer between single spaces, empty pieces dropped. */
  function PidTokens(output: string): seq<string>
  {
    RemoveEmpty(Split(output, ' '))
  }

  /** One token of the answer: trimmed, then read as a 32-bit integer. */
  function ParseToken(t: string): Option<int>
  {
    ParseInt32(Trim(t))
  }

  /** Every token read with `parse`; `None` as soon as one fails. */
  function ParseAll(tokens: seq<string>, parse: string -> Option<int>): Option<seq<int>>
  {
    if tokens == [] then Some([])
    else
      match parse(tokens[0])
      case None => None
      case Some(v) =>
        match ParseAll(tokens[1..], parse)
        case None => None
        case Some(vs) => Some([v] + vs)
  }

  /** ParseAll succeeds exactly when every token parses, and then keeps every value in order. */
  lemma {:induction false} ParseAllSpec(tokens: seq<string>, parse: string -> Option<int>)
    ensures ParseAll(tokens, parse).Some? <==> forall k :: 0 <= k < |tokens| ==> parse(tokens[k]).Some?
    ensures ParseAll(tokens, parse).Some? ==> |ParseAll(tokens, parse).value| == |tokens|
    ensures ParseAll(tokens, parse).Some? ==>
              forall k :: 0 <= k < |tokens| ==> Some(ParseAll(tokens, parse).value[k]) == parse(tokens[k])
  {
    if tokens != [] {
      var tail := tokens[1..];
      ParseAllSpec(tail, parse);
      assert forall k :: 1 <= k < |tokens| ==> tokens[k] == tail[k - 1];
      if parse(tokens[0]).Some? && ParseAll(tail, parse).Some? {
        var v := parse(tokens[0]).value;
        var r := ParseAll(tokens, parse).value;
        assert r == [v] + ParseAll(tail, parse).value;
        forall k | 0 <= k < |tokens| ensures Some(r[k]) == parse(tokens[k]) {
          if k > 0 { assert r[k] == ParseAll(tail, parse).value[k - 1]; }
        }
      } else if parse(tokens[0]).Some? {
        var k :| 0 <= k < |tail| && parse(tail[k]).None?;
        assert tokens[k + 1] == tail[k];
      }
    }
  }

  /** Tokens that all parse are read as their values, in order. */
  lemma ParseAllOf(tokens: seq<string>, pids: seq<int>, parse: string -> Option<int>)
    requires |tokens| == |pids|
    requires forall k :: 0 <= k < |tokens| ==> parse(tokens[k]) == Some(pids[k])
    ensures ParseAll(tokens, parse) == Some(pids)
  {
    ParseAllSpec(tokens, parse);
    assert forall k :: 0 <= k < |tokens| ==> parse(tokens[k]).Some?;
    var r := ParseAll(tokens, parse).value;
    assert |r| == |pids|;
    forall k | 0 <= k < |tokens| ensures r[k] == pids[k] {
      assert Some(r[k]) == parse(tokens[k]);
    }
    assert r == pids;
  }

  /**
   * The process ids of the answer, or `None` for the "cannot find" case: no
   * token at all, or any token that is not an integer.
   */
  function ParsePids(output: string): (r: Option<seq<int>>)
    ensures r.Some? ==> |r.value| > 0
  {
    var tokens := PidTokens(output);
    if tokens == [] then None
    else
      ParseAllSpec(tokens, ParseToken);
      ParseAll(tokens, ParseToken)
  }

  /**
   * All or nothing: the answer yields ids exactly when there is a token and
   * every trimmed token is a 32-bit integer, and then the ids are those
   * integers in token order. Valid tokens are never kept when another fails.
   */
  lemma ParsePidsAllOrNothing(output: string)
    ensures ParsePids(output).Some? <==>
              |PidTokens(output)| > 0 &&
              forall k :: 0 <= k < |PidTokens(output)| ==> ParseToken(PidTokens(output)[k]).Some?
    ensures ParsePids(output).Some? ==>
              |ParsePids(output).value| == |PidTokens(output)| &&
              forall k :: 0 <= k < |PidTokens(output)| ==>
                Some(ParsePids(output).value[k]) == ParseToken(PidTokens(output)[k])
  {
    ParseAllSpec(PidTokens(output), ParseToken);
  }

  /** An answer made only of white space is the "cannot find" case. */
  lemma WhiteSpaceAnswerHasNoPids(output: string)
    requires AllWhiteSpace(output)
    ensures ParsePids(output) == None
  {
    var tokens := PidTokens(output);
    if tokens != [] {
      var t := tokens[0];
      assert t in multiset(tokens) && t != [];
      RemoveEmptyDropsOnlyEmpty(Split(output, ' '));
      assert multiset(Split(output, ' '))[t] > 0;
      SplitWhiteSpace(output, ' ');
      TrimEmptyIffWhiteSpace(t);
      ParsePidsAllOrNothing(output);
    }
  }

  function FormatAll(pids: seq<int>): (r: seq<string>)
    ensures |r| == |pids|
    ensures forall k :: 0 <= k < |r| ==> r[k] == FormatInt(pids[k])
  {
    seq(|pids|, k requires 0 <= k < |pids| => FormatInt(pids[k]))
  }

  /**
   * What `pidof` prints: the ids in decimal, separated by single spaces and
   * ended by a line break. `docker exec -it` runs it on a terminal, which may
   * hand the break back as "\r\n"; any of the three conventions is accepted.
   * Any non-empty list of 32-bit ids is read back exactly, in order.
   */
  lemma PidofAnswerParses(pids: seq<int>, nl: string)
    requires |pids| > 0 && IsNewLine(nl)
    requires forall k :: 0 <= k < |pids| ==> InInt32Range(pids[k])
    ensures ParsePids(Join(FormatAll(pids), ' ') + nl) == Some(pids)
  {
    NewLineIsPadding(nl);
    var tokens := PidofAnswerTokens(pids, nl);
    AnswerTokensParse(pids, tokens, nl);
    ParseAllOf(tokens, pids, ParseToken);
  }

  /** A line break is white space and holds no space character. */
  lemma NewLineIsPadding(nl: string)
    requires IsNewLine(nl)
    ensures AllWhiteSpace(nl) && ' ' !in nl
  {
  }

  /** Each token of the answer parses to its id. */
  lemma AnswerTokensParse(pids: seq<int>, tokens: seq<string>, tail: string)
    requires |pids| > 0 && |tokens| == |pids|
    requires AllWhiteSpace(tail) && ' ' !in tail
    requires forall k :: 0 <= k < |pids| ==> InInt32Range(pids[k])
    requires forall k :: 0 <= k < |pids| - 1 ==> tokens[k] == FormatInt(pids[k])
    requires tokens[|pids| - 1] == FormatInt(pids[|pids| - 1]) + tail
    ensures forall k :: 0 <= k < |pids| ==> ParseToken(tokens[k]) == Some(pids[k])
  {
    forall k | 0 <= k < |pids| ensures ParseToken(tokens[k]) == Some(pids[k]) {
      if k == |pids| - 1 {
        TokenParses(pids[k], tail);
      } else {
        TokenParses(pids[k], "");
        assert FormatInt(pids[k]) + "" == tokens[k];
      }
    }
  }

  /** One id in decimal, followed by white space other than the separator, parses to that id. */
  lemma TokenParses(n: int, tail: string)
    requires InInt32Range(n) && AllWhiteSpace(tail) && ' ' !in tail
    ensures ParseToken(FormatInt(n) + tail) == Some(n)
  {
    var t := FormatInt(n);
    FormatHasNoSpace(n);
    TrimUnpads([], t, tail);
    assert [] + t + tail == t + tail;
    FormatParse(n);
    assert ParseInt32(Trim(t + tail)) == Some(n);
  }

  /** The tokens of `pidof`'s answer: the decimal ids, the last one still ending in the trailing white space. */
  lemma PidofAnswerTokens(pids: seq<int>, tail: string) returns (tokens: seq<string>)
    requires |pids| > 0 && ' ' !in tail
    ensures tokens == PidTokens(Join(FormatAll(pids), ' ') + tail)
    ensures |tokens| == |pids|
    ensures forall k :: 0 <= k < |pids| - 1 ==> tokens[k] == FormatInt(pids[k])
    ensures tokens[|pids| - 1] == FormatInt(pids[|pids| - 1]) + tail
  {
    var parts := FormatAll(pids);
    var n := |parts|;
    tokens := parts[..n - 1] + [parts[n - 1] + tail];
    forall k | 0 <= k < n ensures ' ' !in tokens[k] && tokens[k] != [] {
      FormatHasNoSpace(pids[k]);
      if k == n - 1 {
        assert tokens[k] == parts[k] + tail;
      } else {
        assert tokens[k] == parts[k];
      }
    }
    JoinAppendToLast(parts, tail);
    SplitJoin(tokens, ' ');
    RemoveEmptyKeepsNonEmpty(tokens);
  }

  lemma FormatHasNoSpace(n: int)
    ensures FormatInt(n) != [] && ' ' !in FormatInt(n)
    ensures !IsWhiteSpace(FormatInt(n)[0]) && !IsWhiteSpace(FormatInt(n)[|FormatInt(n)| - 1])
  {
    var m := if n < 0 then -n else n;
    var d := FormatNat(m);
    assert IsDigit(d[0]) && IsDigit(d[|d| - 1]);
    assert forall i :: 0 <= i < |d| ==> d[i] != ' ';
  }

  lemma {:induction false} JoinAppendToLast(parts: seq<string>, tail: string)
    requires |parts| > 0
    ensures Join(parts, ' ') + tail == Join(parts[..|parts| - 1] + [parts[|parts| - 1] + tail], ' ')
  {
    if |parts| > 1 {
      JoinAppendToLast(parts[1..], tail);
      var q := parts[..|parts| - 1] + [parts[|parts| - 1] + tail];
      assert q[1..] == parts[1..][..|parts[1..]| - 1] + [parts[1..][|parts[1..]| - 1] + tail];
    }
  }

  /** Tokens written with single spaces between them are exactly what the parser reads. */
  lemma ParsePidsOfJoin(tokens: seq<string>)
    requires |tokens| > 0
    requires forall k :: 0 <= k < |tokens| ==> tokens[k] != [] && ' ' !in tokens[k]
    ensures ParsePids(Join(tokens, ' ')) == ParseAll(tokens, ParseToken)
  {
    SplitJoin(tokens, ' ');
    RemoveEmptyKeepsNonEmpty(tokens);
  }
}
