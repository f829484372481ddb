/** Concrete answers of the docker CLI and what the dialog makes of them. */
module Scenarios {
  import opened Wrappers
  import opened Text
  import opened Ordering
  import opened Int32Text
  import opened DockerOutput
  import opened Dialog

  /** Names listed one per line come back in ordinal order. */
  lemma ListingIsSorted()
    ensures ContainerNames("web\napi\ndb\n") == ["api", "db", "web"]
  {
    ListingText();
    ListingNamesPlain();
    ContainerNamesOfListing(["web", "api", "db"], "\n");
    ThreeNamesSorted();
  }

  /** Solver hint: one literal fact kept in its own lemma so that the scenario using it stays small. */
  lemma ListingText()
    ensures JoinLines(["web", "api", "db"] + [""], "\n") == "web\napi\ndb\n"
  {
    var lines := ["web", "api", "db"] + [""];
    assert lines[1..][1..][1..] == [""];
    assert JoinLines(lines[1..][1..], "\n") == "db\n";
    assert JoinLines(lines[1..], "\n") == "api\ndb\n";
  }

  /** Solver hint: one literal fact kept in its own lemma so that the scenario using it stays small. */
  lemma ListingNamesPlain()
    ensures forall k :: 0 <= k < 3 ==> ["web", "api", "db"][k] != [] && HasNoLineBreak(["web", "api", "db"][k])
  {
  }

  /** Solver hint: one literal fact kept in its own lemma so that the scenario using it stays small. */
  lemma ThreeNamesSorted()
    ensures Sort(["web", "api", "db"]) == ["api", "db", "web"]
  {
    var s := ["web", "api", "db"];
    assert s[1..][1..][1..] == [];
    assert Sort(s[1..][1..]) == ["db"];
    ApiBelowDb();
    assert Sort(s[1..]) == ["api", "db"];
    WebAfterApiAndDb();
    assert Insert("web", ["db"]) == ["db", "web"];
  }

  /** Solver hint: one literal fact kept in its own lemma so that the scenario using it stays small. */
  lemma ApiBelowDb()
    ensures Below("api", "db")
  {
  }

  /** Solver hint: one literal fact kept in its own lemma so that the scenario using it stays small. */
  lemma WebAfterApiAndDb()
    ensures !Below("web", "api") && !Below("web", "db")
  {
  }

  /** An id written in decimal reads back as that id. */
  lemma Token(n: int, t: string)
    requires InInt32Range(n) && t == FormatInt(n)
    ensures ParseToken(t) == Some(n)
  {
    TokenParses(n, "");
    assert t + "" == t;
  }

  /** A token made of letters is no id. */
  lemma NonNumericToken(t: string, i: nat)
    requires i < |t| && !IsDigit(t[i]) && t[i] !in "+-"
    requires !IsWhiteSpace(t[0]) && !IsWhiteSpace(t[|t| - 1])
    ensures ParseToken(t) == None
  {
    TrimUnpads([], t, []);
    assert [] + t + [] == t;
    RejectsNonNumeric(t, i);
  }

  /** Two tokens separated by one space. */
  lemma TwoTokens(s: string, a: string, b: string, x: int, y: int)
    requires s == a + " " + b
    requires a != [] && b != [] && ' ' !in a && ' ' !in b
    requires ParseToken(a) == Some(x) && ParseToken(b) == Some(y)
    ensures ParsePids(s) == Some([x, y])
  {
    var tokens := [a, b];
    ParseAllOf(tokens, [x, y], ParseToken);
    assert Join(tokens, ' ') == a + " " + b by {
      assert Join(tokens[1..], ' ') == b;
    }
    ParsePidsOfJoin(tokens);
  }

  /** A bad second token spoils the whole answer. */
  lemma BadSecondToken(s: string, a: string, b: string)
    requires s == a + " " + b
    requires a != [] && b != [] && ' ' !in a && ' ' !in b
    requires ParseToken(b) == None
    ensures ParsePids(s) == None
  {
    var tokens := [a, b];
    assert Join(tokens, ' ') == a + " " + b by {
      assert Join(tokens[1..], ' ') == b;
    }
    ParsePidsOfJoin(tokens);
    ParseAllSpec(tokens, ParseToken);
  }

  /** A single bad token: no ids. */
  lemma BadOnlyToken(a: string)
    requires a != [] && ' ' !in a && ParseToken(a) == None
    ensures ParsePids(a) == None
  {
    assert Join([a], ' ') == a;
    ParsePidsOfJoin([a]);
    ParseAllSpec([a], ParseToken);
  }

  /** Solver hint: one literal fact kept in its own lemma so that the scenario using it stays small. */
  lemma Id1234()
    ensures ParseToken("1234") == Some(1234)
  {
    Token(1234, "1234");
  }

  /** Solver hint: one literal fact kept in its own lemma so that the scenario using it stays small. */
  lemma Id5678()
    ensures ParseToken("5678") == Some(5678)
  {
    Token(5678, "5678");
  }

  lemma TwoPids()
    ensures ParsePids("1234 5678") == Some([1234, 5678])
  {
    Id1234();
    Id5678();
    TwoPidsPieces();
    TwoTokens("1234 5678", "1234", "5678", 1234, 5678);
  }

  /** Two ids: attach enabled, the chooser enabled, the first id selected. */
  lemma TwoPidsPanel()
    ensures Answer("1234 5678") == PidPanel([Pid(1234), Pid(5678)], 0, true, true)
  {
    TwoPids();
  }

  /** Solver hint: one literal fact kept in its own lemma so that the scenario using it stays small. */
  lemma AbcIsNoId()
    ensures ParseToken("abc") == None
  {
    NonNumericToken("abc", 0);
  }

  lemma GarbageTokenSpoilsAll()
    ensures ParsePids("1234 abc") == None
  {
    AbcIsNoId();
    GarbagePieces();
    BadSecondToken("1234 abc", "1234", "abc");
  }

  /** A bad token among good ones: the "cannot find" message and attach disabled. */
  lemma GarbageTokenPanel()
    ensures Answer("1234 abc") == PidPanel([Message(NoProcessMessage)], 0, false, false)
  {
    GarbageTokenSpoilsAll();
  }

  lemma EmptyAnswer()
    ensures ParsePids("") == None
  {
    WhiteSpaceAnswerHasNoPids("");
  }

  /** A lone line break is one token that trims to nothing. */
  lemma LineBreakAnswer()
    ensures ParsePids("\n") == None
  {
    WhiteSpaceAnswerHasNoPids("\n");
  }

  /** Solver hint: one literal fact kept in its own lemma so that the scenario using it stays small. */
  lemma InnerLineBreakIsNoId()
    ensures ParseToken("1234\n5678") == None
  {
    NonNumericToken("1234\n5678", 4);
  }

  /** Only the space separates ids: a line break between two ids spoils the answer. */
  lemma LineBreakIsNoSeparator()
    ensures ParsePids("1234\n5678") == None
  {
    InnerLineBreakIsNoId();
    BadOnlyToken("1234\n5678");
  }

  /** Solver hint: one literal fact kept in its own lemma so that the scenario using it stays small. */
  lemma Id0()
    ensures ParseToken("0") == Some(0)
  {
    Token(0, "0");
  }

  /** Solver hint: one literal fact kept in its own lemma so that the scenario using it stays small. */
  lemma IdMinus5WithLineBreak()
    ensures ParseToken("-5\n") == Some(-5)
  {
    assert FormatInt(-5) == "-5";
    TokenParses(-5, "\n");
    assert FormatInt(-5) + "\n" == "-5\n";
  }

  /** The sign of an id is not checked: zero and negative ids are accepted. */
  lemma ZeroAndNegativeIdsAccepted()
    ensures ParsePids("0 -5\n") == Some([0, -5])
  {
    Id0();
    IdMinus5WithLineBreak();
    ZeroAndNegativePieces();
    TwoTokens("0 -5\n", "0", "-5\n", 0, -5);
  }

  /** Solver hint: one literal fact kept in its own lemma so that the scenario using it stays small. */
  lemma Id5678WithTerminalBreak()
    ensures ParseToken("5678\r\n") == Some(5678)
  {
    assert FormatInt(5678) == "5678";
    TokenParses(5678, "\r\n");
    assert FormatInt(5678) + "\r\n" == "5678\r\n";
  }

  /** On a terminal the final break comes back as "\r\n"; the ids are still read. */
  lemma TerminalLineBreakAccepted()
    ensures ParsePids("1234 5678\r\n") == Some([1234, 5678])
  {
    Id1234();
    Id5678WithTerminalBreak();
    TerminalAnswerPieces();
    TwoTokens("1234 5678\r\n", "1234", "5678\r\n", 1234, 5678);
  }

  /** Solver hint: one literal fact kept in its own lemma so that the scenario using it stays small. */
  lemma TerminalAnswerPieces()
    ensures "1234 5678\r\n" == "1234" + " " + "5678\r\n"
    ensures "1234" != [] && "5678\r\n" != [] && ' ' !in "1234" && ' ' !in "5678\r\n"
  {
  }

  /** Solver hint: one literal fact kept in its own lemma so that the scenario using it stays small. */
  lemma TwoPidsPieces()
    ensures "1234 5678" == "1234" + " " + "5678"
    ensures "1234" != [] && "5678" != [] && ' ' !in "1234" && ' ' !in "5678"
  {
  }

  /** Solver hint: one literal fact kept in its own lemma so that the scenario using it stays small. */
  lemma GarbagePieces()
    ensures "1234 abc" == "1234" + " " + "abc"
    ensures "1234" != [] && "abc" != [] && ' ' !in "1234" && ' ' !in "abc"
  {
  }

  /** Solver hint: one literal fact kept in its own lemma so that the scenario using it stays small. */
  lemma ZeroAndNegativePieces()
    ensures "0 -5\n" == "0" + " " + "-5\n"
    ensures "0" != [] && "-5\n" != [] && ' ' !in "0" && ' ' !in "-5\n"
  {
  }
}
