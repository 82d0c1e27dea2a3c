/** The quote- and comment-aware splitter of pkg/splitters/splitters.go.
    One pass over the input keeps five pieces of state: which quote is
    open, whether a comment is open, how much of the comment marker and of
    the separator has been matched so far, plus the token being built and
    the tokens emitted. The state machine is specified by `Step`, a run of
    it by `Run`, and the loop of splitArgs is proved to compute `Tokens`.
    The input is scanned rune by rune, but the separator and the marker are
    indexed byte by byte: each rune is compared with the char whose code is
    one byte of their UTF-8 encoding (`Utf8`), so `sep` and `commentSign`
    below are those byte sequences. An ASCII separator or marker is its own
    encoding. */
module Splitters {
  import opened Wrappers
  import opened GoStrings

  datatype SplitError = EmptySeparator

  /** The scanner's state between two characters. */
  datatype Scan = Scan(
    single: bool, double: bool, comment: bool,
    commentIndex: nat, separatorIndex: nat,
    token: string, result: seq<string>)

  const InitialScan := Scan(false, false, false, 0, 0, "", [])

  /** What every reachable state satisfies: the match indices stay inside the
      separator and the comment marker, at most one quote is open, and a
      comment is never open inside a quote, nor at all without a marker. */
  predicate Inv(st: Scan, sep: string, commentSign: string)
  {
    && st.separatorIndex < |sep|
    && (commentSign == "" ==> st.commentIndex == 0 && !st.comment)
    && (commentSign != "" ==> st.commentIndex < |commentSign|)
    && !(st.single && st.double)
    && (st.comment ==> !st.single && !st.double)
  }

  /** One character of splitArgs's loop; `sep` and `commentSign` are the
      bytes of the separator and of the comment marker. */
  function Step(st: Scan, c: char, sep: string, keepQuotes: bool, commentSign: string): (r: Scan)
    requires Inv(st, sep, commentSign)
    ensures Inv(r, sep, commentSign)
  {
    if c == '\n' then
      st.(commentIndex := 0, comment := false, token := st.token + [c])
    else if st.comment then
      st.(token := st.token + [c])
    else if c == '\'' && !st.double then
      st.(single := !st.single, token := if keepQuotes then st.token + [c] else st.token)
    else if c == '"' && !st.single then
      st.(double := !st.double, token := if keepQuotes then st.token + [c] else st.token)
    else if st.single || st.double then
      st.(token := st.token + [c])
    else if commentSign != "" && c == commentSign[st.commentIndex] then
      if st.commentIndex + 1 == |commentSign| then
        st.(comment := true, commentIndex := 0, token := st.token + [c])
      else
        st.(commentIndex := st.commentIndex + 1, token := st.token + [c])
    else if c == sep[st.separatorIndex] then
      if st.separatorIndex + 1 == |sep| then
        st.(commentIndex := 0, separatorIndex := 0, result := st.result + [st.token], token := "")
      else
        st.(commentIndex := 0, separatorIndex := st.separatorIndex + 1, token := st.token + [c])
    else
      st.(commentIndex := 0, separatorIndex := 0, token := st.token + [c])
  }

  /** The state after scanning `s` from `st`. */
  function Run(st: Scan, s: string, sep: string, keepQuotes: bool, commentSign: string): (r: Scan)
    requires Inv(st, sep, commentSign)
    ensures Inv(r, sep, commentSign)
    decreases |s|
  {
    if |s| == 0 then st
    else Step(Run(st, s[..|s| - 1], sep, keepQuotes, commentSign), s[|s| - 1], sep, keepQuotes, commentSign)
  }

  /** The tokens once the input is exhausted: a non-empty pending token is the last one. */
  function Final(st: Scan): seq<string>
  {
    if |st.token| > 0 then st.result + [st.token] else st.result
  }

  /** splitArgs as a function: an error exactly for an empty separator;
      otherwise the input's runes are scanned against the separator's and
      the marker's bytes. */
  function Tokens(input: string, sep: string, keepQuotes: bool, commentSign: string): (r: Result<seq<string>, SplitError>)
    ensures r.Failure? <==> sep == ""
  {
    if sep == "" then Failure(EmptySeparator)
    else Success(Final(Run(InitialScan, input, Utf8(sep), keepQuotes, Utf8(commentSign))))
  }

  /** splitArgs: the loop over the input's characters. */
  method SplitWithCommentSign(input: string, separator: string, keepQuotes: bool, commentSign: string)
    returns (r: Result<seq<string>, SplitError>)
    ensures r == Tokens(input, separator, keepQuotes, commentSign)
  {
    if separator == "" {
      return Failure(EmptySeparator);
    }
    var separatorBytes, commentSignBytes := Utf8(separator), Utf8(commentSign);
    var singleQuoteOpen, doubleQuoteOpen, commentSignOpen := false, false, false;
    var commentSignIndex: nat, separatorIndex: nat := 0, 0;
    var tokenBuffer: string := "";
    var result: seq<string> := [];
    for i := 0 to |input|
      invariant Scan(singleQuoteOpen, doubleQuoteOpen, commentSignOpen, commentSignIndex, separatorIndex, tokenBuffer, result)
                == Run(InitialScan, input[..i], separatorBytes, keepQuotes, commentSignBytes)
    {
      assert input[..i + 1][..i] == input[..i];
      assert Run(InitialScan, input[..i + 1], separatorBytes, keepQuotes, commentSignBytes)
          == Step(Run(InitialScan, input[..i], separatorBytes, keepQuotes, commentSignBytes),
                  input[i], separatorBytes, keepQuotes, commentSignBytes);
      var inputChar := input[i];
      if inputChar == '\n' {
        commentSignIndex := 0;
        commentSignOpen := false;
        tokenBuffer := tokenBuffer + [inputChar];
        continue;
      }
      if commentSignOpen {
        tokenBuffer := tokenBuffer + [inputChar];
        continue;
      }
      if inputChar == '\'' && !doubleQuoteOpen && !commentSignOpen {
        if keepQuotes {
          tokenBuffer := tokenBuffer + [inputChar];
        }
        singleQuoteOpen := !singleQuoteOpen;
        continue;
      } else if inputChar == '"' && !singleQuoteOpen && !commentSignOpen {
        if keepQuotes {
          tokenBuffer := tokenBuffer + [inputChar];
        }
        doubleQuoteOpen := !doubleQuoteOpen;
        continue;
      }
      if !singleQuoteOpen && !doubleQuoteOpen && !commentSignOpen {
        if commentSignBytes != "" && inputChar == commentSignBytes[commentSignIndex] {
          commentSignIndex := commentSignIndex + 1;
          if commentSignIndex == |commentSignBytes| {
            commentSignOpen := true;
            commentSignIndex := 0;
          }
          tokenBuffer := tokenBuffer + [inputChar];
          continue;
        } else {
          commentSignIndex := 0;
        }
      }
      if !singleQuoteOpen && !doubleQuoteOpen && !commentSignOpen {
        if inputChar == separatorBytes[separatorIndex] {
          separatorIndex := separatorIndex + 1;
          if separatorIndex == |separatorBytes| {
            result := result + [tokenBuffer];
            tokenBuffer := "";
            separatorIndex := 0;
            continue;
          }
        } else {
          separatorIndex := 0;
        }
      }
      tokenBuffer := tokenBuffer + [inputChar];
    }
    assert input[..|input|] == input;
    if |tokenBuffer| > 0 {
      result := result + [tokenBuffer];
    }
    return Success(result);
  }

  /** SplitArgs: splitArgs without comment support. */
  method SplitArgs(input: string, separator: string, keepQuotes: bool) returns (r: Result<seq<string>, SplitError>)
    ensures r == Tokens(input, separator, keepQuotes, "")
  {
    r := SplitWithCommentSign(input, separator, keepQuotes, "");
  }

  /** SplitSQL: splitArgs with "--" line comments. */
  method SplitSQL(input: string, separator: string, keepQuotes: bool) returns (r: Result<seq<string>, SplitError>)
    ensures r == Tokens(input, separator, keepQuotes, "--")
  {
    r := SplitWithCommentSign(input, separator, keepQuotes, "--");
  }

  // ---------------------------------------------------------------------
  // Properties

  /** Scanning two pieces one after the other is scanning their concatenation. */
  lemma {:induction false} RunAppend(st: Scan, a: string, b: string, sep: string, keepQuotes: bool, commentSign: string)
    requires Inv(st, sep, commentSign)
    ensures Run(st, a + b, sep, keepQuotes, commentSign)
            == Run(Run(st, a, sep, keepQuotes, commentSign), b, sep, keepQuotes, commentSign)
    decreases |b|
  {
    if |b| == 0 {
      assert a + b == a;
    } else {
      assert (a + b)[..|a + b| - 1] == a + b[..|b| - 1];
      RunAppend(st, a, b[..|b| - 1], sep, keepQuotes, commentSign);
    }
  }

  /** Empty input gives no tokens at all. */
  lemma EmptyInput(sep: string, keepQuotes: bool, commentSign: string)
    requires sep != ""
    ensures Tokens("", sep, keepQuotes, commentSign) == Success([])
  {
  }

  /** Inside a single-quoted region no character but a single quote changes
      anything but the token: separators and comment markers are copied into
      it, and no token is emitted. */
  lemma {:induction false} InsideSingleQuotes(st: Scan, s: string, sep: string, keepQuotes: bool, commentSign: string)
    requires Inv(st, sep, commentSign) && st.single
    requires '\'' !in s
    ensures var r := Run(st, s, sep, keepQuotes, commentSign);
            r.single && r.result == st.result && r.token == st.token + s && r.separatorIndex == st.separatorIndex
    decreases |s|
  {
    if |s| > 0 {
      var init := s[..|s| - 1];
      assert '\'' !in init by { forall j | 0 <= j < |init| ensures init[j] != '\'' { assert init[j] == s[j]; } }
      InsideSingleQuotes(st, init, sep, keepQuotes, commentSign);
      assert st.token + s == st.token + init + [s[|s| - 1]];
    }
  }

  /** The same for a double-quoted region. */
  lemma {:induction false} InsideDoubleQuotes(st: Scan, s: string, sep: string, keepQuotes: bool, commentSign: string)
    requires Inv(st, sep, commentSign) && st.double
    requires '"' !in s
    ensures var r := Run(st, s, sep, keepQuotes, commentSign);
            r.double && r.result == st.result && r.token == st.token + s && r.separatorIndex == st.separatorIndex
    decreases |s|
  {
    if |s| > 0 {
      var init := s[..|s| - 1];
      assert '"' !in init by { forall j | 0 <= j < |init| ensures init[j] != '"'  { assert init[j] == s[j]; } }
      InsideDoubleQuotes(st, init, sep, keepQuotes, commentSign);
      assert st.token + s == st.token + init + [s[|s| - 1]];
    }
  }

  /** Inside an open comment everything up to the next newline is copied into
      the token: separators do not split and quotes do not toggle. */
  lemma {:induction false} InsideComment(st: Scan, s: string, sep: string, keepQuotes: bool, commentSign: string)
    requires Inv(st, sep, commentSign) && st.comment
    requires '\n' !in s
    ensures var r := Run(st, s, sep, keepQuotes, commentSign);
            r.comment && r.result == st.result && r.token == st.token + s
            && r.single == st.single && r.double == st.double
    decreases |s|
  {
    if |s| > 0 {
      var init := s[..|s| - 1];
      assert '\n' !in init by { forall j | 0 <= j < |init| ensures init[j] != '\n' { assert init[j] == s[j]; } }
      InsideComment(st, init, sep, keepQuotes, commentSign);
      assert st.token + s == st.token + init + [s[|s| - 1]];
    }
  }

  /** A newline always closes a comment and ends up in the token. */
  lemma NewlineClosesComment(st: Scan, sep: string, keepQuotes: bool, commentSign: string)
    requires Inv(st, sep, commentSign)
    ensures var r := Step(st, '\n', sep, keepQuotes, commentSign);
            !r.comment && r.commentIndex == 0 && r.token == st.token + "\n" && r.result == st.result
  {
  }

  /** SplitArgs never enters comment mode. */
  lemma SplitArgsHasNoComments(s: string, sep: string, keepQuotes: bool)
    requires sep != ""
    ensures !Run(InitialScan, s, sep, keepQuotes, "").comment
  {
  }

  /** SplitSQL: an unquoted "--" outside a comment opens one. */
  lemma DashDashOpensComment(st: Scan, sep: string, keepQuotes: bool)
    requires Inv(st, sep, "--") && !st.single && !st.double && !st.comment && st.commentIndex == 0
    ensures Run(st, "--", sep, keepQuotes, "--").comment
  {
    assert "--"[..1] == "-";
    assert "-"[..0] == "";
  }

  /** Without quote characters in the input, keepQuotes makes no difference. */
  lemma {:induction false} KeepQuotesIrrelevant(st: Scan, s: string, sep: string, commentSign: string)
    requires Inv(st, sep, commentSign)
    requires '\'' !in s && '"' !in s
    ensures Run(st, s, sep, true, commentSign) == Run(st, s, sep, false, commentSign)
    decreases |s|
  {
    if |s| > 0 {
      var init := s[..|s| - 1];
      assert '\'' !in init && '"' !in init by {
        forall j | 0 <= j < |init| ensures init[j] != '\'' && init[j] != '"' { assert init[j] == s[j]; }
      }
      KeepQuotesIrrelevant(st, init, sep, commentSign);
    }
  }

  /** With quotes kept, only the last character of each full separator match
      is consumed; everything else lands in a token, so the emitted tokens and
      the pending one, joined with that character, rebuild the input. */
  lemma {:induction false} RunRebuilds(s: string, sep: string, commentSign: string)
    requires sep != ""
    ensures var r := Run(InitialScan, s, sep, true, commentSign);
            Join(r.result + [r.token], [sep[|sep| - 1]]) == s
    decreases |s|
  {
    if |s| > 0 {
      var init := s[..|s| - 1];
      var c := s[|s| - 1];
      var last := [sep[|sep| - 1]];
      RunRebuilds(init, sep, commentSign);
      var p := Run(InitialScan, init, sep, true, commentSign);
      var r := Step(p, c, sep, true, commentSign);
      assert s == init + [c];
      KeepQuotesStep(p, c, sep, commentSign);
      if r.result == p.result + [p.token] && r.token == "" && c == sep[|sep| - 1] {
        assert [c] == last;
        JoinAppend(r.result, "", last);
      } else {
        JoinLast(p.result, p.token, c, last);
      }
    }
  }

  /** With keepQuotes every character either ends the token at the last
      character of the separator or is appended to it. */
  lemma KeepQuotesStep(st: Scan, c: char, sep: string, commentSign: string)
    requires Inv(st, sep, commentSign)
    ensures var r := Step(st, c, sep, true, commentSign);
            || (r.result == st.result + [st.token] && r.token == "" && c == sep[|sep| - 1])
            || (r.result == st.result && r.token == st.token + [c])
  {
  }

  lemma JoinLast(parts: seq<string>, t: string, c: char, sep: string)
    ensures Join(parts + [t + [c]], sep) == Join(parts + [t], sep) + [c]
  {
    if |parts| > 0 {
      JoinAppend(parts, t + [c], sep);
      JoinAppend(parts, t, sep);
    }
  }

  /** `parts` joined with `last` is `s`, or `s` without a final `last`, and
      no parts come only from the empty input. */
  predicate Rebuilds(s: string, parts: seq<string>, last: string)
  {
    (|parts| == 0 && s == "")
    || s == Join(parts, last)
    || (|parts| > 0 && s == Join(parts, last) + last)
  }

  /** The tokens SplitArgs or SplitSQL return with keepQuotes, joined with the
      separator's last byte (its last character when it is ASCII), give back
      the input, or the input without its final character when that
      character completed a separator. */
  lemma TokensRebuild(s: string, sep: string, commentSign: string)
    requires sep != ""
    ensures var bytes := Utf8(sep);
            Rebuilds(s, Tokens(s, sep, true, commentSign).value, [bytes[|bytes| - 1]])
  {
    var bytes, marker := Utf8(sep), Utf8(commentSign);
    FinalRebuilds(s, bytes, marker);
    assert Tokens(s, sep, true, commentSign).value == Final(Run(InitialScan, s, bytes, true, marker));
  }

  lemma FinalRebuilds(s: string, sep: string, commentSign: string)
    requires sep != ""
    ensures Rebuilds(s, Final(Run(InitialScan, s, sep, true, commentSign)), [sep[|sep| - 1]])
  {
    RunRebuilds(s, sep, commentSign);
    var r := Run(InitialScan, s, sep, true, commentSign);
    var last := [sep[|sep| - 1]];
    if |r.token| == 0 {
      if |r.result| > 0 {
        JoinAppend(r.result, "", last);
      } else {
        assert Join(r.result + [r.token], last) == "";
      }
    }
  }

  lemma RunSnoc(st: Scan, s: string, c: char, sep: string, keepQuotes: bool, commentSign: string)
    requires Inv(st, sep, commentSign)
    ensures Run(st, s + [c], sep, keepQuotes, commentSign)
            == Step(Run(st, s, sep, keepQuotes, commentSign), c, sep, keepQuotes, commentSign)
  {
    assert (s + [c])[..|s + [c]| - 1] == s;
  }

  /** A rune from U+0100 up equals no byte of the separator or the marker,
      so it only ever extends the token. */
  lemma WideRuneStep(st: Scan, c: char, sep: string, keepQuotes: bool, commentSign: string)
    requires Inv(st, sep, commentSign) && c as int >= 0x100
    requires forall i :: 0 <= i < |sep| ==> sep[i] as int < 0x100
    requires forall i :: 0 <= i < |commentSign| ==> commentSign[i] as int < 0x100
    ensures var r := Step(st, c, sep, keepQuotes, commentSign);
            r.result == st.result && r.token == st.token + [c]
  {
    assert c != sep[st.separatorIndex];
    assert commentSign != "" ==> c != commentSign[st.commentIndex];
  }

  lemma {:induction false} WideRunesExtendToken(st: Scan, s: string, sep: string, keepQuotes: bool, commentSign: string)
    requires Inv(st, sep, commentSign)
    requires forall i :: 0 <= i < |sep| ==> sep[i] as int < 0x100
    requires forall i :: 0 <= i < |commentSign| ==> commentSign[i] as int < 0x100
    requires forall i :: 0 <= i < |s| ==> s[i] as int >= 0x100
    ensures var r := Run(st, s, sep, keepQuotes, commentSign);
            r.result == st.result && r.token == st.token + s
    decreases |s|
  {
    if |s| > 0 {
      var init := s[..|s| - 1];
      assert forall i :: 0 <= i < |init| ==> init[i] == s[i];
      WideRunesExtendToken(st, init, sep, keepQuotes, commentSign);
      WideRuneStep(Run(st, init, sep, keepQuotes, commentSign), s[|s| - 1], sep, keepQuotes, commentSign);
      assert st.token + s == st.token + init + [s[|s| - 1]];
    }
  }

  /** Hence text made only of such runes is never split, whatever the
      separator: a separator "，" (U+FF0C) leaves "甲，乙" whole. */
  lemma WideTextIsOneToken(s: string, sep: string, keepQuotes: bool, commentSign: string)
    requires sep != "" && s != ""
    requires forall i :: 0 <= i < |s| ==> s[i] as int >= 0x100
    ensures Tokens(s, sep, keepQuotes, commentSign) == Success([s])
  {
    var r := Run(InitialScan, s, Utf8(sep), keepQuotes, Utf8(commentSign));
    WideRunesExtendToken(InitialScan, s, Utf8(sep), keepQuotes, Utf8(commentSign));
    assert r.result == [] && r.token == s;
    assert Final(r) == [s];
    assert Tokens(s, sep, keepQuotes, commentSign) == Success(Final(r));
  }

  /** "é" (U+00E9) is the two bytes 0xC3 0xA9. */
  lemma EAcuteBytes()
    ensures Utf8("\U{E9}") == "\U{C3}\U{A9}" && Utf8("") == ""
  {
    assert Utf8("\U{E9}") == RuneBytes('\U{E9}') + Utf8("");
  }

  /** The separator "é" is the bytes 0xC3 0xA9; the rune é matches neither,
      so "aéb" stays one token. */
  lemma NonAsciiSeparatorIgnored(s: string, sep: string)
    requires s == "a\U{E9}b" && sep == "\U{E9}"
    ensures Tokens(s, sep, false, "") == Success([s])
  {
    EAcuteBytes();
    var bytes := Utf8(sep);
    var st0 := InitialScan;
    RunSnoc(st0, [], 'a', bytes, false, "");
    assert [] + ['a'] == "a";
    RunSnoc(st0, "a", '\U{E9}', bytes, false, "");
    assert "a" + ['\U{E9}'] == "a\U{E9}";
    RunSnoc(st0, "a\U{E9}", 'b', bytes, false, "");
    assert "a\U{E9}" + ['b'] == s;
    var done := Run(st0, s, bytes, false, "");
    assert done == Scan(false, false, false, 0, 0, s, []);
    assert Final(done) == [s];
    assert Tokens(s, sep, false, "") == Success(Final(done));
  }

  /** Whereas the two runes U+00C3 U+00A9, whose codes are those bytes,
      complete the separator "é", the first of them staying in the token as
      with any separator of several bytes: "aÃ©b" gives "aÃ" and "b". */
  lemma SeparatorBytesMatchRunes(s: string, sep: string)
    requires s == "a\U{C3}\U{A9}b" && sep == "\U{E9}"
    ensures Tokens(s, sep, false, "") == Success(["a\U{C3}", "b"])
  {
    EAcuteBytes();
    var bytes := Utf8(sep);
    var st0 := InitialScan;
    RunSnoc(st0, [], 'a', bytes, false, "");
    assert [] + ['a'] == "a";
    RunSnoc(st0, "a", '\U{C3}', bytes, false, "");
    assert "a" + ['\U{C3}'] == "a\U{C3}";
    assert Run(st0, "a\U{C3}", bytes, false, "") == Scan(false, false, false, 0, 1, "a\U{C3}", []);
    RunSnoc(st0, "a\U{C3}", '\U{A9}', bytes, false, "");
    assert "a\U{C3}" + ['\U{A9}'] == "a\U{C3}\U{A9}";
    assert Run(st0, "a\U{C3}\U{A9}", bytes, false, "") == Scan(false, false, false, 0, 0, "", ["a\U{C3}"]);
    RunSnoc(st0, "a\U{C3}\U{A9}", 'b', bytes, false, "");
    assert "a\U{C3}\U{A9}" + ['b'] == s;
    var done := Run(st0, s, bytes, false, "");
    assert done == Scan(false, false, false, 0, 0, "b", ["a\U{C3}"]);
    assert Final(done) == ["a\U{C3}", "b"];
    assert Tokens(s, sep, false, "") == Success(Final(done));
  }

  /** With the separator "ab", the 'a' of the match stays in the token before
      the split: "xaby" gives "xa" and "y". */
  lemma MultiCharSeparatorKeepsPrefix(s: string, sep: string)
    requires s == "xaby" && sep == "ab"
    ensures Tokens(s, sep, false, "") == Success(["xa", "y"])
  {
    var st0 := InitialScan;
    var st1 := Scan(false, false, false, 0, 0, "x", []);
    var st2 := Scan(false, false, false, 0, 1, "xa", []);
    var st3 := Scan(false, false, false, 0, 0, "", ["xa"]);
    var st4 := Scan(false, false, false, 0, 0, "y", ["xa"]);
    RunSnoc(st0, [], 'x', sep, false, "");
    assert [] + ['x'] == "x";
    assert Run(st0, "x", sep, false, "") == st1;
    RunSnoc(st0, "x", 'a', sep, false, "");
    assert "x" + ['a'] == "xa";
    assert Run(st0, "xa", sep, false, "") == st2;
    RunSnoc(st0, "xa", 'b', sep, false, "");
    assert "xa" + ['b'] == "xab";
    assert Run(st0, "xab", sep, false, "") == st3;
    RunSnoc(st0, "xab", 'y', sep, false, "");
    assert "xab" + ['y'] == "xaby";
    assert s == "xab" + ['y'];
    assert Run(st0, s, sep, false, "") == st4;
    assert Final(st4) == ["xa", "y"];
  }

  /** Empty tokens between separators are emitted; a trailing one is not:
      "a,,b," gives "a", "" and "b". */
  lemma EmptyTokens(s: string)
    requires s == "a,,b,"
    ensures Tokens(s, ",", false, "") == Success(["a", "", "b"])
  {
    CommaBytes();
    EmptyTokensScan(s);
    assert Tokens(s, ",", false, "") == Success(Final(Run(InitialScan, s, ",", false, "")));
  }

  /** "," and "" are their own encodings. */
  lemma CommaBytes()
    ensures Utf8(",") == "," && Utf8("") == ""
  {
    assert Utf8(",") == RuneBytes(',') + Utf8("");
  }

  lemma EmptyTokensScan(s: string)
    requires s == "a,,b,"
    ensures Run(InitialScan, s, ",", false, "") == Scan(false, false, false, 0, 0, "", ["a", "", "b"])
  {
    var st0 := InitialScan;
    RunSnoc(st0, [], 'a', ",", false, "");
    assert [] + ['a'] == "a";
    assert Run(st0, "a", ",", false, "") == Scan(false, false, false, 0, 0, "a", []);
    RunSnoc(st0, "a", ',', ",", false, "");
    assert "a" + [','] == "a,";
    assert Run(st0, "a,", ",", false, "") == Scan(false, false, false, 0, 0, "", ["a"]);
    RunSnoc(st0, "a,", ',', ",", false, "");
    assert "a," + [','] == "a,,";
    assert Run(st0, "a,,", ",", false, "") == Scan(false, false, false, 0, 0, "", ["a", ""]);
    RunSnoc(st0, "a,,", 'b', ",", false, "");
    assert "a,," + ['b'] == "a,,b";
    assert Run(st0, "a,,b", ",", false, "") == Scan(false, false, false, 0, 0, "b", ["a", ""]);
    RunSnoc(st0, "a,,b", ',', ",", false, "");
    assert "a,,b" + [','] == "a,,b,";
    assert s == "a,,b" + [','];
    assert Run(st0, s, ",", false, "") == Scan(false, false, false, 0, 0, "", ["a", "", "b"]);
  }

  /** A quoted separator does not split, and without keepQuotes the quotes are
      dropped: a,'b,c' gives "a" and "b,c". */
  lemma QuotedSeparator(s: string)
    requires s == "a,'b,c'"
    ensures Tokens(s, ",", false, "") == Success(["a", "b,c"])
  {
    var prefix, quoted := "a,'", "b,c";
    var open := Scan(true, false, false, 0, 0, "", ["a"]);
    OpenQuoteAfterSeparator(prefix);
    InsideSingleQuotes(open, quoted, ",", false, "");
    RunAppend(InitialScan, prefix, quoted, ",", false, "");
    assert prefix + quoted + ['\''] == s;
    RunSnoc(InitialScan, prefix + quoted, '\'', ",", false, "");
    var done := Run(InitialScan, s, ",", false, "");
    assert done.result == ["a"] && done.token == "b,c";
    assert Final(done) == ["a", "b,c"];
  }

  lemma OpenQuoteAfterSeparator(s: string)
    requires s == "a,'"
    ensures Run(InitialScan, s, ",", false, "") == Scan(true, false, false, 0, 0, "", ["a"])
  {
    var st0 := InitialScan;
    RunSnoc(st0, [], 'a', ",", false, "");
    assert [] + ['a'] == "a";
    RunSnoc(st0, "a", ',', ",", false, "");
    assert "a" + [','] == "a,";
    RunSnoc(st0, "a,", '\'', ",", false, "");
    assert "a," + ['\''] == s;
  }

  /** A single-quoted piece is one token whatever separators it holds, and
      without keepQuotes the quotes are stripped. */
  lemma QuotedWhole(k: string, sep: string)
    requires sep != "" && k != "" && '\'' !in k
    ensures Tokens("'" + k + "'", sep, false, "") == Success([k])
  {
    assert Utf8("") == "";
    QuotedWholeBytes(k, Utf8(sep));
  }

  lemma QuotedWholeBytes(k: string, sep: string)
    requires sep != "" && k != "" && '\'' !in k
    ensures Final(Run(InitialScan, "'" + k + "'", sep, false, "")) == [k]
  {
    var st0 := InitialScan;
    var open := Scan(true, false, false, 0, 0, "", []);
    OpeningQuote(sep);
    InsideSingleQuotes(open, k, sep, false, "");
    RunAppend(st0, "'", k, sep, false, "");
    var inside := Run(st0, "'" + k, sep, false, "");
    assert inside.single && inside.result == [] && inside.token == k;
    ClosingQuote(inside, sep);
    RunSnoc(st0, "'" + k, '\'', sep, false, "");
    assert "'" + k + "'" == ("'" + k) + ['\''];
    var done := Run(st0, "'" + k + "'", sep, false, "");
    assert done.result == [] && done.token == k;
    assert Final(done) == [k];
  }

  lemma OpeningQuote(sep: string)
    requires sep != ""
    ensures Run(InitialScan, "'", sep, false, "") == Scan(true, false, false, 0, 0, "", [])
  {
    RunSnoc(InitialScan, [], '\'', sep, false, "");
    assert [] + ['\''] == "'";
  }

  /** Without keepQuotes, the closing quote leaves the token and the result as they are. */
  lemma ClosingQuote(st: Scan, sep: string)
    requires Inv(st, sep, "") && st.single
    ensures var r := Step(st, '\'', sep, false, "");
            r.result == st.result && r.token == st.token
  {
  }

  /** Text without the separator character or quotes only extends the token. */
  lemma {:induction false} RunPlain(st: Scan, s: string, c: char, keepQuotes: bool)
    requires Inv(st, [c], "") && !st.single && !st.double
    requires c !in s && '\'' !in s && '"' !in s
    ensures Run(st, s, [c], keepQuotes, "") == st.(token := st.token + s)
    decreases |s|
  {
    if |s| > 0 {
      var init := s[..|s| - 1];
      assert c !in init && '\'' !in init && '"' !in init by {
        forall j | 0 <= j < |init| ensures init[j] != c && init[j] != '\'' && init[j] != '"' { assert init[j] == s[j]; }
      }
      RunPlain(st, init, c, keepQuotes);
      assert st.token + s == st.token + init + [s[|s| - 1]];
    }
  }

  /** Scanning parts joined with the one-character separator emits all but the
      last part and leaves the last one pending. */
  lemma {:induction false} RunJoin(parts: seq<string>, c: char, keepQuotes: bool)
    requires c != '\n' && c != '\'' && c != '"'
    requires |parts| >= 1
    requires forall i :: 0 <= i < |parts| ==> c !in parts[i] && '\'' !in parts[i] && '"' !in parts[i]
    ensures Run(InitialScan, Join(parts, [c]), [c], keepQuotes, "")
            == Scan(false, false, false, 0, 0, parts[|parts| - 1], parts[..|parts| - 1])
    decreases |parts|
  {
    var n := |parts|;
    if n == 1 {
      RunPlain(InitialScan, parts[0], c, keepQuotes);
    } else {
      var init := parts[..n - 1];
      RunJoin(init, c, keepQuotes);
      assert init + [parts[n - 1]] == parts;
      JoinAppend(init, parts[n - 1], [c]);
      var mid := Run(InitialScan, Join(init, [c]), [c], keepQuotes, "");
      RunSnoc(InitialScan, Join(init, [c]), c, [c], keepQuotes, "");
      var after := Run(InitialScan, Join(init, [c]) + [c], [c], keepQuotes, "");
      assert after == Scan(false, false, false, 0, 0, "", init);
      RunPlain(after, parts[n - 1], c, keepQuotes);
      RunAppend(InitialScan, Join(init, [c]) + [c], parts[n - 1], [c], keepQuotes, "");
      assert init[..n - 2] + [init[n - 2]] == init;
    }
  }

  /** On text without quotes, SplitArgs with a one-character separator takes
      apart what strings.Join put together, as long as the last part is not
      empty (a trailing empty token is never emitted). The separator must be
      ASCII: a wider one is matched by its bytes (see NonAsciiSeparatorIgnored). */
  lemma SplitArgsJoin(parts: seq<string>, c: char, keepQuotes: bool)
    requires c != '\n' && c != '\'' && c != '"' && c as int < 0x80
    requires |parts| >= 1 && parts[|parts| - 1] != ""
    requires forall i :: 0 <= i < |parts| ==> c !in parts[i] && '\'' !in parts[i] && '"' !in parts[i]
    ensures Tokens(Join(parts, [c]), [c], keepQuotes, "") == Success(parts)
  {
    var input := Join(parts, [c]);
    assert Utf8([c]) == [c] && Utf8("") == "";
    RunJoin(parts, c, keepQuotes);
    FinalOfJoin(parts, Run(InitialScan, input, [c], keepQuotes, ""));
  }

  lemma FinalOfJoin(parts: seq<string>, r: Scan)
    requires |parts| >= 1 && parts[|parts| - 1] != ""
    requires r.token == parts[|parts| - 1] && r.result == parts[..|parts| - 1]
    ensures Final(r) == parts
  {
    assert parts[..|parts| - 1] + [parts[|parts| - 1]] == parts;
  }
}
