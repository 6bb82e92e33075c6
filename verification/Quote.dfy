/** Quoting of the service command, and the two readers that must undo it: the word splitting and quote removal of the
    POSIX shell (IEEE Std 1003.1, Shell Command Language, section 2.2) and the Microsoft C argument rules. */
module Quote {
  import opened Text

  // -- quoting --

  /** strings.ReplaceAll(s, c, sub) for a single character. */
  function Replaced(s: string, c: char, sub: string): string {
    if s == "" then "" else (if s[0] == c then sub else [s[0]]) + Replaced(s[1..], c, sub)
  }

  function ShellQuote(s: string): string {
    if s == "" then "''" else "'" + Replaced(s, '\'', "'\\''") + "'"
  }

  predicate NeedsQuotes(s: string) {
    exists i :: 0 <= i < |s| && s[i] in " \t\""
  }

  function WinQuote(s: string): string {
    if s == "" then "\"\""
    else if !NeedsQuotes(s) then s
    else "\"" + Replaced(s, '"', "\\\"") + "\""
  }

  function UnixCommand(exe: string, configPath: string): string {
    ShellQuote(exe) + " run -config " + ShellQuote(configPath)
  }

  function WindowsCommand(exe: string, configPath: string): string {
    WinQuote(exe) + " run -config " + WinQuote(configPath)
  }

  // -- the POSIX reader --

  datatype Mode = Between | Plain | Single | Double

  predicate IsBlank(c: char) { c == ' ' || c == '\t' || c == '\n' }

  /** Characters that are not themselves outside quotes: operators, expansions, comments, patterns. */
  predicate IsSpecial(c: char) { c in "|&;<>()$`#*?[]~{}!" }

  /** Splits into words and removes quotes; `word` is what has been read of the current word. None stands for an
      unfinished quotation or for syntax beyond plain words. */
  function Words(s: string, mode: Mode, word: string): Option<seq<string>>
    decreases |s|
  {
    if s == "" then
      match mode
      case Between => Some([])
      case Plain => Some([word])
      case _ => None
    else
      var c, rest := s[0], s[1..];
      match mode
      case Single => if c == '\'' then Words(rest, Plain, word) else Words(rest, Single, word + [c])
      case Double =>
        if c == '"' then Words(rest, Plain, word)
        else if c == '$' || c == '`' then None
        else if c == '\\' && rest != "" && rest[0] in "$`\"\\" then Words(rest[1..], Double, word + [rest[0]])
        else if c == '\\' && rest != "" && rest[0] == '\n' then Words(rest[1..], Double, word)
        else Words(rest, Double, word + [c])
      case _ =>
        if IsBlank(c) then
          if mode == Between then Words(rest, Between, "") else Ended(word, Words(rest, Between, ""))
        else if c == '\'' then Words(rest, Single, word)
        else if c == '"' then Words(rest, Double, word)
        else if c == '\\' then
          if rest == "" then None
          else if rest[0] == '\n' then Words(rest[1..], mode, word)
          else Words(rest[1..], Plain, word + [rest[0]])
        else if IsSpecial(c) then None
        else Words(rest, Plain, word + [c])
  }

  function Ended(word: string, more: Option<seq<string>>): Option<seq<string>> {
    if more.Some? then Some([word] + more.value) else None
  }

  // -- single steps of the reader --

  lemma InSingle(c: char, rest: string, word: string)
    ensures Words([c] + rest, Single, word) == if c == '\'' then Words(rest, Plain, word) else Words(rest, Single, word + [c])
  {
    assert ([c] + rest)[1..] == rest;
  }

  lemma OpensSingle(rest: string, mode: Mode, word: string)
    requires mode.Between? || mode.Plain?
    ensures Words("'" + rest, mode, word) == Words(rest, Single, word)
  {
    assert ("'" + rest)[1..] == rest;
  }

  lemma EscapesQuote(rest: string, word: string)
    ensures Words("\\'" + rest, Plain, word) == Words(rest, Plain, word + "'")
  {
    assert ("\\'" + rest)[1..] == "'" + rest && ("'" + rest)[1..] == rest;
  }

  lemma BlankEnds(rest: string, word: string)
    ensures Words(" " + rest, Plain, word) == Ended(word, Words(rest, Between, ""))
  {
    assert (" " + rest)[1..] == rest;
  }

  predicate Ordinary(c: char) {
    !IsBlank(c) && !IsSpecial(c) && c != '\'' && c != '"' && c != '\\'
  }

  lemma ReadsOrdinary(c: char, rest: string, mode: Mode, word: string)
    requires (mode.Between? || mode.Plain?) && Ordinary(c)
    ensures Words([c] + rest, mode, word) == Words(rest, Plain, word + [c])
  {
    assert ([c] + rest)[1..] == rest;
  }

  // -- the shell round trip --

  /** Inside single quotes the escaped text reads as the text, and the closing quote ends it. */
  lemma {:induction false} EscapedReads(s: string, tail: string, word: string)
    ensures Words(Replaced(s, '\'', "'\\''") + "'" + tail, Single, word) == Words(tail, Plain, word + s)
    decreases |s|
  {
    hide Words;
    if s == "" {
      InSingle('\'', tail, word);
      assert Replaced(s, '\'', "'\\''") + "'" + tail == ['\''] + tail && word + s == word;
    } else {
      var more := Replaced(s[1..], '\'', "'\\''") + "'" + tail;
      EscapedReads(s[1..], tail, word + [s[0]]);
      assert word + [s[0]] + s[1..] == word + s;
      if s[0] == '\'' {
        assert Replaced(s, '\'', "'\\''") + "'" + tail == ['\''] + ("\\'" + ("'" + more));
        InSingle('\'', "\\'" + ("'" + more), word);
        EscapesQuote("'" + more, word);
        OpensSingle(more, Plain, word + "'");
      } else {
        assert Replaced(s, '\'', "'\\''") + "'" + tail == [s[0]] + more;
        InSingle(s[0], more, word);
      }
    }
  }

  /** A quoted text at the start of a word contributes exactly the text. */
  lemma QuotedReads(s: string, tail: string)
    ensures Words(ShellQuote(s) + tail, Between, "") == Words(tail, Plain, s)
  {
    hide Words;
    var inner := Replaced(s, '\'', "'\\''") + "'" + tail;
    assert ShellQuote(s) + tail == "'" + inner;
    OpensSingle(inner, Between, "");
    EscapedReads(s, tail, "");
    assert "" + s == s;
  }

  /** Every text survives quoting. */
  lemma ShellRoundTrip(s: string)
    ensures Words(ShellQuote(s), Between, "") == Some([s])
  {
    QuotedReads(s, "");
    assert ShellQuote(s) + "" == ShellQuote(s);
  }

  /** Ordinary text reads as itself. */
  lemma {:induction false} PlainReads(s: string, tail: string, word: string)
    requires forall i :: 0 <= i < |s| ==> Ordinary(s[i])
    ensures Words(s + tail, Plain, word) == Words(tail, Plain, word + s)
    decreases |s|
  {
    hide Words, Ordinary;
    if s == "" {
      assert s + tail == tail && word + s == word;
    } else {
      assert s + tail == [s[0]] + (s[1..] + tail);
      ReadsOrdinary(s[0], s[1..] + tail, Plain, word);
      PlainReads(s[1..], tail, word + [s[0]]);
      assert word + [s[0]] + s[1..] == word + s;
    }
  }

  lemma WordReads(s: string, tail: string)
    requires s != "" && forall i :: 0 <= i < |s| ==> Ordinary(s[i])
    ensures Words(s + (" " + tail), Between, "") == Ended(s, Words(tail, Between, ""))
  {
    hide Words, Ordinary;
    var more := " " + tail;
    assert s + more == [s[0]] + (s[1..] + more);
    ReadsOrdinary(s[0], s[1..] + more, Between, "");
    assert "" + [s[0]] == [s[0]] && forall i :: 0 <= i < |s[1..]| ==> s[1..][i] == s[i + 1];
    PlainReads(s[1..], more, [s[0]]);
    assert [s[0]] + s[1..] == s;
    BlankEnds(tail, s);
  }

  /** The service command reads as exactly four words, whatever the two paths are. */
  lemma UnixCommandReads(exe: string, configPath: string)
    ensures Words(UnixCommand(exe, configPath), Between, "") == Some([exe, "run", "-config", configPath])
  {
    hide Words, ShellQuote;
    var last := ShellQuote(configPath);
    var third := "-config" + (" " + last);
    var second := "run" + (" " + third);
    assert UnixCommand(exe, configPath) == ShellQuote(exe) + (" " + second);
    QuotedReads(exe, " " + second);
    BlankEnds(second, exe);
    WordReads("run", third);
    WordReads("-config", last);
    ShellRoundTrip(configPath);
    assert [exe] + (["run"] + (["-config"] + [configPath])) == [exe, "run", "-config", configPath];
  }

  // -- the Microsoft C reader --

  function Slashes(n: nat): (r: string)
    ensures |r| == n && forall i :: 0 <= i < n ==> r[i] == '\\'
  {
    seq(n, _ => '\\')
  }

  /** `inQuotes` inside a quoted part, `started` once the current argument has begun, `k` backslashes read and not
      yet given a meaning, `word` what came before them. */
  function Args(s: string, inQuotes: bool, started: bool, k: nat, word: string): seq<string>
    decreases |s|
  {
    if s == "" then
      if started then [word + Slashes(k)] else []
    else
      var c, rest := s[0], s[1..];
      if c == '\\' then Args(rest, inQuotes, true, k + 1, word)
      else if c == '"' && k % 2 == 1 then Args(rest, inQuotes, true, 0, word + Slashes(k / 2) + "\"")
      else if c == '"' && inQuotes && rest != "" && rest[0] == '"' then
        Args(rest[1..], true, true, 0, word + Slashes(k / 2) + "\"")
      else if c == '"' then Args(rest, !inQuotes, true, 0, word + Slashes(k / 2))
      else if !inQuotes && (c == ' ' || c == '\t') then
        (if started then [word + Slashes(k)] else []) + Args(rest, false, false, 0, "")
      else Args(rest, inQuotes, true, 0, word + Slashes(k) + [c])
  }

  function Encoded(s: string): string { Replaced(s, '"', "\\\"") }

  /** With k backslashes pending, every backslash of the text keeps its meaning between the quotes: none stands right
      before a quote or at the end. The one exception is a text that ends in a single backslash and a quote, where
      the reader takes the doubled quote at the end for the character. */
  predicate Survives(s: string, k: nat) {
    if s == "" then k == 0
    else if s[0] == '\\' then Survives(s[1..], k + 1)
    else if s[0] == '"' then (k == 0 && Survives(s[1..], 0)) || (k == 1 && |s| == 1)
    else Survives(s[1..], 0)
  }

  function Total(words: seq<string>): nat {
    if words == [] then 0 else |words[0]| + Total(words[1..])
  }

  lemma TotalCons(word: string, more: seq<string>)
    ensures Total([word] + more) == |word| + Total(more)
  {
    assert ([word] + more)[1..] == more;
  }

  // -- single steps of the reader --

  lemma ReadsSlash(rest: string, inQuotes: bool, started: bool, k: nat, word: string)
    ensures Args("\\" + rest, inQuotes, started, k, word) == Args(rest, inQuotes, true, k + 1, word)
  {
    assert ("\\" + rest)[1..] == rest;
  }

  lemma ReadsQuote(rest: string, inQuotes: bool, started: bool, k: nat, word: string)
    ensures Args("\"" + rest, inQuotes, started, k, word) ==
            var w := word + Slashes(k / 2);
            if k % 2 == 1 then Args(rest, inQuotes, true, 0, w + "\"")
            else if inQuotes && rest != "" && rest[0] == '"' then Args(rest[1..], true, true, 0, w + "\"")
            else Args(rest, !inQuotes, true, 0, w)
  {
    assert ("\"" + rest)[1..] == rest;
  }

  lemma ReadsChar(c: char, rest: string, inQuotes: bool, started: bool, k: nat, word: string)
    requires c != '\\' && c != '"'
    ensures Args([c] + rest, inQuotes, started, k, word) ==
            if !inQuotes && (c == ' ' || c == '\t') then
              (if started then [word + Slashes(k)] else []) + Args(rest, false, false, 0, "")
            else Args(rest, inQuotes, true, 0, word + Slashes(k) + [c])
  {
    assert ([c] + rest)[1..] == rest;
  }

  lemma ReadsEnd(inQuotes: bool, started: bool, k: nat, word: string)
    ensures Args("", inQuotes, started, k, word) == if started then [word + Slashes(k)] else []
  {
  }

  lemma NoSlashes(word: string)
    ensures word + Slashes(0) == word
  {
  }

  lemma ClosingQuote(inQuotes: bool, started: bool, k: nat, word: string)
    ensures Args("\"", inQuotes, started, k, word) == [word + Slashes(k / 2) + (if k % 2 == 1 then "\"" else "")]
  {
    hide Args, Slashes;
    var w := word + Slashes(k / 2);
    assert "\"" + "" == "\"" && w + "" == w;
    ReadsQuote("", inQuotes, started, k, word);
    ReadsEnd(inQuotes, true, 0, w + "\"");
    ReadsEnd(!inQuotes, true, 0, w);
    NoSlashes(w);
    NoSlashes(w + "\"");
  }

  /** An encoded quote, by the number of backslashes before it. */
  lemma ReadsEncodedQuote(more: string, inQuotes: bool, started: bool, k: nat, word: string)
    ensures Args("\\\"" + more, inQuotes, started, k, word) ==
            var w := word + Slashes((k + 1) / 2);
            if k % 2 == 0 then Args(more, inQuotes, true, 0, w + "\"")
            else if inQuotes && more != "" && more[0] == '"' then Args(more[1..], true, true, 0, w + "\"")
            else Args(more, !inQuotes, true, 0, w)
  {
    hide Args, Slashes;
    assert "\\\"" + more == "\\" + ("\"" + more);
    ReadsSlash("\"" + more, inQuotes, started, k, word);
    ReadsQuote(more, inQuotes, true, k + 1, word);
  }

  /** Encoded text never starts with a quote. */
  lemma EncodedStart(s: string)
    requires s != ""
    ensures Encoded(s) == (if s[0] == '"' then "\\\"" else [s[0]]) + Encoded(s[1..])
    ensures (Encoded(s) + "\"")[0] != '"'
  {
  }

  /** Reading never produces more characters than were encoded. */
  lemma {:induction false} NeverLonger(s: string, inQuotes: bool, started: bool, k: nat, word: string)
    requires started || (k == 0 && word == "")
    ensures Total(Args(Encoded(s) + "\"", inQuotes, started, k, word)) <= |word| + k + |s|
    decreases |s|
  {
    hide Args, Slashes, Encoded;
    if s == "" {
      EncodedNothing();
      ClosingQuote(inQuotes, started, k, word);
    } else {
      var more := Encoded(s[1..]) + "\"";
      EncodedStart(s);
      if s[0] == '"' {
        var w := word + Slashes((k + 1) / 2);
        assert Encoded(s) + "\"" == "\\\"" + more;
        ReadsEncodedQuote(more, inQuotes, started, k, word);
        if k % 2 == 0 {
          NeverLonger(s[1..], inQuotes, true, 0, w + "\"");
        } else if s[1..] == "" {
          EncodedNothing();
          assert more[1..] == "";
          if inQuotes { ReadsEnd(true, true, 0, w + "\""); } else { ClosingQuote(true, true, 0, w); }
        } else {
          EncodedStart(s[1..]);
          NeverLonger(s[1..], !inQuotes, true, 0, w);
        }
      } else {
        assert Encoded(s) + "\"" == [s[0]] + more;
        if s[0] == '\\' {
          ReadsSlash(more, inQuotes, started, k, word);
          NeverLonger(s[1..], inQuotes, true, k + 1, word);
        } else {
          ReadsChar(s[0], more, inQuotes, started, k, word);
          if !inQuotes && (s[0] == ' ' || s[0] == '\t') {
            NeverLonger(s[1..], false, false, 0, "");
            TotalCons(word + Slashes(k), Args(more, false, false, 0, ""));
            assert [] + Args(more, false, false, 0, "") == Args(more, false, false, 0, "");
          } else {
            NeverLonger(s[1..], inQuotes, true, 0, word + Slashes(k) + [s[0]]);
          }
        }
      }
    }
  }

  lemma EncodedNothing()
    ensures Encoded("") + "\"" == "\""
  {
  }

  // -- the Windows round trip --

  /** The quoted part reads back as the text exactly when the text survives. */
  lemma {:induction false} QuotedPartReads(s: string, k: nat, word: string)
    ensures Args(Encoded(s) + "\"", true, true, k, word) == [word + Slashes(k) + s] <==> Survives(s, k)
    decreases |s|
  {
    hide Args, Encoded;
    if s == "" {
      EncodedNothing();
      ClosingQuote(true, true, k, word);
      var r := word + Slashes(k / 2) + (if k % 2 == 1 then "\"" else "");
      assert k == 1 ==> r[|word|] == '"' && (word + Slashes(1) + s)[|word|] == '\\';
      assert |r| == |word| + k / 2 + k % 2;
      if k == 0 { assert r == word + Slashes(0) + s; }
    } else {
      var more := Encoded(s[1..]) + "\"";
      EncodedStart(s);
      if s[0] == '"' {
        assert Encoded(s) + "\"" == "\\\"" + more;
        QuoteInQuotes(s, k, word);
        if k == 0 {
          QuotedPartReads(s[1..], 0, word + "\"");
          assert word + "\"" + Slashes(0) + s[1..] == word + Slashes(0) + s;
        }
      } else {
        assert Encoded(s) + "\"" == [s[0]] + more;
        if s[0] == '\\' {
          ReadsSlash(more, true, true, k, word);
          QuotedPartReads(s[1..], k + 1, word);
          assert word + Slashes(k + 1) + s[1..] == word + Slashes(k) + s;
        } else {
          ReadsChar(s[0], more, true, true, k, word);
          QuotedPartReads(s[1..], 0, word + Slashes(k) + [s[0]]);
          assert word + Slashes(k) + [s[0]] + Slashes(0) + s[1..] == word + Slashes(k) + s;
        }
      }
    }
  }

  /** A quote after k backslashes: read right when k is 0, too short when k is greater, but for the last character. */
  lemma QuoteInQuotes(s: string, k: nat, word: string)
    requires s != "" && s[0] == '"'
    ensures var read, more := Args(Encoded(s) + "\"", true, true, k, word), Encoded(s[1..]) + "\"";
            && (k == 0 ==> read == Args(more, true, true, 0, word + "\""))
            && (k > 0 ==> (read == [word + Slashes(k) + s] <==> k == 1 && |s| == 1))
  {
    hide Args, Encoded;
    var read, more := Args(Encoded(s) + "\"", true, true, k, word), Encoded(s[1..]) + "\"";
    var w := word + Slashes((k + 1) / 2);
    EncodedStart(s);
    assert Encoded(s) + "\"" == "\\\"" + more;
    ReadsEncodedQuote(more, true, true, k, word);
    if k % 2 == 0 {
      assert k == 0 ==> w + "\"" == word + "\"";
      NeverLonger(s[1..], true, true, 0, w + "\"");
      if k > 0 { TooShort(read, word + Slashes(k) + s); }
    } else if |s| == 1 {
      EncodedNothing();
      assert s[1..] == "" && more[1..] == "";
      ReadsEnd(true, true, 0, w + "\"");
      NoSlashes(w + "\"");
      assert read == [w + "\""];
      if k == 1 { assert w + "\"" == word + Slashes(k) + s; } else { TooShort(read, word + Slashes(k) + s); }
    } else {
      EncodedStart(s[1..]);
      NeverLonger(s[1..], false, true, 0, w);
      TooShort(read, word + Slashes(k) + s);
    }
  }

  lemma TooShort(read: seq<string>, expected: string)
    requires Total(read) < |expected|
    ensures read != [expected]
  {
    assert [expected] + [] == [expected];
    TotalCons(expected, []);
  }

  /** No backslash stands right before a quote or at the end. */
  predicate SlashesHarmless(s: string) {
    forall i :: 0 <= i < |s| && s[i] == '\\' ==> i + 1 < |s| && s[i + 1] != '"'
  }

  /** The condition of QuotedPartReads, without counting. */
  predicate ReadsBack(s: string) {
    SlashesHarmless(s) || (HasSuffix(s, "\\\"") && SlashesHarmless(s[..|s| - 2]))
  }

  /** With no backslash pending the count comes down to looking at each backslash. */
  lemma {:induction false} SurvivesIff(s: string, k: nat)
    ensures Survives(s, k) <==> ReadsBack(Slashes(k) + s)
    decreases |s|
  {
    var t := Slashes(k) + s;
    if s == "" {
      assert k > 0 ==> t[k - 1] == '\\';
    } else if s[0] == '\\' {
      SurvivesIff(s[1..], k + 1);
      assert Slashes(k + 1) + s[1..] == t;
    } else {
      SurvivesIff(s[1..], 0);
      assert Slashes(0) + s[1..] == s[1..];
      AfterOrdinary(s, k);
    }
  }

  /** Backslashes before anything but a quote are harmless. */
  lemma HarmlessFront(k: nat, s: string)
    requires s != "" && (s[0] != '"' || k == 0)
    ensures SlashesHarmless(Slashes(k) + s) <==> SlashesHarmless(s)
  {
    var t := Slashes(k) + s;
    assert forall i :: 0 <= i < |s| ==> t[k + i] == s[i];
    if SlashesHarmless(s) {
      forall i | 0 <= i < |t| && t[i] == '\\' ensures i + 1 < |t| && t[i + 1] != '"' {
        if i >= k { assert s[i - k] == '\\'; } else if i + 1 == k { assert t[i + 1] == s[0]; }
      }
    }
    if SlashesHarmless(t) {
      forall i | 0 <= i < |s| && s[i] == '\\' ensures i + 1 < |s| && s[i + 1] != '"' {
        assert t[k + i] == '\\' && t[k + i + 1] == s[i + 1];
      }
    }
  }

  lemma HarmlessTail(s: string)
    requires s != "" && s[0] != '\\'
    ensures SlashesHarmless(s) <==> SlashesHarmless(s[1..])
  {
    var u := s[1..];
    assert forall i :: 0 <= i < |u| ==> u[i] == s[i + 1];
    if SlashesHarmless(u) {
      forall i | 0 <= i < |s| && s[i] == '\\' ensures i + 1 < |s| && s[i + 1] != '"' {
        assert u[i - 1] == '\\';
      }
    }
    if SlashesHarmless(s) {
      forall i | 0 <= i < |u| && u[i] == '\\' ensures i + 1 < |u| && u[i + 1] != '"' {
        assert s[i + 1] == '\\';
      }
    }
  }

  lemma AfterOrdinary(s: string, k: nat)
    requires s != "" && s[0] != '\\'
    ensures ReadsBack(Slashes(k) + s) <==>
            if s[0] == '"' && k > 0 then k == 1 && |s| == 1 else ReadsBack(s[1..])
  {
    if s[0] == '"' && k > 0 { QuoteBreaks(s, k); } else { OrdinaryKeeps(s, k); }
  }

  lemma QuoteBreaks(s: string, k: nat)
    requires s != "" && s[0] == '"' && k > 0
    ensures ReadsBack(Slashes(k) + s) <==> k == 1 && |s| == 1
  {
    var t := Slashes(k) + s;
    assert t[k - 1] == '\\' && t[k] == '"';
    var u := t[..|t| - 2];
    if |s| >= 3 { assert u[k - 1] == '\\' && u[k] == '"'; }
    if |s| == 2 { assert t[|t| - 2..][0] == '"'; }
    if |s| == 1 {
      assert t[|t| - 2..] == "\\\"" && u == Slashes(k - 1);
      assert k > 1 ==> u[k - 2] == '\\';
    }
  }

  lemma EndsAlike(front: string, u: string)
    requires |u| >= 2
    ensures (front + u)[|front + u| - 2..] == u[|u| - 2..] && (front + u)[..|front + u| - 2] == front + u[..|u| - 2]
  {
  }

  lemma SuffixFirst(t: string, c: char)
    requires |t| >= 2 && t[|t| - 2] == c && c != '\\'
    ensures !HasSuffix(t, "\\\"")
  {
    assert t[|t| - 2..][0] == c;
  }

  lemma OrdinaryKeeps(s: string, k: nat)
    requires s != "" && s[0] != '\\' && (s[0] != '"' || k == 0)
    ensures ReadsBack(Slashes(k) + s) <==> ReadsBack(s[1..])
  {
    hide SlashesHarmless;
    var t, u := Slashes(k) + s, s[1..];
    HarmlessFront(k, s);
    HarmlessTail(s);
    if |s| >= 3 {
      var v := [s[0]] + u[..|u| - 2];
      assert t == (Slashes(k) + [s[0]]) + u;
      EndsAlike(Slashes(k) + [s[0]], u);
      assert Slashes(k) + [s[0]] + u[..|u| - 2] == Slashes(k) + v && v[1..] == u[..|u| - 2];
      HarmlessFront(k, v);
      HarmlessTail(v);
    } else if |s| == 2 {
      SuffixFirst(t, s[0]);
    } else {
      NothingHarmless();
    }
  }

  lemma NothingHarmless()
    ensures SlashesHarmless("")
  {
  }

  lemma {:induction false} UnquotedReads(s: string, started: bool, k: nat, word: string)
    requires !NeedsQuotes(s) && (s == "" ==> started)
    ensures Args(s, false, started, k, word) == [word + Slashes(k) + s]
    decreases |s|
  {
    hide Args;
    if s == "" {
      ReadsEnd(false, started, k, word);
      assert word + Slashes(k) + s == word + Slashes(k);
    } else {
      var more := s[1..];
      assert !NeedsQuotes(more) && s[0] !in " \t\"" by {
        forall i | 0 <= i < |more| ensures more[i] !in " \t\"" { assert s[i + 1] !in " \t\""; }
      }
      assert s == [s[0]] + more;
      if s[0] == '\\' {
        ReadsSlash(more, false, started, k, word);
        UnquotedReads(more, true, k + 1, word);
        assert word + Slashes(k + 1) + more == word + Slashes(k) + s;
      } else {
        NotSpecial(s[0]);
        ReadsChar(s[0], more, false, started, k, word);
        UnquotedReads(more, true, 0, word + Slashes(k) + [s[0]]);
        assert word + Slashes(k) + [s[0]] + Slashes(0) + more == word + Slashes(k) + s;
      }
    }
  }

  lemma NotSpecial(c: char)
    requires c !in " \t\""
    ensures c != ' ' && c != '\t' && c != '"'
  {
    assert " \t\""[0] == ' ' && " \t\""[1] == '\t' && " \t\""[2] == '"';
  }

  /** A Windows argument reads back exactly when it is not quoted or none of its backslashes changes meaning. */
  lemma WinRoundTripIff(s: string)
    ensures Args(WinQuote(s), false, false, 0, "") == [s] <==> s == "" || !NeedsQuotes(s) || ReadsBack(s)
  {
    hide Args, Encoded, NeedsQuotes, ReadsBack, Survives;
    NoSlashes("");
    if s == "" {
      assert WinQuote(s) == "\"" + "\"";
      ReadsQuote("\"", false, false, 0, "");
      ClosingQuote(true, true, 0, "");
    } else if NeedsQuotes(s) {
      EncodedIsReplaced(s);
      assert WinQuote(s) == "\"" + (Encoded(s) + "\"");
      ReadsQuote(Encoded(s) + "\"", false, false, 0, "");
      QuotedPartReads(s, 0, "");
      SurvivesIff(s, 0);
      assert Slashes(0) + s == s && "" + Slashes(0) + s == s;
    } else {
      UnquotedReads(s, false, 0, "");
      assert "" + Slashes(0) + s == s;
    }
  }

  lemma EncodedIsReplaced(s: string)
    ensures Encoded(s) == Replaced(s, '"', "\\\"")
  {
  }

  lemma PendingHarmless(s: string, k: nat)
    requires SlashesHarmless(Slashes(k) + s)
    ensures s == "" || s[0] == '"' ==> k == 0
  {
    var t := Slashes(k) + s;
    assert k > 0 ==> t[k - 1] == '\\';
    assert s != "" ==> t[k] == s[0];
  }

  lemma SlashShift(k: nat, s: string)
    requires s != ""
    ensures Slashes(0) + s == s && Slashes(0) + s[1..] == s[1..]
    ensures s[0] == '\\' ==> Slashes(k + 1) + s[1..] == Slashes(k) + s
  {
  }

  lemma Regrouped(a: string, b: string, c: string)
    ensures a + b + c == a + (b + c)
  {
  }

  /** Where the first character of the rest goes. */
  lemma Shifts(word: string, k: nat, s: string)
    requires s != ""
    ensures Slashes(0) + s == s && Slashes(0) + s[1..] == s[1..]
    ensures s[0] == '\\' ==> Slashes(k + 1) + s[1..] == Slashes(k) + s
    ensures s[0] == '\\' ==> word + Slashes(k + 1) + s[1..] == word + Slashes(k) + s
    ensures word + Slashes(k) + [s[0]] + Slashes(0) + s[1..] == word + Slashes(k) + s
  {
    hide Slashes;
    SlashShift(k, s);
    Regrouped(word, Slashes(k + 1), s[1..]);
    Regrouped(word, Slashes(k), s);
    var w := word + Slashes(k);
    Regrouped(w + [s[0]], Slashes(0), s[1..]);
    Regrouped(w, [s[0]], s[1..]);
    assert [s[0]] + s[1..] == s;
  }

  /** The closing quote in the middle of a command. */
  lemma ClosesThen(word: string, tail: string)
    ensures Args(Encoded("") + ("\"" + (" " + tail)), true, true, 0, word) == [word] + Args(tail, false, false, 0, "")
  {
    hide Args, Encoded;
    EncodedEmpty();
    assert "" + ("\"" + (" " + tail)) == "\"" + (" " + tail) && [' '] + tail == " " + tail;
    NoSlashes(word);
    ReadsQuote(" " + tail, true, true, 0, word);
    ReadsChar(' ', tail, false, true, 0, word);
  }

  /** In the middle of a command a quoted part ends where it should when every backslash is harmless. */
  lemma {:induction false} QuotedPartThen(s: string, k: nat, word: string, tail: string)
    requires SlashesHarmless(Slashes(k) + s)
    ensures Args(Encoded(s) + ("\"" + (" " + tail)), true, true, k, word) == [word + Slashes(k) + s] + Args(tail, false, false, 0, "")
    decreases |s|
  {
    hide Args, Encoded, Slashes, SlashesHarmless;
    PendingHarmless(s, k);
    if s == "" {
      ClosesThen(word, tail);
      NoSlashes(word);
      assert word + Slashes(0) + s == word + Slashes(0);
    } else {
      var rest := "\"" + (" " + tail);
      var more := Encoded(s[1..]) + rest;
      EncodedStart(s);
      Shifts(word, k, s);
      if s[0] == '\\' {
        assert Encoded(s) + rest == "\\" + more;
        ReadsSlash(more, true, true, k, word);
        QuotedPartThen(s[1..], k + 1, word, tail);
      } else {
        HarmlessFront(k, s);
        HarmlessTail(s);
        if s[0] == '"' {
          assert Encoded(s) + rest == "\\\"" + more;
          ReadsEncodedQuote(more, true, true, 0, word);
          NoSlashes(word);
        } else {
          assert Encoded(s) + rest == [s[0]] + more;
          ReadsChar(s[0], more, true, true, k, word);
        }
        QuotedPartThen(s[1..], 0, word + Slashes(k) + [s[0]], tail);
      }
    }
  }

  lemma EncodedEmpty()
    ensures Encoded("") == ""
  {
  }

  lemma {:induction false} UnquotedThen(s: string, started: bool, k: nat, word: string, tail: string)
    requires !NeedsQuotes(s) && (s == "" ==> started)
    ensures Args(s + (" " + tail), false, started, k, word) == [word + Slashes(k) + s] + Args(tail, false, false, 0, "")
    decreases |s|
  {
    hide Args;
    if s == "" {
      assert s + (" " + tail) == [' '] + tail;
      ReadsChar(' ', tail, false, started, k, word);
      assert word + Slashes(k) + s == word + Slashes(k);
    } else {
      var more := s[1..];
      assert !NeedsQuotes(more) && s[0] !in " \t\"" by {
        forall i | 0 <= i < |more| ensures more[i] !in " \t\"" { assert s[i + 1] !in " \t\""; }
      }
      assert s + (" " + tail) == [s[0]] + (more + (" " + tail));
      if s[0] == '\\' {
        ReadsSlash(more + (" " + tail), false, started, k, word);
        UnquotedThen(more, true, k + 1, word, tail);
        assert word + Slashes(k + 1) + more == word + Slashes(k) + s;
      } else {
        NotSpecial(s[0]);
        ReadsChar(s[0], more + (" " + tail), false, started, k, word);
        UnquotedThen(more, true, 0, word + Slashes(k) + [s[0]], tail);
        assert word + Slashes(k) + [s[0]] + Slashes(0) + more == word + Slashes(k) + s;
      }
    }
  }

  lemma WinQuoteForm(s: string, rest: string)
    ensures s == "" || NeedsQuotes(s) ==> WinQuote(s) + rest == "\"" + (Encoded(s) + ("\"" + rest))
    ensures s != "" && !NeedsQuotes(s) ==> WinQuote(s) == s
  {
    hide NeedsQuotes, Replaced;
    if s == "" {
      EncodedEmpty();
      assert WinQuote(s) + rest == "\"" + ("\"" + rest) && "" + ("\"" + rest) == "\"" + rest;
    } else if NeedsQuotes(s) {
      Regrouped("\"", Encoded(s), "\"");
      assert "\"" + (Encoded(s) + "\"") + rest == "\"" + (Encoded(s) + ("\"" + rest));
    }
  }

  lemma WinQuoteThen(s: string, tail: string)
    requires !NeedsQuotes(s) || SlashesHarmless(s)
    ensures Args(WinQuote(s) + (" " + tail), false, false, 0, "") == [s] + Args(tail, false, false, 0, "")
  {
    hide Args, Encoded, NeedsQuotes, SlashesHarmless, WinQuote, Slashes;
    NoSlashes("");
    NothingHarmless();
    WinQuoteForm(s, " " + tail);
    Regrouped("", Slashes(0), s);
    assert "" + s == s;
    if s != "" { SlashShift(0, s); } else { assert Slashes(0) + s == s by { NoSlashes(""); assert "" + Slashes(0) == Slashes(0); } }
    if s == "" || NeedsQuotes(s) {
      ReadsQuote(Encoded(s) + ("\"" + (" " + tail)), false, false, 0, "");
      HalfSlashes();
      QuotedPartThen(s, 0, "", tail);
    } else {
      UnquotedThen(s, false, 0, "", tail);
    }
  }

  lemma HalfSlashes()
    ensures "" + Slashes(0 / 2) == ""
  {
  }

  /** With an executable that survives, the line splits into it, the fixed words and what the path reads as. */
  lemma WindowsCommandSplits(exe: string, configPath: string)
    requires !NeedsQuotes(exe) || SlashesHarmless(exe)
    ensures Args(WindowsCommand(exe, configPath), false, false, 0, "") ==
            [exe] + (["run"] + (["-config"] + Args(WinQuote(configPath), false, false, 0, "")))
  {
    hide Args, WinQuote, NeedsQuotes, SlashesHarmless, ReadsBack;
    var last := WinQuote(configPath);
    var third := "-config" + (" " + last);
    var second := "run" + (" " + third);
    assert WindowsCommand(exe, configPath) == WinQuote(exe) + (" " + second);
    WinQuoteThen(exe, second);
    FixedWords();
    UnquotedThen("run", false, 0, "", third);
    UnquotedThen("-config", false, 0, "", last);
    NoSlashes("");
    assert "" + "run" == "run" && "" + "-config" == "-config";
  }

  lemma FixedWords()
    ensures !NeedsQuotes("run") && !NeedsQuotes("-config")
  {
  }

  // -- a path that does not survive spoils the command --

  lemma {:induction false} TotalConcat(a: seq<string>, b: seq<string>)
    ensures Total(a + b) == Total(a) + Total(b)
  {
    if a == [] {
      assert a + b == b;
    } else {
      assert a + b == [a[0]] + (a[1..] + b);
      TotalCons(a[0], a[1..] + b);
      TotalConcat(a[1..], b);
    }
  }

  /** Reading an argument only makes it longer. */
  lemma {:induction false} WordGrows(s: string, inQuotes: bool, k: nat, word: string)
    ensures var r := Args(s, inQuotes, true, k, word); r != [] && word <= r[0]
    decreases |s|
  {
    hide Slashes;
    if s != "" {
      var c, rest := s[0], s[1..];
      if c == '\\' {
        WordGrows(rest, inQuotes, k + 1, word);
      } else if c == '"' && k % 2 == 1 {
        WordGrows(rest, inQuotes, 0, word + Slashes(k / 2) + "\"");
      } else if c == '"' && inQuotes && rest != "" && rest[0] == '"' {
        WordGrows(rest[1..], true, 0, word + Slashes(k / 2) + "\"");
      } else if c == '"' {
        WordGrows(rest, !inQuotes, 0, word + Slashes(k / 2));
      } else if !(!inQuotes && (c == ' ' || c == '\t')) {
        WordGrows(rest, inQuotes, 0, word + Slashes(k) + [c]);
      }
    }
  }

  /** Where the reader stands after a quoted piece in the middle of a line: the arguments finished, whether it is inside
      quotes, and the argument under way. */
  datatype Standing = Standing(done: seq<string>, inQuotes: bool, last: string) {
    function Size(): nat { Total(done) + |last| }
  }

  ghost predicate StandsAfter(read: seq<string>, st: Standing, tail: string) {
    read == st.done + Args(tail, st.inQuotes, true, 0, st.last)
  }

  lemma StandsAtClose(inQuotes: bool, started: bool, k: nat, word: string, tail: string) returns (st: Standing)
    requires tail != "" && tail[0] != '"'
    ensures StandsAfter(Args("\"" + tail, inQuotes, started, k, word), st, tail)
    ensures st.Size() <= |word| + k && (k > 0 ==> st.Size() < |word| + k || (k == 1 && st.inQuotes == inQuotes))
    ensures k % 2 == 0 ==> st.inQuotes == !inQuotes
  {
    hide Args;
    ReadsQuote(tail, inQuotes, started, k, word);
    st := Standing([], if k % 2 == 1 then inQuotes else !inQuotes, word + Slashes(k / 2) + if k % 2 == 1 then "\"" else "");
    assert [] + Args(tail, st.inQuotes, true, 0, st.last) == Args(tail, st.inQuotes, true, 0, st.last);
    assert word + Slashes(k / 2) + "" == word + Slashes(k / 2);
  }

  lemma {:induction false} StandsAfterPiece(s: string, inQuotes: bool, started: bool, k: nat, word: string, tail: string)
    returns (st: Standing)
    requires started || (k == 0 && word == "")
    requires tail != "" && tail[0] != '"'
    ensures StandsAfter(Args(Encoded(s) + ("\"" + tail), inQuotes, started, k, word), st, tail)
    ensures st.Size() <= |word| + k + |s|
    decreases |s|
  {
    hide Args, Slashes, Encoded;
    var rest := "\"" + tail;
    if s == "" {
      EncodedEmpty();
      assert "" + rest == rest;
      st := StandsAtClose(inQuotes, started, k, word, tail);
    } else {
      var more := Encoded(s[1..]) + rest;
      EncodedStart(s);
      if s[0] == '"' {
        var w := word + Slashes((k + 1) / 2);
        assert Encoded(s) + rest == "\\\"" + more;
        ReadsEncodedQuote(more, inQuotes, started, k, word);
        if k % 2 == 0 {
          st := StandsAfterPiece(s[1..], inQuotes, true, 0, w + "\"", tail);
        } else if s[1..] == "" && inQuotes {
          EncodedEmpty();
          assert more == rest && more[1..] == tail && more[0] == '"';
          st := Standing([], true, w + "\"");
          assert [] + Args(tail, true, true, 0, w + "\"") == Args(tail, true, true, 0, w + "\"");
        } else {
          if s[1..] != "" { EncodedStart(s[1..]); EncodedFirst(s[1..], rest); }
          st := StandsAfterPiece(s[1..], !inQuotes, true, 0, w, tail);
        }
      } else {
        assert Encoded(s) + rest == [s[0]] + more;
        if s[0] == '\\' {
          ReadsSlash(more, inQuotes, started, k, word);
          st := StandsAfterPiece(s[1..], inQuotes, true, k + 1, word, tail);
        } else {
          ReadsChar(s[0], more, inQuotes, started, k, word);
          if !inQuotes && (s[0] == ' ' || s[0] == '\t') {
            var next := StandsAfterPiece(s[1..], false, false, 0, "", tail);
            st := EndsBefore(if started then [word + Slashes(k)] else [], next, Args(more, false, false, 0, ""), tail);
          } else {
            st := StandsAfterPiece(s[1..], inQuotes, true, 0, word + Slashes(k) + [s[0]], tail);
          }
        }
      }
    }
  }

  lemma EndsBefore(front: seq<string>, next: Standing, read: seq<string>, tail: string) returns (st: Standing)
    requires StandsAfter(read, next, tail)
    ensures StandsAfter(front + read, st, tail) && st.Size() == Total(front) + next.Size() && st.inQuotes == next.inQuotes
  {
    st := Standing(front + next.done, next.inQuotes, next.last);
    TotalConcat(front, next.done);
    assert front + (next.done + Args(tail, next.inQuotes, true, 0, next.last)) == front + next.done + Args(tail, next.inQuotes, true, 0, next.last);
  }

  lemma EncodedFirst(s: string, rest: string)
    requires s != ""
    ensures (Encoded(s) + rest)[0] != '"'
  {
  }

  /** A piece with a backslash that is not harmless loses a character or leaves the reader inside quotes. */
  lemma {:induction false} StandsShort(s: string, k: nat, word: string, tail: string) returns (st: Standing)
    requires !SlashesHarmless(Slashes(k) + s) && tail != "" && tail[0] != '"'
    ensures StandsAfter(Args(Encoded(s) + ("\"" + tail), true, true, k, word), st, tail)
    ensures st.Size() <= |word| + k + |s| && (st.Size() < |word| + k + |s| || st.inQuotes)
    decreases |s|
  {
    hide Args, Encoded, SlashesHarmless;
    var rest := "\"" + tail;
    if s == "" {
      EncodedEmpty();
      assert "" + rest == rest && Slashes(k) + s == Slashes(k);
      if k == 0 { NothingHarmless(); }
      st := StandsAtClose(true, true, k, word, tail);
    } else {
      var more := Encoded(s[1..]) + rest;
      EncodedStart(s);
      if s[0] == '\\' {
        assert Encoded(s) + rest == [s[0]] + more && Slashes(k + 1) + s[1..] == Slashes(k) + s;
        ReadsSlash(more, true, true, k, word);
        st := StandsShort(s[1..], k + 1, word, tail);
      } else if s[0] == '"' && k > 0 {
        assert Encoded(s) + rest == "\\\"" + more;
        st := StandsBroken(s, k, word, tail);
      } else {
        HarmlessFront(k, s);
        HarmlessTail(s);
        assert Slashes(0) + s[1..] == s[1..];
        if s[0] == '"' {
          assert Encoded(s) + rest == "\\\"" + more;
          ReadsEncodedQuote(more, true, true, 0, word);
          NoSlashes(word);
          st := StandsShort(s[1..], 0, word + "\"", tail);
        } else {
          assert Encoded(s) + rest == [s[0]] + more;
          ReadsChar(s[0], more, true, true, k, word);
          st := StandsShort(s[1..], 0, word + Slashes(k) + [s[0]], tail);
        }
      }
    }
  }

  /** A quote after backslashes. */
  lemma StandsBroken(s: string, k: nat, word: string, tail: string) returns (st: Standing)
    requires s != "" && s[0] == '"' && k > 0 && tail != "" && tail[0] != '"'
    ensures StandsAfter(Args(Encoded(s) + ("\"" + tail), true, true, k, word), st, tail)
    ensures st.Size() <= |word| + k + |s| && (st.Size() < |word| + k + |s| || st.inQuotes)
  {
    hide Args, Encoded, SlashesHarmless;
    var rest := "\"" + tail;
    var more := Encoded(s[1..]) + rest;
    var w := word + Slashes((k + 1) / 2);
    EncodedStart(s);
    assert Encoded(s) + rest == "\\\"" + more;
    ReadsEncodedQuote(more, true, true, k, word);
    if k % 2 == 0 {
      st := StandsAfterPiece(s[1..], true, true, 0, w + "\"", tail);
    } else if s[1..] == "" {
      EncodedEmpty();
      assert more == rest && more[1..] == tail && more[0] == '"';
      st := Standing([], true, w + "\"");
      assert [] + Args(tail, true, true, 0, w + "\"") == Args(tail, true, true, 0, w + "\"");
    } else {
      EncodedFirst(s[1..], rest);
      st := StandsAfterPiece(s[1..], false, true, 0, w, tail);
    }
  }

  /** The last argument, read from where the reader stands inside quotes: hardly longer than the path. */
  lemma LastInQuotes(path: string, word: string)
    ensures Total(Args(WinQuote(path), true, true, 0, word)) <= |word| + |path| + 1
  {
    hide Args, NeedsQuotes;
    NoSlashes(word);
    if path == "" {
      assert WinQuote(path) == "\"" + "\"" && ("\"")[1..] == "";
      ReadsQuote("\"", true, true, 0, word);
      ReadsEnd(true, true, 0, word + "\"");
      NoSlashes(word + "\"");
    } else if NeedsQuotes(path) {
      EncodedIsReplaced(path);
      EncodedStart(path);
      assert WinQuote(path) == "\"" + (Encoded(path) + "\"");
      ReadsQuote(Encoded(path) + "\"", true, true, 0, word);
      NeverLonger(path, false, true, 0, word);
    } else {
      InQuotesReads(path, 0, word);
    }
  }

  /** Text without quotes, read inside quotes. */
  lemma {:induction false} InQuotesReads(s: string, k: nat, word: string)
    requires !NeedsQuotes(s)
    ensures Args(s, true, true, k, word) == [word + Slashes(k) + s]
    decreases |s|
  {
    hide Args;
    if s == "" {
      ReadsEnd(true, true, k, word);
      assert word + Slashes(k) + s == word + Slashes(k);
    } else {
      var more := s[1..];
      assert !NeedsQuotes(more) && s[0] !in " \t\"" by {
        forall i | 0 <= i < |more| ensures more[i] !in " \t\"" { assert s[i + 1] !in " \t\""; }
      }
      assert s == [s[0]] + more;
      if s[0] == '\\' {
        ReadsSlash(more, true, true, k, word);
        InQuotesReads(more, k + 1, word);
        assert word + Slashes(k + 1) + more == word + Slashes(k) + s;
      } else {
        NotSpecial(s[0]);
        ReadsChar(s[0], more, true, true, k, word);
        InQuotesReads(more, 0, word + Slashes(k) + [s[0]]);
        assert word + Slashes(k) + [s[0]] + Slashes(0) + more == word + Slashes(k) + s;
      }
    }
  }

  lemma LastOutside(path: string)
    ensures Total(Args(WinQuote(path), false, false, 0, "")) <= |path|
  {
    hide Args, NeedsQuotes;
    NoSlashes("");
    if path == "" {
      assert WinQuote(path) == "\"" + "\"";
      ReadsQuote("\"", false, false, 0, "");
      ClosingQuote(true, true, 0, "");
    } else if NeedsQuotes(path) {
      EncodedIsReplaced(path);
      assert WinQuote(path) == "\"" + (Encoded(path) + "\"");
      ReadsQuote(Encoded(path) + "\"", false, false, 0, "");
      NeverLonger(path, true, true, 0, "");
    } else {
      UnquotedReads(path, false, 0, "");
    }
  }

  const MIDDLE := " run -config "

  /** The middle of the command, read outside quotes. */
  lemma MiddleOutside(last: string, tail: string)
    ensures Args(MIDDLE + tail, false, true, 0, last) == [last] + (["run"] + (["-config"] + Args(tail, false, false, 0, "")))
  {
    hide Args, NeedsQuotes;
    FixedWords();
    NoSlashes(last);
    NoSlashes("");
    assert MIDDLE + tail == [' '] + ("run" + (" " + ("-config" + (" " + tail))));
    ReadsChar(' ', "run" + (" " + ("-config" + (" " + tail))), false, true, 0, last);
    UnquotedThen("run", false, 0, "", "-config" + (" " + tail));
    UnquotedThen("-config", false, 0, "", tail);
    assert "" + "run" == "run" && "" + "-config" == "-config";
  }

  lemma {:induction false} QuotelessInQuotes(s: string, word: string, tail: string)
    requires forall i :: 0 <= i < |s| ==> s[i] != '"' && s[i] != '\\'
    ensures Args(s + tail, true, true, 0, word) == Args(tail, true, true, 0, word + s)
    decreases |s|
  {
    hide Args;
    if s == "" {
      assert s + tail == tail && word + s == word;
    } else {
      assert s + tail == [s[0]] + (s[1..] + tail);
      ReadsChar(s[0], s[1..] + tail, true, true, 0, word);
      NoSlashes(word);
      QuotelessInQuotes(s[1..], word + [s[0]], tail);
      assert word + [s[0]] + s[1..] == word + s;
    }
  }

  /** From where the reader stands after a spoilt executable, the rest of the line cannot make up for it. */
  lemma SpoiltOutside(exe: string, path: string, st: Standing)
    requires st.Size() < |exe|
    ensures st.done + Args(MIDDLE + WinQuote(path), false, true, 0, st.last) != [exe, "run", "-config", path]
  {
    hide Args, WinQuote;
    var rest := Args(WinQuote(path), false, false, 0, "");
    MiddleOutside(st.last, WinQuote(path));
    LastOutside(path);
    TotalConcat(st.done, [st.last] + (["run"] + (["-config"] + rest)));
    TotalCons(st.last, ["run"] + (["-config"] + rest));
    TotalCons("run", ["-config"] + rest);
    TotalCons("-config", rest);
    ExpectedTotal(exe, path);
  }

  lemma ExpectedTotal(exe: string, path: string)
    ensures Total([exe, "run", "-config", path]) == |exe| + 10 + |path|
    ensures Total(["run", "-config", path]) == 10 + |path|
  {
    assert [exe, "run", "-config", path] == [exe] + (["run"] + (["-config"] + ([path] + [])));
    assert ["run", "-config", path] == ["run"] + (["-config"] + ([path] + []));
    TotalCons(exe, ["run"] + (["-config"] + ([path] + [])));
    TotalCons("run", ["-config"] + ([path] + []));
    TotalCons("-config", [path] + []);
    TotalCons(path, []);
  }

  /** Everything swallowed into the first argument. */
  lemma SpoiltFirst(words: seq<string>, exe: string, path: string, u: string)
    requires words != [] && u <= words[0] && Total(words) <= |u| + |path| + 1
    ensures words != [exe, "run", "-config", path]
  {
    ExpectedTotal(exe, path);
  }

  /** Or into a later one. */
  lemma SpoiltLater(done: seq<string>, words: seq<string>, exe: string, path: string, p: nat)
    requires done != [] && Total(done) <= |exe| && words != [] && p < |words[0]| && words[0][p] == ' '
    ensures done + words != [exe, "run", "-config", path]
  {
    var all := done + words;
    assert all[|done|] == words[0];
    assert forall i :: 0 <= i < 3 ==> "run"[i] != ' ';
    assert forall i :: 0 <= i < 7 ==> "-config"[i] != ' ';
    if |done| == 3 {
      assert done == [done[0]] + ([done[1]] + ([done[2]] + []));
      TotalCons(done[0], [done[1]] + ([done[2]] + []));
      TotalCons(done[1], [done[2]] + []);
      TotalCons(done[2], []);
      assert all[0] == done[0] && all[1] == done[1] && all[2] == done[2];
    }
  }

  lemma SpoiltInside(exe: string, path: string, st: Standing)
    requires st.Size() <= |exe|
    ensures st.done + Args(MIDDLE + WinQuote(path), true, true, 0, st.last) != [exe, "run", "-config", path]
  {
    hide Args, WinQuote;
    var u := st.last + MIDDLE;
    QuotelessInQuotes(MIDDLE, st.last, WinQuote(path));
    WordGrows(WinQuote(path), true, 0, u);
    LastInQuotes(path, u);
    var words := Args(WinQuote(path), true, true, 0, u);
    assert u[|st.last|] == ' ' && words[0][..|u|] == u;
    assert words[0][|st.last|] == u[|st.last|];
    if st.done == [] {
      assert st.done + words == words;
      SpoiltFirst(words, exe, path, u);
    } else {
      SpoiltLater(st.done, words, exe, path, |st.last|);
    }
  }

  lemma WindowsCommandSpoilt(exe: string, configPath: string)
    requires NeedsQuotes(exe) && !SlashesHarmless(exe)
    ensures Args(WindowsCommand(exe, configPath), false, false, 0, "") != [exe, "run", "-config", configPath]
  {
    hide Args, NeedsQuotes, SlashesHarmless, Encoded, WinQuote, Slashes;
    var tail := MIDDLE + WinQuote(configPath);
    NothingHarmless();
    assert WindowsCommand(exe, configPath) == WinQuote(exe) + tail;
    WinQuoteForm(exe, tail);
    ReadsQuote(Encoded(exe) + ("\"" + tail), false, false, 0, "");
    HalfSlashes();
    EncodedFirst(exe, "\"" + tail);
    SlashShift(0, exe);
    var st := StandsShort(exe, 0, "", tail);
    if st.inQuotes { SpoiltInside(exe, configPath, st); } else { SpoiltOutside(exe, configPath, st); }
  }

  /** The Windows service command reads as exactly its four arguments if and only if neither path needs quotes, or in one
      that does no backslash stands before a quote or at the end; the last argument may end in a backslash and a quote. */
  lemma WindowsCommandReadsIff(exe: string, configPath: string)
    ensures Args(WindowsCommand(exe, configPath), false, false, 0, "") == [exe, "run", "-config", configPath]
            <==> && (!NeedsQuotes(exe) || SlashesHarmless(exe))
                 && (configPath == "" || !NeedsQuotes(configPath) || ReadsBack(configPath))
  {
    hide Args, NeedsQuotes, SlashesHarmless, ReadsBack, WinQuote, WindowsCommand;
    if NeedsQuotes(exe) && !SlashesHarmless(exe) {
      WindowsCommandSpoilt(exe, configPath);
    } else {
      WindowsCommandSplits(exe, configPath);
      WinRoundTripIff(configPath);
      var read, last := Args(WindowsCommand(exe, configPath), false, false, 0, ""), Args(WinQuote(configPath), false, false, 0, "");
      if read == [exe, "run", "-config", configPath] { assert last == read[3..] == [configPath]; }
      if last == [configPath] { assert [exe] + (["run"] + (["-config"] + [configPath])) == [exe, "run", "-config", configPath]; }
    }
  }

  // -- the program's own rule --

  /** A program name ends at the first blank outside quotes; quotes are removed and backslashes are ordinary. */
  function Program(s: string, inQuotes: bool, word: string): (r: (string, string))
    decreases |s|
  {
    if s == "" then (word, "")
    else if s[0] == '"' then Program(s[1..], !inQuotes, word)
    else if !inQuotes && (s[0] == ' ' || s[0] == '\t') then (word, s[1..])
    else Program(s[1..], inQuotes, word + [s[0]])
  }

  /** A command line whose first word is read as a program name, as the Microsoft C startup code does. */
  function ProgramLine(s: string): seq<string> {
    [Program(s, false, "").0] + Args(Program(s, false, "").1, false, false, 0, "")
  }

  lemma {:induction false} NamesHaveNoQuote(s: string, inQuotes: bool, word: string)
    requires '"' !in word
    ensures '"' !in Program(s, inQuotes, word).0
    decreases |s|
  {
    if s != "" {
      NamesHaveNoQuote(s[1..], !inQuotes, word);
      if s[0] != '"' { NamesHaveNoQuote(s[1..], inQuotes, word + [s[0]]); }
    }
  }

  lemma {:induction false} NameReads(s: string, inQuotes: bool, word: string, tail: string)
    requires '"' !in s && (inQuotes || !NeedsQuotes(s))
    ensures Program(s + tail, inQuotes, word) == Program(tail, inQuotes, word + s)
    decreases |s|
  {
    if s == "" {
      assert s + tail == tail && word + s == word;
    } else {
      assert (s + tail)[1..] == s[1..] + tail && (s + tail)[0] == s[0];
      if !inQuotes {
        assert s[0] !in " \t\"";
        NotSpecial(s[0]);
        forall i | 0 <= i < |s[1..]| ensures s[1..][i] !in " \t\"" { assert s[i + 1] !in " \t\""; }
      }
      NameReads(s[1..], inQuotes, word + [s[0]], tail);
      assert word + [s[0]] + s[1..] == word + s;
    }
  }

  lemma {:induction false} NothingReplaced(s: string, c: char, sub: string)
    requires c !in s
    ensures Replaced(s, c, sub) == s
  {
    if s != "" { NothingReplaced(s[1..], c, sub); }
  }

  lemma NameEnds(tail: string, word: string)
    ensures Program(" " + tail, false, word) == (word, tail)
    ensures Program("\"" + tail, true, word) == Program(tail, false, word)
    ensures Program("\"" + tail, false, word) == Program(tail, true, word)
  {
    assert (" " + tail)[1..] == tail && ("\"" + tail)[1..] == tail;
  }

  lemma QuotedName(exe: string, rest: string)
    requires '"' !in exe
    ensures Program("\"" + (exe + ("\"" + rest)), false, "") == Program(rest, false, exe)
  {
    hide Program, NeedsQuotes;
    NameEnds(exe + ("\"" + rest), "");
    NameReads(exe, true, "", "\"" + rest);
    NameEnds(rest, exe);
    assert "" + exe == exe;
  }

  lemma WinQuoteIs(exe: string)
    requires '"' !in exe
    ensures exe == "" || NeedsQuotes(exe) ==> WinQuote(exe) == "\"" + (exe + "\"")
    ensures !(exe == "" || NeedsQuotes(exe)) ==> WinQuote(exe) == exe
  {
    hide NeedsQuotes, Replaced;
    NothingReplaced(exe, '"', "\\\"");
    assert "\"" + ("" + "\"") == "\"\"";
    assert "\"" + exe + "\"" == "\"" + (exe + "\"");
  }

  lemma ExecutableReads(exe: string, tail: string)
    requires '"' !in exe
    ensures Program(WinQuote(exe) + (" " + tail), false, "") == (exe, tail)
  {
    hide NeedsQuotes, Program, WinQuote;
    var rest := " " + tail;
    NameEnds(tail, exe);
    WinQuoteIs(exe);
    if exe == "" || NeedsQuotes(exe) {
      assert WinQuote(exe) + rest == "\"" + (exe + ("\"" + rest));
      QuotedName(exe, rest);
    } else {
      NameReads(exe, false, "", rest);
      assert "" + exe == exe;
    }
  }

  lemma ArgumentsRead(path: string)
    ensures Args("run -config " + WinQuote(path), false, false, 0, "") == ["run"] + (["-config"] + Args(WinQuote(path), false, false, 0, ""))
  {
    hide Args, NeedsQuotes, WinQuote;
    FixedWords();
    NoSlashes("");
    var last := WinQuote(path);
    assert "run -config " + last == "run" + (" " + ("-config" + (" " + last)));
    UnquotedThen("run", false, 0, "", "-config" + (" " + last));
    UnquotedThen("-config", false, 0, "", last);
    assert "" + "run" == "run" && "" + "-config" == "-config";
  }

  /** With its first word read as a program name, the Windows service command reads as its four words if and only if the
      executable has no quote in it and the path reads back alone. */
  lemma WindowsProgramIff(exe: string, configPath: string)
    ensures ProgramLine(WindowsCommand(exe, configPath)) == [exe, "run", "-config", configPath]
            <==> '"' !in exe && (configPath == "" || !NeedsQuotes(configPath) || ReadsBack(configPath))
  {
    hide Args, Program, NeedsQuotes, ReadsBack, WinQuote;
    var line, last := WindowsCommand(exe, configPath), WinQuote(configPath);
    assert line == WinQuote(exe) + (" " + ("run -config " + last));
    NamesHaveNoQuote(line, false, "");
    if '"' !in exe {
      ExecutableReads(exe, "run -config " + last);
      ArgumentsRead(configPath);
      WinRoundTripIff(configPath);
      var read := Args(last, false, false, 0, "");
      assert ProgramLine(line) == [exe] + (["run"] + (["-config"] + read));
      assert ProgramLine(line)[3..] == read && [exe, "run", "-config", configPath][3..] == [configPath];
      if read == [configPath] { assert [exe] + (["run"] + (["-config"] + [configPath])) == [exe, "run", "-config", configPath]; }
    } else {
      assert ProgramLine(line)[0] == Program(line, false, "").0;
    }
  }
}
