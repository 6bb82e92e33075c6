/** The reader that the Unix service command is written for: how systemd splits an ExecStart line into arguments
    (systemd.syntax, section "Quoting", and systemd.service, section "Command lines"). */
module Systemd {
  import opened Text
  import opened Quote

  // -- escapes --

  function Digit(c: char): (r: nat)
    ensures c == '\'' ==> r == 16
  {
    if '0' <= c <= '9' then (c - '0') as nat
    else if 'a' <= c <= 'f' then (c - 'a') as nat + 10
    else if 'A' <= c <= 'F' then (c - 'A') as nat + 10
    else 16
  }

  /** The number at the start of `s`, all of whose first n characters are digits of the base. */
  function Number(s: string, n: nat, base: nat): (r: Option<nat>)
    requires base <= 16
    ensures r.Some? ==> n <= |s| && forall i :: 0 <= i < n ==> s[i] != '\''
  {
    if n == 0 then Some(0)
    else if |s| < n || Digit(s[n - 1]) >= base then None
    else
      var front := Number(s, n - 1, base);
      if front.Some? then Some(front.value * base + Digit(s[n - 1])) else None
  }

  datatype Escape = Escape(meant: char, size: nat)

  function Numbered(s: string, first: nat, n: nat, base: nat, limit: nat): (r: Option<Escape>)
    requires first <= |s| && base <= 16 && limit <= 0x10FFFF
    ensures r.Some? ==> r.value.size == first + n <= |s| && forall i :: first <= i < first + n ==> s[i] != '\''
  {
    var v := Number(s[first..], n, base);
    if v.Some? && 0 < v.value <= limit && !(0xD800 <= v.value < 0xE000) then
      assert forall i :: first <= i < first + n ==> s[i] == s[first..][i - first];
      Some(Escape(v.value as char, first + n))
    else None
  }

  /** What a backslash before `s` and the start of `s` stand for together. */
  function Meaning(s: string): (r: Option<Escape>)
    ensures r.Some? ==> 0 < r.value.size <= |s|
    ensures r.Some? && s[0] == '\'' ==> r.value == Escape('\'', 1)
    ensures r.Some? && s[0] != '\'' ==> forall i :: 0 <= i < r.value.size ==> s[i] != '\''
  {
    if s == "" then None
    else
      match s[0]
      case 'a' => Some(Escape(7 as char, 1))
      case 'b' => Some(Escape(8 as char, 1))
      case 'f' => Some(Escape(12 as char, 1))
      case 'n' => Some(Escape('\n', 1))
      case 'r' => Some(Escape('\r', 1))
      case 't' => Some(Escape('\t', 1))
      case 'v' => Some(Escape(11 as char, 1))
      case 's' => Some(Escape(' ', 1))
      case '\\' => Some(Escape('\\', 1))
      case '"' => Some(Escape('"', 1))
      case '\'' => Some(Escape('\'', 1))
      case 'x' => Numbered(s, 1, 2, 16, 0xFF)
      case 'u' => Numbered(s, 1, 4, 16, 0xFFFF)
      case 'U' => Numbered(s, 1, 8, 16, 0x10FFFF)
      case _ => Numbered(s, 0, 3, 8, 0xFF)
  }

  // -- the reader --

  predicate EndsLine(c: char) { c == '\n' || c == '\r' }

  predicate Parts(c: char) { c == ' ' || c == '\t' || EndsLine(c) }

  /** Splits a line into words and removes quotes; `word` is what has been read of the current word. With `strict` a
      quotation must be a whole word, as the manual has it; the parser also takes one inside a word. None stands for a
      line that is refused or that goes on elsewhere. */
  function Split(s: string, mode: Mode, word: string, strict: bool): Option<seq<string>>
    decreases |s|
  {
    if s == "" then
      match mode
      case Between => Some([])
      case Plain => Some([word])
      case _ => None
    else
      var c, rest := s[0], s[1..];
      var quoted := mode.Single? || mode.Double?;
      if c == '\\' then
        var e := Meaning(rest);
        if e.None? then None
        else Split(rest[e.value.size..], if mode.Between? then Plain else mode, word + [e.value.meant], strict)
      else if quoted then
        if c == (if mode.Single? then '\'' else '"') then
          if strict && rest != "" && !Parts(rest[0]) then None else Split(rest, Plain, word, strict)
        else if EndsLine(c) then None
        else Split(rest, mode, word + [c], strict)
      else if EndsLine(c) then
        if mode.Between? then Some([]) else Some([word])
      else if Parts(c) then
        if mode.Between? then Split(rest, Between, "", strict) else Ended(word, Split(rest, Between, "", strict))
      else if c == '\'' || c == '"' then
        if strict && mode.Plain? then None else Split(rest, if c == '\'' then Single else Double, word, strict)
      else if c == ';' && mode.Between? && (rest == "" || Parts(rest[0])) then None
      else Split(rest, Plain, word + [c], strict)
  }

  /** A specifier starts with a percent sign before a letter or digit, a variable with a dollar sign before a brace. */
  predicate Starts(sign: char, c: char) {
    if sign == '%' then ('0' <= c <= '9') || ('a' <= c <= 'z') || ('A' <= c <= 'Z') else c == '{'
  }

  /** A doubled sign in a word stands for the sign, and one that starts nothing for itself; what a specifier or a
      variable stands for is not text of the line. */
  function Undoubled(w: string, sign: char): Option<string>
    decreases |w|
  {
    if w == "" then Some("")
    else if w[0] != sign || |w| == 1 || (w[1] != sign && !Starts(sign, w[1])) then Before([w[0]], Undoubled(w[1..], sign))
    else if w[1] == sign then Before([sign], Undoubled(w[2..], sign))
    else None
  }

  /** A variable can also be a word of its own. */
  predicate IsVariable(w: string) {
    w != "" && w[0] == '$' && (|w| == 1 || (w[1] != '$' && w[1] != '{'))
  }

  /** What a word stands for: specifiers first, when the unit is loaded, then variables, when it is started. */
  function Meant(w: string): Option<string> {
    var specified := Undoubled(w, '%');
    if specified.None? || IsVariable(specified.value) then None else Undoubled(specified.value, '$')
  }

  function Before(front: string, more: Option<string>): Option<string> {
    if more.Some? then Some(front + more.value) else None
  }

  function AllMeant(words: seq<string>): Option<seq<string>> {
    if words == [] then Some([])
    else
      var first := Meant(words[0]);
      if first.Some? then Ended(first.value, AllMeant(words[1..])) else None
  }

  function Arguments(line: string, strict: bool): Option<seq<string>> {
    var words := Split(line, Between, "", strict);
    if words.Some? then AllMeant(words.value) else None
  }

  predicate IsPrefix(c: char) { c == '@' || c == '-' || c == ':' || c == '+' || c == '!' || c == '|' }

  /** The executable's own restrictions: an absolute path or a plain file name, no directory, and no quote, backslash or
      control character in it. */
  predicate Nameable(path: string) {
    && path != "" && path[|path| - 1] != '/'
    && (path[0] == '/' || (path != "." && path != ".." && forall i :: 0 <= i < |path| ==> path[i] != '/'))
    && forall i :: 0 <= i < |path| ==> path[i] >= ' ' && path[i] != 127 as char && path[i] != '"' && path[i] != '\'' && path[i] != '\\'
  }

  /** The command of an ExecStart line: the first word must carry none of the prefixes and name an executable. */
  function ExecStart(line: string, strict: bool): Option<seq<string>> {
    var words := Split(line, Between, "", strict);
    if words.Some? && words.value != [] && words.value[0] != "" && !IsPrefix(words.value[0][0])
       && Undoubled(words.value[0], '%').Some? && Nameable(Undoubled(words.value[0], '%').value)
    then AllMeant(words.value) else None
  }

  // -- which text survives --

  /** Not rewritten by escapes or the end of the line; with `strict` a quote inside a quotation is no text either. */
  predicate Clean(c: char, strict: bool) {
    c != '\\' && !EndsLine(c) && (strict ==> c != '\'')
  }

  /** No sign is doubled or starts anything. */
  predicate Inert(w: string, sign: char) {
    forall i :: 0 <= i < |w| - 1 && w[i] == sign ==> w[i + 1] != sign && !Starts(sign, w[i + 1])
  }

  predicate AsIs(w: string) {
    Inert(w, '%') && Inert(w, '$') && (w != "" ==> w[0] != '$')
  }

  predicate Survives(s: string, strict: bool) {
    AllClean(s, strict) && AsIs(s)
  }

  predicate AllClean(s: string, strict: bool) {
    forall i :: 0 <= i < |s| ==> Clean(s[i], strict)
  }

  lemma CleanTail(s: string, strict: bool)
    requires s != ""
    ensures AllClean(s, strict) <==> Clean(s[0], strict) && AllClean(s[1..], strict)
  {
    assert forall i :: 0 <= i < |s| - 1 ==> s[1..][i] == s[i + 1];
    if Clean(s[0], strict) && AllClean(s[1..], strict) {
      forall i | 0 <= i < |s| ensures Clean(s[i], strict) {
        if i > 0 { assert Clean(s[1..][i - 1], strict); }
      }
    }
  }

  // -- single steps of the reader --

  lemma InSingle(c: char, rest: string, word: string, strict: bool)
    requires c != '\\'
    ensures Split([c] + rest, Single, word, strict) ==
            if c == '\'' then
              if strict && rest != "" && !Parts(rest[0]) then None else Split(rest, Plain, word, strict)
            else if EndsLine(c) then None
            else Split(rest, Single, word + [c], strict)
  {
    assert ([c] + rest)[1..] == rest;
  }

  lemma Escapes(rest: string, mode: Mode, word: string, strict: bool)
    requires !mode.Between?
    ensures Split("\\" + rest, mode, word, strict) ==
            var e := Meaning(rest);
            if e.None? then None else Split(rest[e.value.size..], mode, word + [e.value.meant], strict)
  {
    assert ("\\" + rest)[1..] == rest;
  }

  lemma OpensSingle(rest: string, mode: Mode, word: string, strict: bool)
    requires mode.Between? || (mode.Plain? && !strict)
    ensures Split("'" + rest, mode, word, strict) == Split(rest, Single, word, strict)
  {
    assert ("'" + rest)[1..] == rest;
  }

  lemma BlankEnds(rest: string, word: string, strict: bool)
    ensures Split(" " + rest, Plain, word, strict) == Ended(word, Split(rest, Between, "", strict))
  {
    assert (" " + rest)[1..] == rest;
  }

  lemma EndOfText(word: string, strict: bool)
    ensures Split("", Plain, word, strict) == Some([word])
  {
  }

  /** An escaped quote in the middle of a quotation, as quoting writes it. */
  lemma EncodedQuote(more: string, word: string, strict: bool)
    ensures Split("'\\''" + more, Single, word, strict) == if strict then None else Split(more, Single, word + "'", strict)
  {
    hide Split;
    var rest := "\\'" + ("'" + more);
    assert "'\\''" + more == ['\''] + rest;
    InSingle('\'', rest, word, strict);
    if !strict {
      assert rest == "\\" + ("''" + more);
      Escapes("''" + more, Plain, word, strict);
      EscapedQuote("'" + more);
      assert "'" + ("'" + more) == "''" + more;
      OpensSingle(more, Plain, word + "'", strict);
    }
  }

  lemma EscapedQuote(more: string)
    ensures Meaning("'" + more) == Some(Escape('\'', 1)) && ("'" + more)[1..] == more
  {
  }

  // -- clean text --

  /** Clean text between quotes is read as itself. */
  lemma {:induction false} CleanReads(s: string, rest: string, word: string, strict: bool)
    requires AllClean(s, strict)
    ensures Split(Replaced(s, '\'', "'\\''") + rest, Single, word, strict) == Split(rest, Single, word + s, strict)
    decreases |s|
  {
    hide Split, AllClean;
    if s == "" {
      assert Replaced(s, '\'', "'\\''") + rest == rest && word + s == word;
    } else {
      var more := Replaced(s[1..], '\'', "'\\''") + rest;
      CleanTail(s, strict);
      CleanReads(s[1..], rest, word + [s[0]], strict);
      assert word + [s[0]] + s[1..] == word + s;
      if s[0] == '\'' {
        assert Replaced(s, '\'', "'\\''") + rest == "'\\''" + more;
        EncodedQuote(more, word, strict);
      } else {
        assert Replaced(s, '\'', "'\\''") + rest == [s[0]] + more;
        InSingle(s[0], more, word, strict);
      }
    }
  }

  /** A quoted clean text before a blank or the end of the line is one word. */
  lemma QuotedReads(s: string, tail: string, strict: bool)
    requires AllClean(s, strict) && (tail == "" || Parts(tail[0]))
    ensures Split(ShellQuote(s) + tail, Between, "", strict) == Split(tail, Plain, s, strict)
  {
    hide Split, AllClean;
    var inner := Replaced(s, '\'', "'\\''") + ("'" + tail);
    assert ShellQuote(s) + tail == "'" + inner;
    OpensSingle(inner, Between, "", strict);
    CleanReads(s, "'" + tail, "", strict);
    assert "" + s == s && "'" + tail == ['\''] + tail;
    InSingle('\'', tail, s, strict);
  }

  // -- doubled signs --

  lemma InertTail(w: string, sign: char)
    requires w != ""
    ensures Inert(w, sign) <==> Inert(w[1..], sign) && !(w[0] == sign && |w| > 1 && (w[1] == sign || Starts(sign, w[1])))
  {
    assert forall i :: 0 <= i < |w| - 1 ==> w[1..][i] == w[i + 1];
    if Inert(w[1..], sign) && !(w[0] == sign && |w| > 1 && (w[1] == sign || Starts(sign, w[1]))) {
      forall i | 0 <= i < |w| - 1 && w[i] == sign ensures w[i + 1] != sign && !Starts(sign, w[i + 1]) {
        if i > 0 { assert w[1..][i - 1] == sign; }
      }
    }
    if Inert(w, sign) {
      forall i | 0 <= i < |w| - 2 && w[1..][i] == sign ensures w[1..][i + 1] != sign && !Starts(sign, w[1..][i + 1]) {
        assert w[i + 1] == sign;
      }
    }
  }

  lemma {:induction false} UndoubledShrinks(w: string, sign: char)
    ensures Undoubled(w, sign).Some? ==>
              var x := Undoubled(w, sign).value; |x| <= |w| && (|x| == |w| ==> x == w && Inert(w, sign))
    decreases |w|
  {
    hide Inert, Starts;
    if w != "" {
      InertTail(w, sign);
      UndoubledShrinks(w[1..], sign);
      if |w| > 1 { UndoubledShrinks(w[2..], sign); }
      assert [w[0]] + w[1..] == w;
    } else {
      assert Inert(w, sign) by { NothingInert(sign); }
    }
  }

  lemma NothingInert(sign: char)
    ensures Inert("", sign)
  {
  }

  /** Plain text stays in front, whatever follows. */
  lemma {:induction false} UndoubledInert(p: string, v: string, sign: char)
    requires Inert(p, sign)
    ensures Undoubled(p + v, sign).Some? ==> p <= Undoubled(p + v, sign).value
    ensures Undoubled(p, sign) == Some(p)
    decreases |p|
  {
    hide Inert, Starts;
    if p != "" {
      var w := p + v;
      InertTail(p, sign);
      UndoubledInert(p[1..], v, sign);
      assert w[1..] == p[1..] + v && [p[0]] + p[1..] == p;
      assert |p| > 1 ==> w[1] == p[1];
      if |w| > 1 && w[0] == sign == w[1] { assert |p| == 1; }
    }
  }

  /** What undoubling makes of a text with a quote in it: nothing crosses the quote. */
  function Joined(x: Option<string>, y: Option<string>): Option<string> {
    if x.Some? && y.Some? then Some(x.value + ("'" + y.value)) else None
  }

  lemma JoinedAfter(front: string, x: Option<string>, y: Option<string>)
    ensures Joined(Before(front, x), y) == Before(front, Joined(x, y))
  {
    if x.Some? && y.Some? { assert front + x.value + ("'" + y.value) == front + (x.value + ("'" + y.value)); }
  }

  lemma UndoubledQuote(v: string, sign: char)
    requires sign != '\''
    ensures Undoubled("'" + v, sign) == Joined(Undoubled("", sign), Undoubled(v, sign))
  {
    assert ("'" + v)[1..] == v;
    var y := Undoubled(v, sign);
    if y.Some? { assert "" + ("'" + y.value) == ['\''] + y.value; }
  }

  lemma UndoubledStep(u: string, v: string, sign: char)
    requires sign != '\'' && u != ""
    ensures var w := u + ("'" + v);
            Undoubled(w, sign) ==
            if u[0] != sign || |u| == 1 || (u[1] != sign && !Starts(sign, u[1])) then Before([u[0]], Undoubled(u[1..] + ("'" + v), sign))
            else if u[1] == sign then Before([sign], Undoubled(u[2..] + ("'" + v), sign))
            else None
  {
    var w := u + ("'" + v);
    assert !Starts(sign, '\'');
    assert w[1..] == u[1..] + ("'" + v);
    if |u| > 1 { assert w[2..] == u[2..] + ("'" + v) && w[1] == u[1]; } else { assert w[1] == '\''; }
  }

  /** Signs before a quote make no pair with it. */
  lemma {:induction false} UndoubledApart(u: string, v: string, sign: char)
    requires sign != '\''
    ensures Undoubled(u + ("'" + v), sign) == Joined(Undoubled(u, sign), Undoubled(v, sign))
    decreases |u|
  {
    hide Starts, Joined, Before;
    var y := Undoubled(v, sign);
    if u == "" {
      assert u + ("'" + v) == "'" + v;
      UndoubledQuote(v, sign);
    } else {
      UndoubledStep(u, v, sign);
      UndoubledApart(u[1..], v, sign);
      JoinedAfter([u[0]], Undoubled(u[1..], sign), y);
      if |u| > 1 {
        UndoubledApart(u[2..], v, sign);
        JoinedAfter([sign], Undoubled(u[2..], sign), y);
      }
      NothingJoined(y);
    }
  }

  lemma NothingJoined(y: Option<string>)
    ensures Joined(None, y) == None
  {
  }

  lemma MeantShrinks(w: string)
    ensures Meant(w).Some? ==> |Meant(w).value| <= |w| && (|Meant(w).value| == |w| ==> Meant(w).value == w && AsIs(w))
  {
    hide Undoubled, Inert;
    UndoubledShrinks(w, '%');
    var specified := Undoubled(w, '%');
    if specified.Some? {
      UndoubledShrinks(specified.value, '$');
      if specified.value == w && Inert(w, '$') && w != "" && w[0] == '$' { LeadingDollar(w); }
    }
  }

  lemma LeadingDollar(w: string)
    requires Inert(w, '$') && w != "" && w[0] == '$'
    ensures IsVariable(w)
  {
    if |w| > 1 { assert w[0] == '$' && w[0 + 1] != '$' && !Starts('$', w[0 + 1]); }
  }

  lemma MeantAsIs(p: string, v: string)
    requires AsIs(p)
    ensures Meant(p + v).Some? ==> p <= Meant(p + v).value
    ensures Meant(p) == Some(p)
  {
    hide Undoubled, Inert;
    UndoubledInert(p, v, '%');
    var specified := Undoubled(p + v, '%');
    if specified.Some? {
      var more := specified.value[|p|..];
      assert specified.value == p + more;
      UndoubledInert(p, more, '$');
    }
    UndoubledInert(p, "", '$');
  }

  lemma MeantApart(u: string, v: string)
    ensures Meant(u + ("'" + v)).Some? ==> Meant(u).Some? && Meant(u).value + "'" <= Meant(u + ("'" + v)).value
  {
    hide Undoubled;
    UndoubledApart(u, v, '%');
    var whole, x, y := Undoubled(u + ("'" + v), '%'), Undoubled(u, '%'), Undoubled(v, '%');
    if whole.Some? {
      UndoubledApart(x.value, y.value, '$');
      VariableApart(x.value, y.value);
    }
  }

  lemma VariableApart(x: string, y: string)
    ensures IsVariable(x) ==> IsVariable(x + ("'" + y))
  {
  }

  // -- other text is spoilt --

  /** Reading goes on from the word it has. */
  lemma {:induction false} WordGrows(s: string, mode: Mode, word: string, strict: bool)
    requires !mode.Between?
    ensures var r := Split(s, mode, word, strict); r.Some? ==> r.value != [] && word <= r.value[0]
    decreases |s|
  {
    if s != "" {
      var c, rest := s[0], s[1..];
      if c == '\\' {
        var e := Meaning(rest);
        if e.Some? { WordGrows(rest[e.value.size..], mode, word + [e.value.meant], strict); }
      } else {
        WordGrows(rest, Plain, word, strict);
        WordGrows(rest, Single, word, strict);
        WordGrows(rest, Double, word, strict);
        WordGrows(rest, mode, word + [c], strict);
        WordGrows(rest, Plain, word + [c], strict);
      }
    }
  }

  /** How a stretch without quotes is read up to the quote after it: refused, or as `read`, a backslash at its end
      possibly having eaten the quote. */
  datatype Stretch = Refused | Read(read: string, ate: bool)

  ghost predicate Tells(r: Option<seq<string>>, st: Stretch, rest: string, word: string, strict: bool)
    requires rest != ""
  {
    match st
    case Refused => r == None
    case Read(read, ate) =>
      r == if ate then Split(rest[1..], Single, word + read + "'", strict) else Split(rest, Single, word + read, strict)
  }

  /** A stretch gets shorter, unless no backslash and no line end is in it. */
  ghost predicate Shrinks(st: Stretch, a: string) {
    st.Read? ==>
      && |st.read| <= |a|
      && (|st.read| == |a| ==> st.read == a && !st.ate && forall i :: 0 <= i < |a| ==> a[i] != '\\' && !EndsLine(a[i]))
  }

  lemma {:induction false} StretchReads(a: string, rest: string, word: string, strict: bool) returns (st: Stretch)
    requires '\'' !in a && rest != "" && rest[0] == '\''
    ensures Tells(Split(a + rest, Single, word, strict), st, rest, word, strict) && Shrinks(st, a)
    decreases |a|
  {
    hide Split, Meaning;
    if a == "" {
      st := Read("", false);
      assert a + rest == rest && word + "" == word;
    } else {
      var more := a[1..] + rest;
      assert a + rest == [a[0]] + more && '\'' !in a[1..];
      if a[0] == '\\' {
        Escapes(more, Single, word, strict);
        st := EscapeReads(a, rest, word, strict);
      } else {
        InSingle(a[0], more, word, strict);
        if EndsLine(a[0]) {
          st := Refused;
        } else {
          st := StretchReads(a[1..], rest, word + [a[0]], strict);
          st := Prefixed(st, a, 1, a[0], rest, word, strict, Split(a + rest, Single, word, strict));
        }
      }
    }
  }

  /** An escape in a stretch stays in it, but for a backslash at its end. */
  lemma {:induction false} EscapeReads(a: string, rest: string, word: string, strict: bool) returns (st: Stretch)
    requires '\'' !in a && rest != "" && rest[0] == '\'' && a != "" && a[0] == '\\'
    ensures Tells(Split(a + rest, Single, word, strict), st, rest, word, strict) && Shrinks(st, a)
    decreases |a|, 0
  {
    hide Split, Meaning;
    var more := a[1..] + rest;
    assert a + rest == "\\" + more;
    Escapes(more, Single, word, strict);
    var e := Meaning(more);
    if e.None? {
      st := Refused;
    } else if |a| == 1 {
      assert more == rest;
      st := Read("", true);
      assert word + "" + "'" == word + "'";
    } else {
      var n := e.value.size;
      assert more[0] == a[1];
      assert more[|a| - 1] == rest[0];
      assert n < |a|;
      assert more[n..] == a[n + 1..] + rest && '\'' !in a[n + 1..];
      st := StretchReads(a[n + 1..], rest, word + [e.value.meant], strict);
      st := Prefixed(st, a, n + 1, e.value.meant, rest, word, strict, Split(a + rest, Single, word, strict));
    }
  }

  /** Puts the character read for the first n ones in front. */
  lemma Prefixed(st: Stretch, a: string, n: nat, c: char, rest: string, word: string, strict: bool, r: Option<seq<string>>)
    returns (longer: Stretch)
    requires rest != "" && 0 < n <= |a| && (n == 1 ==> c == a[0] && c != '\\' && !EndsLine(c))
    requires Tells(r, st, rest, word + [c], strict) && Shrinks(st, a[n..])
    ensures Tells(r, longer, rest, word, strict) && Shrinks(longer, a)
  {
    hide Split;
    if st.Refused? {
      longer := Refused;
    } else {
      longer := Read([c] + st.read, st.ate);
      assert word + [c] + st.read == word + longer.read;
      if n == 1 {
        assert [a[0]] + a[1..] == a;
        assert forall i :: 1 <= i < |a| ==> a[i] == a[1..][i - 1];
      }
    }
  }

  lemma AsIsPrefix(s: string, i: nat)
    requires i <= |s| && AsIs(s)
    ensures AsIs(s[..i])
  {
  }

  /** The first place where a text stops surviving. */
  lemma {:induction false} FirstSpoiling(s: string, strict: bool) returns (i: nat)
    requires !Survives(s, strict)
    ensures i < |s| && Survives(s[..i], strict) && !Survives(s[..i + 1], strict)
    decreases |s|
  {
    var n := |s| - 1;
    if s == "" {
      assert false;
    } else if Survives(s[..n], strict) {
      i := n;
      assert s[..n + 1] == s;
    } else {
      i := FirstSpoiling(s[..n], strict);
      assert s[..n][..i] == s[..i] && s[..n][..i + 1] == s[..i + 1];
    }
  }

  lemma {:induction false} SplitAtQuote(t: string) returns (a: string, b: string)
    ensures t == a + b && '\'' !in a && (b == "" || b[0] == '\'')
    ensures Replaced(t, '\'', "'\\''") == a + Replaced(b, '\'', "'\\''")
    decreases |t|
  {
    if t == "" || t[0] == '\'' {
      a, b := "", t;
    } else {
      a, b := SplitAtQuote(t[1..]);
      a := [t[0]] + a;
    }
  }

  lemma {:induction false} ReplacedConcat(s: string, t: string, c: char, sub: string)
    ensures Replaced(s + t, c, sub) == Replaced(s, c, sub) + Replaced(t, c, sub)
    decreases |s|
  {
    if s == "" {
      assert s + t == t;
    } else {
      assert (s + t)[1..] == s[1..] + t;
      ReplacedConcat(s[1..], t, c, sub);
    }
  }

  /** Not the word `s`, whatever it is. */
  ghost predicate Spoils(r: Option<seq<string>>, s: string) {
    r.Some? ==> r.value != [] && Meant(r.value[0]) != Some(s)
  }

  /** A stretch after surviving text comes out shorter than it is. */
  ghost predicate FallsShort(p: string, a: string, read: string) {
    |read| <= |a| && (|read| == |a| ==> read == a && !AsIs(p + a))
  }

  lemma MeantFallsShort(p: string, a: string, read: string)
    requires AsIs(p) && FallsShort(p, a, read)
    ensures Meant(p + read).Some? ==> p <= Meant(p + read).value && |Meant(p + read).value| < |p| + |a|
  {
    hide AsIs, Meant;
    MeantAsIs(p, read);
    MeantShrinks(p + read);
  }

  /** A word that has a quote where `s` has none. */
  lemma MisplacedQuote(p: string, a: string, b: string, read: string, r: Option<seq<string>>)
    requires AsIs(p) && '\'' !in a && FallsShort(p, a, read)
    requires r.Some? ==> r.value != [] && p + read + "'" <= r.value[0]
    ensures Spoils(r, p + a + b)
  {
    hide AsIs, Meant, FallsShort;
    if r.Some? {
      var w := r.value[0];
      var v := w[|p + read| + 1..];
      assert w == (p + read) + ("'" + v);
      MeantApart(p + read, v);
      MeantFallsShort(p, a, read);
      if Meant(w).Some? {
        var o := |Meant(p + read).value|;
        assert (Meant(p + read).value + "'")[o] == '\'';
        assert Meant(w).value[o] == '\'';
        assert |p| <= o < |p| + |a| && (p + a + b)[o] == a[o - |p|];
      }
    }
  }

  /** Text that does not survive is lost at the first word. */
  lemma TextSpoils(s: string, tail: string, strict: bool)
    requires !Survives(s, strict) && (tail == "" || tail[0] == ' ')
    ensures Spoils(Split(ShellQuote(s) + tail, Between, "", strict), s)
  {
    hide Split, AllClean, AsIs, Replaced;
    var i := FirstSpoiling(s, strict);
    var p, t := s[..i], s[i..];
    assert s == p + t && s[..i + 1] == p + [t[0]];
    ReplacedConcat(p, t, '\'', "'\\''");
    var after := Replaced(t, '\'', "'\\''") + ("'" + tail);
    var inner := Replaced(p, '\'', "'\\''") + after;
    assert ShellQuote(s) + tail == "'" + inner;
    OpensSingle(inner, Between, "", strict);
    CleanReads(p, after, "", strict);
    assert "" + p == p;
    RestSpoils(p, t, tail, strict);
  }

  lemma CleanFront(p: string, c: char, strict: bool)
    requires AllClean(p, strict)
    ensures AllClean(p + [c], strict) <==> Clean(c, strict)
  {
    assert (p + [c])[|p|] == c;
  }

  lemma InertQuote(p: string, sign: char)
    requires Inert(p, sign) && (sign == '%' || sign == '$')
    ensures Inert(p + "'", sign)
  {
    var w := p + "'";
    forall i | 0 <= i < |w| - 1 && w[i] == sign ensures w[i + 1] != sign && !Starts(sign, w[i + 1]) {
      if i + 1 < |p| { assert p[i] == sign && p[i + 1] == w[i + 1]; }
    }
  }

  lemma QuoteAsIs(p: string)
    requires AsIs(p)
    ensures AsIs(p + "'")
  {
    InertQuote(p, '%');
    InertQuote(p, '$');
  }

  /** What a stretch read in full leaves to be undoubled. */
  lemma StretchFallsShort(p: string, a: string, st: Stretch, strict: bool)
    requires Survives(p, strict) && a != "" && !Survives(p + [a[0]], strict) && '\'' !in a
    requires st.Read? && Shrinks(st, a)
    ensures FallsShort(p, a, st.read)
  {
    hide AsIs, AllClean;
    if |st.read| == |a| {
      CleanFront(p, a[0], strict);
      assert Clean(a[0], strict);
      assert (p + a)[..|p| + 1] == p + [a[0]];
      if AsIs(p + a) { AsIsPrefix(p + a, |p| + 1); }
    }
  }

  lemma RestSpoils(p: string, t: string, tail: string, strict: bool)
    requires Survives(p, strict) && t != "" && !Survives(p + [t[0]], strict) && (tail == "" || tail[0] == ' ')
    ensures Spoils(Split(Replaced(t, '\'', "'\\''") + ("'" + tail), Single, p, strict), p + t)
  {
    hide Split, AllClean, AsIs, Spoils, FallsShort, Shrinks;
    var r := Split(Replaced(t, '\'', "'\\''") + ("'" + tail), Single, p, strict);
    var a, b := SplitAtQuote(t);
    var rest := Replaced(b, '\'', "'\\''") + ("'" + tail);
    assert Replaced(t, '\'', "'\\''") + ("'" + tail) == a + rest;
    assert p + t == p + a + b;
    if a == "" {
      QuoteAsIs(p);
      CleanFront(p, '\'', strict);
      assert p + [t[0]] == p + "'" && a + rest == rest;
      QuoteReads(b, tail, p, strict);
      RefusedSpoils(p + t);
    } else {
      var st := StretchReads(a, rest, p, strict);
      if st.Refused? {
        RefusedSpoils(p + t);
      } else {
        assert a[0] == t[0];
        StretchFallsShort(p, a, st, strict);
        StretchSpoils(p, a, b, st, tail, r, strict);
      }
    }
  }

  lemma StretchSpoils(p: string, a: string, b: string, st: Stretch, tail: string, r: Option<seq<string>>, strict: bool)
    requires AsIs(p) && '\'' !in a && st.Read? && FallsShort(p, a, st.read)
    requires (b == "" || b[0] == '\'') && (tail == "" || tail[0] == ' ')
    requires Tells(r, st, Replaced(b, '\'', "'\\''") + ("'" + tail), p, strict)
    ensures Spoils(r, p + a + b)
  {
    hide Split, AsIs, Spoils, FallsShort;
    var rest := Replaced(b, '\'', "'\\''") + ("'" + tail);
    if st.ate {
      WordGrows(rest[1..], Single, p + st.read + "'", strict);
      MisplacedQuote(p, a, b, st.read, r);
    } else if b == "" {
      ClosesShort(p, a, st.read, rest, tail, r, strict);
      assert p + a + b == p + a;
    } else {
      QuoteReads(b, tail, p + st.read, strict);
      if !strict { WordGrows(Replaced(b[1..], '\'', "'\\''") + ("'" + tail), Single, p + st.read + "'", strict); }
      MisplacedQuote(p, a, b, st.read, r);
    }
  }

  lemma RefusedSpoils(s: string)
    ensures Spoils(None, s)
  {
  }

  /** The next quote of the text itself. */
  lemma QuoteReads(b: string, tail: string, word: string, strict: bool)
    requires b != "" && b[0] == '\''
    ensures var more := Replaced(b[1..], '\'', "'\\''") + ("'" + tail);
            Split(Replaced(b, '\'', "'\\''") + ("'" + tail), Single, word, strict) ==
            if strict then None else Split(more, Single, word + "'", strict)
  {
    hide Split;
    var more := Replaced(b[1..], '\'', "'\\''") + ("'" + tail);
    assert Replaced(b, '\'', "'\\''") + ("'" + tail) == "'\\''" + more;
    EncodedQuote(more, word, strict);
  }

  /** The closing quote ends a word that comes out too short. */
  lemma ClosesShort(p: string, a: string, read: string, rest: string, tail: string, r: Option<seq<string>>, strict: bool)
    requires AsIs(p) && (tail == "" || tail[0] == ' ') && rest == Replaced("", '\'', "'\\''") + ("'" + tail)
    requires FallsShort(p, a, read) && r == Split(rest, Single, p + read, strict)
    ensures Spoils(r, p + a)
  {
    hide Split, AsIs, Meant, FallsShort;
    assert rest == ['\''] + tail;
    InSingle('\'', tail, p + read, strict);
    if tail == "" {
      EndOfText(p + read, strict);
    } else {
      assert tail == " " + tail[1..];
      BlankEnds(tail[1..], p + read, strict);
    }
    MeantFallsShort(p, a, read);
  }

  // -- the round trips --

  /** systemd reads a quoted text back if and only if the text has no backslash and no line end, no percent or dollar sign
      in it is doubled or starts a specifier or a variable, and, by the manual's rule for quotations, it has no single
      quote. */
  lemma SystemdRoundTripIff(s: string, strict: bool)
    ensures Arguments(ShellQuote(s), strict) == Some([s]) <==> Survives(s, strict)
  {
    hide Split, AllClean, AsIs, Meant, ShellQuote;
    assert ShellQuote(s) + "" == ShellQuote(s);
    if Survives(s, strict) {
      QuotedReads(s, "", strict);
      EndOfText(s, strict);
      MeantAsIs(s, "");
      OneMeant(s, []);
    } else {
      TextSpoils(s, "", strict);
      var r := Split(ShellQuote(s), Between, "", strict);
      FirstSpoilt(r, s, []);
      assert [s] + [] == [s];
    }
  }

  /** A spoilt first word stays spoilt. */
  lemma FirstSpoilt(r: Option<seq<string>>, s: string, more: seq<string>)
    requires Spoils(r, s)
    ensures r.Some? ==> AllMeant(r.value) != Some([s] + more)
  {
    hide Meant;
    if r.Some? && Meant(r.value[0]).Some? && AllMeant(r.value[1..]).Some? {
      assert AllMeant(r.value).value[0] == Meant(r.value[0]).value;
      assert ([s] + more)[0] == s;
    }
  }

  lemma OneMeant(w: string, more: seq<string>)
    ensures var first := Meant(w);
            AllMeant([w] + more) == if first.Some? then Ended(first.value, AllMeant(more)) else None
    ensures AllMeant([]) == Some([]) && [w] + [] == [w]
  {
    assert ([w] + more)[1..] == more;
  }

  predicate Unmarked(s: string) {
    forall i :: 0 <= i < |s| ==> s[i] != '\'' && s[i] != '"' && s[i] != ';' && !Parts(s[i])
  }

  /** Unquoted clean text reads as itself. */
  lemma {:induction false} UnquotedReads(s: string, started: bool, word: string, tail: string, strict: bool)
    requires AllClean(s, strict) && Unmarked(s) && (s == "" ==> started)
    ensures Split(s + (" " + tail), if started then Plain else Between, word, strict) ==
            Ended(word + s, Split(tail, Between, "", strict))
    decreases |s|
  {
    if s == "" {
      assert s + (" " + tail) == " " + tail && word + s == word;
      BlankEnds(tail, word, strict);
    } else {
      assert (s + (" " + tail))[1..] == s[1..] + (" " + tail);
      CleanTail(s, strict);
      UnquotedReads(s[1..], true, word + [s[0]], tail, strict);
      assert word + [s[0]] + s[1..] == word + s;
    }
  }

  const MIDDLE := " run -config "

  /** The middle of the command. */
  lemma MiddleReads(first: string, last: string, strict: bool)
    ensures Split(MIDDLE + last, Plain, first, strict) ==
            Ended(first, Ended("run", Ended("-config", Split(last, Between, "", strict))))
  {
    hide Split;
    var third := "-config" + (" " + last);
    var second := "run" + (" " + third);
    assert MIDDLE + last == " " + second;
    BlankEnds(second, first, strict);
    UnquotedReads("run", false, "", third, strict);
    UnquotedReads("-config", false, "", last, strict);
    assert "" + "run" == "run" && "" + "-config" == "-config";
  }

  /** The words of the command when its executable survives. */
  lemma CommandWords(exe: string, words: seq<string>)
    requires AsIs(exe)
    ensures var all, last := AllMeant([exe] + (["run"] + (["-config"] + words))), AllMeant(words);
            all == if last.Some? then Some([exe] + (["run"] + (["-config"] + last.value))) else None
  {
    hide Meant, AllMeant, AsIs;
    OneMeant(exe, ["run"] + (["-config"] + words));
    OneMeant("run", ["-config"] + words);
    OneMeant("-config", words);
    MeantAsIs(exe, "");
    FixedMeant();
  }

  lemma SignlessAsIs(w: string)
    requires forall i :: 0 <= i < |w| ==> w[i] != '%' && w[i] != '$'
    ensures AsIs(w)
  {
  }

  lemma FixedMeant()
    ensures Meant("run") == Some("run") && Meant("-config") == Some("-config")
  {
    hide Meant, AsIs;
    SignlessAsIs("run");
    SignlessAsIs("-config");
    MeantAsIs("run", "");
    MeantAsIs("-config", "");
  }

  /** The executable has a name that ExecStart takes, and no prefix. */
  predicate Startable(exe: string) {
    Nameable(exe) && !IsPrefix(exe[0])
  }

  lemma NameableIsClean(exe: string, strict: bool)
    requires Nameable(exe)
    ensures exe != "" && AllClean(exe, strict)
  {
    forall i | 0 <= i < |exe| ensures Clean(exe[i], strict) { assert exe[i] >= ' '; }
  }

  lemma SpecifiedIsItself(exe: string)
    requires AsIs(exe)
    ensures Undoubled(exe, '%') == Some(exe)
  {
    UndoubledInert(exe, "", '%');
  }

  /** The Unix service command starts the executable with exactly its four arguments if and only if the executable is
      one that ExecStart takes without a prefix and no sign in it is doubled or starts anything, and the path survives. */
  lemma SystemdCommandIff(exe: string, configPath: string, strict: bool)
    ensures ExecStart(UnixCommand(exe, configPath), strict) == Some([exe, "run", "-config", configPath])
            <==> Startable(exe) && AsIs(exe) && Survives(configPath, strict)
  {
    hide Split, AllClean, AsIs, Meant, AllMeant, ShellQuote, IsPrefix, Nameable, Undoubled;
    var line, last := UnixCommand(exe, configPath), ShellQuote(configPath);
    assert line == ShellQuote(exe) + (MIDDLE + last);
    assert [exe, "run", "-config", configPath] == [exe] + (["run"] + (["-config"] + [configPath]));
    var r := Split(line, Between, "", strict);
    if Nameable(exe) { NameableIsClean(exe, strict); }
    if Survives(exe, strict) {
      SpecifiedIsItself(exe);
      QuotedReads(exe, MIDDLE + last, strict);
      MiddleReads(exe, last, strict);
      SystemdRoundTripIff(configPath, strict);
      var words := Split(last, Between, "", strict);
      if words.Some? {
        assert r == Some([exe] + (["run"] + (["-config"] + words.value))) && r.value[0] == exe;
        CommandWords(exe, words.value);
        FourthIs(exe, AllMeant(words.value), configPath);
      }
    } else {
      TextSpoils(exe, MIDDLE + last, strict);
      FirstSpoilt(r, exe, ["run"] + (["-config"] + [configPath]));
    }
  }

  lemma FourthIs(exe: string, last: Option<seq<string>>, configPath: string)
    ensures last.Some? ==>
              ([exe] + (["run"] + (["-config"] + last.value)) == [exe] + (["run"] + (["-config"] + [configPath]))
               <==> last.value == [configPath])
  {
    if last.Some? {
      assert ([exe] + (["run"] + (["-config"] + last.value)))[3..] == last.value;
      assert ([exe] + (["run"] + (["-config"] + [configPath])))[3..] == [configPath];
    }
  }
}
