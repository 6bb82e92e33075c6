/** The text of a server message on the wire, as encoding/json writes it, and when a fixed plain text occurs in it. */
module Json {
  import opened Text
  import opened Protocol
  import opened RequestId

  function HexDigit(d: nat): (c: char)
    requires d < 16
    ensures '0' <= c <= '9' || 'a' <= c <= 'f'
  {
    if d < 10 then ('0' as int + d) as char else ('a' as int + d - 10) as char
  }

  /** A character inside a JSON string. */
  function EscapeChar(c: char): string {
    if c == '"' then "\\\""
    else if c == '\\' then "\\\\"
    else if c == '\n' then "\\n"
    else if c == '\r' then "\\r"
    else if c == '\t' then "\\t"
    else if c == '\U{8}' then "\\b"
    else if c == '\U{C}' then "\\f"
    else if c < ' ' || c == '<' || c == '>' || c == '&' then
      "\\u00" + [HexDigit(c as int / 16), HexDigit(c as int % 16)]
    else if c == '\U{2028}' then "\\u2028"
    else if c == '\U{2029}' then "\\u2029"
    else [c]
  }

  function Escaped(s: string): string {
    if s == "" then "" else EscapeChar(s[0]) + Escaped(s[1..])
  }

  function TypeName(a: Action): string {
    if a.Shutdown? then "shutdown" else "restart"
  }

  function Encode(m: ServerMsg): string {
    match m
    case HelloOk => "{\"type\":\"hello_ok\"}"
    case Error(code, text) =>
      "{\"type\":\"error\"" + (if code == "" then "" else ",\"code\":\"" + Escaped(code) + "\"")
      + ",\"message\":\"" + Escaped(text) + "\"}"
    case Pong => "{\"type\":\"pong\"}"
    case Control(action, id) =>
      if id == "" then "{\"type\":\"" + TypeName(action) + "\"}"
      else "{\"type\":\"" + TypeName(action) + "\",\"requestId\":" + ['"'] + (Escaped(id) + ['"'] + "}")
  }

  // -- occurrences --

  lemma OccursLater(c: char, rest: string, p: string, i: nat)
    ensures OccursAt([c] + rest, p, i + 1) <==> OccursAt(rest, p, i)
  {
    var s := [c] + rest;
    if i + |p| <= |rest| { assert s[i + 1..i + 1 + |p|] == rest[i..i + |p|]; }
  }

  lemma OccursFirst(s: string, p: string)
    ensures OccursAt(s, p, 0) <==> HasPrefix(s, p)
  {
    if |p| <= |s| { assert s[0..|p|] == s[..|p|]; }
  }

  lemma ContainsFirst(c: char, rest: string, p: string)
    ensures Contains([c] + rest, p) <==> HasPrefix([c] + rest, p) || Contains(rest, p)
  {
    hide OccursAt, HasPrefix;
    var s := [c] + rest;
    OccursFirst(s, p);
    if Contains(s, p) {
      var i :| 0 <= i <= |s| && OccursAt(s, p, i);
      if i > 0 { OccursLater(c, rest, p, i - 1); }
    }
    if Contains(rest, p) {
      var i :| 0 <= i <= |rest| && OccursAt(rest, p, i);
      OccursLater(c, rest, p, i);
    }
  }

  lemma NothingContains(p: string)
    requires p != ""
    ensures !Contains("", p)
  {
  }

  /** Text without the first character of p in front of another text adds no occurrence. */
  lemma {:induction false} FrontAddsNone(front: string, s: string, p: string)
    requires p != "" && forall i :: 0 <= i < |front| ==> front[i] != p[0]
    ensures Contains(front + s, p) <==> Contains(s, p)
  {
    hide Contains;
    if front == "" {
      assert front + s == s;
    } else {
      assert front + s == [front[0]] + (front[1..] + s);
      ContainsFirst(front[0], front[1..] + s, p);
      FrontAddsNone(front[1..], s, p);
      assert ([front[0]] + (front[1..] + s))[..1] == [front[0]];
    }
  }

  lemma {:induction false} PrefixBefore(a: string, d: char, b: string, p: string)
    requires forall i :: 0 <= i < |p| ==> p[i] != d
    ensures HasPrefix(a + [d] + b, p) <==> HasPrefix(a, p)
  {
    var s := a + [d] + b;
    assert s[|a|] == d;
    if HasPrefix(s, p) {
      assert forall i :: 0 <= i < |p| ==> s[..|p|][i] == s[i];
      assert |p| <= |a|;
      assert s[..|p|] == a[..|p|];
    }
    if HasPrefix(a, p) { assert s[..|p|] == a[..|p|]; }
  }

  /** A character that p does not have separates occurrences. */
  lemma {:induction false} Separated(a: string, d: char, b: string, p: string)
    requires p != "" && forall i :: 0 <= i < |p| ==> p[i] != d
    ensures Contains(a + [d] + b, p) <==> Contains(a, p) || Contains(b, p)
    decreases |a|
  {
    hide Contains;
    NothingContains(p);
    if a == "" {
      assert a + [d] + b == [d] + b;
      FrontAddsNone([d], b, p);
    } else {
      assert a + [d] + b == [a[0]] + (a[1..] + [d] + b) && a == [a[0]] + a[1..];
      ContainsFirst(a[0], a[1..] + [d] + b, p);
      ContainsFirst(a[0], a[1..], p);
      PrefixBefore(a, d, b, p);
      Separated(a[1..], d, b, p);
    }
  }

  /** A character of p that the text lacks. */
  lemma Lacks(s: string, p: string, i: nat)
    requires i < |p| && forall j :: 0 <= j < |s| ==> s[j] != p[i]
    ensures !Contains(s, p)
  {
    forall k: nat ensures !OccursAt(s, p, k) {
      if k + |p| <= |s| { assert s[k..k + |p|][i] == s[k + i]; }
    }
  }

  predicate Plain(p: string) {
    forall i :: 0 <= i < |p| ==> EscapeChar(p[i]) == [p[i]] && p[i] != '\\'
  }

  lemma EscapeShape(c: char)
    ensures EscapeChar(c) == [c] || (EscapeChar(c)[0] == '\\' && forall i :: 0 <= i < |EscapeChar(c)| ==> EscapeChar(c)[i] != 'h')
    ensures EscapeChar(c) != "" && (EscapeChar(c) == [c] ==> c != '\\')
  {
  }

  lemma {:induction false} EscapedPrefix(s: string, p: string)
    requires Plain(p)
    ensures HasPrefix(Escaped(s), p) <==> HasPrefix(s, p)
    decreases |p|
  {
    if p != "" && s != "" {
      EscapeShape(s[0]);
      assert Plain(p[1..]);
      EscapedPrefix(s[1..], p[1..]);
      PrefixStep(s, p);
      assert Escaped(s)[0] == EscapeChar(s[0])[0];
      if EscapeChar(s[0]) == [s[0]] {
        assert Escaped(s)[1..] == Escaped(s[1..]);
        PrefixStep(Escaped(s), p);
      }
    }
  }

  lemma PrefixStep(s: string, p: string)
    requires s != "" && p != ""
    ensures HasPrefix(s, p) <==> s[0] == p[0] && HasPrefix(s[1..], p[1..])
  {
    if HasPrefix(s, p) { assert s[1..][..|p| - 1] == s[..|p|][1..] && s[..|p|][0] == s[0]; }
    if s[0] == p[0] && HasPrefix(s[1..], p[1..]) {
      assert s[..|p|] == [s[0]] + s[1..][..|p| - 1] && p == [p[0]] + p[1..];
    }
  }

  /** Escaping neither makes nor breaks an occurrence of a plain text that starts with an h. */
  lemma {:induction false} EscapedContains(s: string, p: string)
    requires Plain(p) && p != "" && p[0] == 'h'
    ensures Contains(Escaped(s), p) <==> Contains(s, p)
  {
    hide Contains, EscapeChar;
    if s != "" {
      var c, rest := s[0], s[1..];
      EscapedContains(rest, p);
      EscapeShape(c);
      assert s == [c] + rest;
      ContainsFirst(c, rest, p);
      EscapedPrefix(s, p);
      if EscapeChar(c) == [c] {
        ContainsFirst(c, Escaped(rest), p);
      } else {
        FrontAddsNone(EscapeChar(c), Escaped(rest), p);
        PlainFirst(p);
        PrefixStep(s, p);
      }
    }
  }

  lemma PlainFirst(p: string)
    requires Plain(p) && p != ""
    ensures EscapeChar(p[0]) == [p[0]]
  {
  }

  lemma HelloOkIsPlain()
    ensures Plain(TYPE_HELLO_OK) && TYPE_HELLO_OK[0] == 'h'
    ensures forall i :: 0 <= i < |TYPE_HELLO_OK| ==> TYPE_HELLO_OK[i] != '"' && TYPE_HELLO_OK[i] != '-'
  {
  }

  // -- which messages mention hello_ok --

  lemma PongIsSilent()
    ensures !Contains(Encode(Pong), TYPE_HELLO_OK)
  {
    Lacks(Encode(Pong), TYPE_HELLO_OK, 7);
  }

  lemma HeaderIsSilent(a: Action)
    ensures !Contains("{\"type\":\"" + TypeName(a) + "\",\"requestId\":", TYPE_HELLO_OK)
  {
    Lacks("{\"type\":\"" + TypeName(a) + "\",\"requestId\":", TYPE_HELLO_OK, 7);
  }

  lemma IdMentions(key: string, stamp: int)
    ensures Contains(Make(key, stamp), TYPE_HELLO_OK) <==> Contains(key, TYPE_HELLO_OK)
  {
    hide Contains;
    HelloOkIsPlain();
    assert Make(key, stamp) == key + ['-'] + FormatInt(stamp);
    Separated(key, '-', FormatInt(stamp), TYPE_HELLO_OK);
    Lacks(FormatInt(stamp), TYPE_HELLO_OK, 7);
  }

  /** A control message's text contains hello_ok exactly when the key it was issued for does. */
  lemma ControlMentions(action: Action, key: string, stamp: int)
    ensures Contains(Encode(Control(action, Make(key, stamp))), TYPE_HELLO_OK) <==> Contains(key, TYPE_HELLO_OK)
  {
    hide Contains, Make, EscapeChar, TypeName;
    var id := Make(key, stamp);
    MakeNotBlank(key, stamp);
    var header, tail := "{\"type\":\"" + TypeName(action) + "\",\"requestId\":", Escaped(id) + ['"'] + "}";
    assert Encode(Control(action, id)) == header + ['"'] + tail;
    HelloOkIsPlain();
    HeaderIsSilent(action);
    Separated(header, '"', tail, TYPE_HELLO_OK);
    Separated(Escaped(id), '"', "}", TYPE_HELLO_OK);
    Lacks("}", TYPE_HELLO_OK, 7);
    EscapedContains(id, TYPE_HELLO_OK);
    IdMentions(key, stamp);
  }

  // -- reading a string back --

  function HexValue(c: char): (v: nat)
  {
    if '0' <= c <= '9' then c as nat - '0' as nat
    else if 'a' <= c <= 'f' then c as nat - 'a' as nat + 10
    else if 'A' <= c <= 'F' then c as nat - 'A' as nat + 10
    else 0x10000
  }

  /** The character that an escape stands for, and how long the escape is; `s` is what follows the backslash. */
  function EscapeMeans(s: string): (r: Option<(char, nat)>)
    ensures r.Some? ==> 0 < r.value.1 <= |s|
  {
    if s == "" then None
    else if s[0] == '"' || s[0] == '\\' || s[0] == '/' then Some((s[0], 1))
    else if s[0] == 'n' then Some(('\n', 1))
    else if s[0] == 'r' then Some(('\r', 1))
    else if s[0] == 't' then Some(('\t', 1))
    else if s[0] == 'b' then Some(('\U{8}', 1))
    else if s[0] == 'f' then Some(('\U{C}', 1))
    else if s[0] == 'u' && |s| >= 5 then
      var v := HexValue(s[1]) * 4096 + HexValue(s[2]) * 256 + HexValue(s[3]) * 16 + HexValue(s[4]);
      if v < 0xD800 || 0xE000 <= v < 0x10000 then Some((v as char, 5)) else None
    else None
  }

  /** The text of a JSON string (RFC 8259, section 7), surrogate pairs aside, up to its closing quote, and what follows. */
  function ReadString(s: string): (r: Option<(string, string)>)
    ensures r.Some? ==> |r.value.1| < |s|
    decreases |s|
  {
    if s == "" then None
    else if s[0] == '"' then Some(("", s[1..]))
    else if s[0] == '\\' then
      var e := EscapeMeans(s[1..]);
      if e.None? then None else Front(e.value.0, ReadString(s[1 + e.value.1..]))
    else if s[0] < ' ' then None
    else Front(s[0], ReadString(s[1..]))
  }

  function Front(c: char, more: Option<(string, string)>): Option<(string, string)> {
    if more.Some? then Some(([c] + more.value.0, more.value.1)) else None
  }

  /** The fields of an object whose values are strings, after its opening brace. */
  function ReadFields(s: string): Option<map<string, string>>
    decreases |s|
  {
    if s == "" || s[0] != '"' then None
    else
      var key := ReadString(s[1..]);
      if key.None? || |key.value.1| < 2 || key.value.1[..2] != ":\"" then None
      else
        var value := ReadString(key.value.1[2..]);
        if value.None? then None
        else if value.value.1 == "}" then Some(map[key.value.0 := value.value.0])
        else if value.value.1 != "" && value.value.1[0] == ',' then With(key.value.0, value.value.0, ReadFields(value.value.1[1..]))
        else None
  }

  function With(key: string, value: string, more: Option<map<string, string>>): Option<map<string, string>> {
    if more.Some? then Some(map[key := value] + more.value) else None
  }

  function ReadObject(s: string): Option<map<string, string>> {
    if s != "" && s[0] == '{' then ReadFields(s[1..]) else None
  }

  lemma HexDigitValue(d: nat)
    requires d < 16
    ensures HexValue(HexDigit(d)) == d
  {
  }

  lemma HexSplit(c: char)
    requires c as nat < 256
    ensures HexValue('0') == 0 && HexValue(HexDigit(c as nat / 16)) * 16 + HexValue(HexDigit(c as nat % 16)) == c as nat
  {
    HexDigitValue(c as nat / 16);
    HexDigitValue(c as nat % 16);
  }

  lemma EscapeReads(c: char, rest: string)
    requires EscapeChar(c) != [c]
    ensures EscapeChar(c)[0] == '\\' && EscapeMeans(EscapeChar(c)[1..] + rest) == Some((c, |EscapeChar(c)| - 1))
  {
    if c < ' ' || c == '<' || c == '>' || c == '&' { HexSplit(c); }
  }

  /** One character in front. */
  lemma CharReads(c: char, more: string)
    ensures ReadString(EscapeChar(c) + more) == Front(c, ReadString(more))
  {
    hide EscapeChar, EscapeMeans;
    var e := EscapeChar(c);
    var t := e + more;
    EscapeShape(c);
    if e == [c] {
      assert t[0] == c && t[1..] == more;
      PlainIsAllowed(c);
    } else {
      EscapeReads(c, more);
      assert t[1..] == e[1..] + more && t[|e|..] == more;
    }
  }

  /** Escaping loses nothing: reading the escaped text up to the closing quote gives the text back. */
  lemma {:induction false} StringReadsBack(s: string, rest: string)
    ensures ReadString(Escaped(s) + ("\"" + rest)) == Some((s, rest))
  {
    var tail := "\"" + rest;
    if s == "" {
      assert Escaped(s) + tail == tail && tail[1..] == rest;
    } else {
      hide EscapeChar, EscapeMeans, ReadString;
      var c, more := s[0], Escaped(s[1..]) + tail;
      StringReadsBack(s[1..], rest);
      CharReads(c, more);
      assert s == [c] + s[1..] && Escaped(s) + tail == EscapeChar(c) + more;
    }
  }

  lemma PlainIsAllowed(c: char)
    requires EscapeChar(c) == [c]
    ensures c != '"' && c != '\\' && c >= ' '
  {
  }

  lemma {:induction false} PlainEscaped(p: string)
    requires Plain(p)
    ensures Escaped(p) == p
  {
    if p != "" {
      assert Plain(p[1..]);
      PlainEscaped(p[1..]);
      PlainFirst(p);
      assert [p[0]] + p[1..] == p;
    }
  }

  /** One field, with a key that needs no escapes. */
  lemma FieldReads(key: string, value: string, rest: string)
    requires Plain(key) && (rest == "}" || (rest != "" && rest[0] == ','))
    ensures ReadFields("\"" + (key + ("\":\"" + (Escaped(value) + ("\"" + rest))))) ==
            if rest == "}" then Some(map[key := value]) else With(key, value, ReadFields(rest[1..]))
  {
    hide Escaped, ReadString;
    var tail := Escaped(value) + ("\"" + rest);
    var s := "\"" + (key + ("\":\"" + tail));
    PlainEscaped(key);
    StringReadsBack(key, ":\"" + tail);
    StringReadsBack(value, rest);
    assert "\":\"" + tail == "\"" + (":\"" + tail);
    assert s[1..] == key + ("\"" + (":\"" + tail));
    assert (":\"" + tail)[..2] == ":\"" && (":\"" + tail)[2..] == tail;
  }

  function FieldsOf(m: ServerMsg): map<string, string> {
    match m
    case HelloOk => map["type" := "hello_ok"]
    case Error(code, text) =>
      if code == "" then map["type" := "error", "message" := text] else map["type" := "error", "code" := code, "message" := text]
    case Pong => map["type" := "pong"]
    case Control(action, id) =>
      var name := if action.Shutdown? then "shutdown" else "restart";
      if id == "" then map["type" := name] else map["type" := name, "requestId" := id]
  }

  lemma TypeReads(name: string, rest: string)
    requires Plain(name) && (rest == "}" || (rest != "" && rest[0] == ','))
    ensures ReadObject("{\"type\":\"" + name + "\"" + rest) ==
            if rest == "}" then Some(map["type" := name]) else With("type", name, ReadFields(rest[1..]))
  {
    hide Escaped, ReadFields;
    PlainEscaped(name);
    LettersArePlain("type");
    FieldReads("type", name, rest);
    var s := "{\"type\":\"" + name + "\"" + rest;
    assert s[1..] == "\"" + ("type" + ("\":\"" + (name + ("\"" + rest))));
  }

  lemma LastReads(key: string, value: string)
    requires Plain(key)
    ensures ReadFields("\"" + key + "\":\"" + Escaped(value) + "\"}") == Some(map[key := value])
  {
    hide Escaped, ReadFields;
    FieldReads(key, value, "}");
    assert "\"" + key + "\":\"" + Escaped(value) + "\"}" == "\"" + (key + ("\":\"" + (Escaped(value) + ("\"" + "}"))));
  }

  predicate LettersOnly(p: string) {
    forall i :: 0 <= i < |p| ==> 'a' <= p[i] <= 'z' || p[i] == '_' || p[i] == 'I'
  }

  lemma LettersArePlain(p: string)
    requires LettersOnly(p)
    ensures Plain(p)
  {
  }

  lemma NamesArePlain()
    ensures Plain("hello_ok") && Plain("error") && Plain("pong") && Plain("shutdown") && Plain("restart")
    ensures Plain("type") && Plain("code") && Plain("message") && Plain("requestId")
  {
    hide Plain;
    LettersArePlain("hello_ok");
    LettersArePlain("error");
    LettersArePlain("pong");
    LettersArePlain("shutdown");
    LettersArePlain("restart");
    LettersArePlain("type");
    LettersArePlain("code");
    LettersArePlain("message");
    LettersArePlain("requestId");
  }

  /** What the client reads from the text of a message is the message. */
  lemma MessageReadsBack(m: ServerMsg)
    ensures ReadObject(Encode(m)) == Some(FieldsOf(m))
  {
    hide Escaped, ReadFields, ReadObject, Plain;
    NamesArePlain();
    match m
    case HelloOk =>
      TypeReads("hello_ok", "}");
      assert "{\"type\":\"" + "hello_ok" + "\"" + "}" == Encode(m);
    case Pong =>
      TypeReads("pong", "}");
      assert "{\"type\":\"" + "pong" + "\"" + "}" == Encode(m);
    case Control(action, id) => ControlReads(action, id);
    case Error(code, text) => ErrorReads(code, text);
  }

  /** The texts of control messages and errors, grouped as they are read. */
  lemma ControlText(action: Action, id: string)
    requires id != ""
    ensures var name, last := TypeName(action), "\"requestId\":\"" + Escaped(id) + "\"}";
            Encode(Control(action, id)) == "{\"type\":\"" + name + "\"" + ("," + last)
  {
    hide Escaped, TypeName;
    var e, name := Escaped(id), TypeName(action);
    assert "\",\"requestId\":" == "\"" + ("," + "\"requestId\":");
    assert "\"requestId\":" + ['"'] == "\"requestId\":\"";
    assert ['"'] + (e + ['"'] + "}") == ['"'] + (e + "\"}");
    assert "{\"type\":\"" + name + "\",\"requestId\":" + ['"'] + (e + ['"'] + "}")
           == "{\"type\":\"" + name + "\"" + ("," + ("\"requestId\":\"" + e + "\"}"));
  }

  lemma ControlReads(action: Action, id: string)
    ensures ReadObject(Encode(Control(action, id))) == Some(FieldsOf(Control(action, id)))
  {
    hide Escaped, ReadFields, ReadObject, Plain;
    NamesArePlain();
    if id == "" {
      TypeReads(TypeName(action), "}");
      assert Encode(Control(action, id)) == "{\"type\":\"" + TypeName(action) + "\"" + "}";
    } else {
      IdReads(action, id);
    }
  }

  lemma IdReads(action: Action, id: string)
    requires id != ""
    ensures ReadObject(Encode(Control(action, id))) == Some(map["type" := TypeName(action), "requestId" := id])
  {
    hide Escaped, ReadFields, ReadObject, Plain, Encode;
    NamesArePlain();
    ControlText(action, id);
    var last := "\"requestId\":\"" + Escaped(id) + "\"}";
    TypeReads(TypeName(action), "," + last);
    LastReads("requestId", id);
    assert "\"" + "requestId" + "\":\"" == "\"requestId\":\"";
    assert ("," + last)[1..] == last;
    assert map["type" := TypeName(action)] + map["requestId" := id] == map["type" := TypeName(action), "requestId" := id];
  }

  lemma BareErrorText(text: string)
    ensures Encode(Error("", text)) == "{\"type\":\"" + "error" + "\"" + ("," + ("\"" + "message" + "\":\"" + Escaped(text) + "\"}"))
  {
    hide Escaped;
  }

  lemma CodeField(a: string, m: string)
    ensures ",\"code\":\"" + a + "\"" + m == "," + ("\"" + ("code" + ("\":\"" + (a + ("\"" + m)))))
  {
    assert ",\"code\":\"" == "," + ("\"" + ("code" + "\":\""));
  }

  lemma MessageField(b: string)
    ensures ",\"message\":\"" + b + "\"}" == "," + ("\"" + "message" + "\":\"" + b + "\"}")
  {
    assert ",\"message\":\"" == "," + ("\"" + "message" + "\":\"");
  }

  lemma Regrouped(h: string, c: string, l: string, b: string, e: string)
    ensures h + c + l + b + e == h + (c + (l + b + e))
  {
  }

  lemma CodedErrorText(code: string, text: string)
    requires code != ""
    ensures var last := "\"" + "message" + "\":\"" + Escaped(text) + "\"}";
            Encode(Error(code, text)) ==
            "{\"type\":\"" + "error" + "\"" + ("," + ("\"" + ("code" + ("\":\"" + (Escaped(code) + ("\"" + ("," + last)))))))
  {
    hide Escaped;
    var c := ",\"code\":\"" + Escaped(code) + "\"";
    Regrouped("{\"type\":\"error\"", c, ",\"message\":\"", Escaped(text), "\"}");
    MessageField(Escaped(text));
    CodeField(Escaped(code), "," + ("\"" + "message" + "\":\"" + Escaped(text) + "\"}"));
    assert "{\"type\":\"" + "error" + "\"" == "{\"type\":\"error\"";
  }

  lemma BareErrorReads(text: string)
    ensures ReadObject(Encode(Error("", text))) == Some(map["type" := "error", "message" := text])
  {
    hide Escaped, ReadFields, ReadObject, Plain, Encode;
    NamesArePlain();
    BareErrorText(text);
    var last := "\"" + "message" + "\":\"" + Escaped(text) + "\"}";
    LastReads("message", text);
    TypeReads("error", "," + last);
    assert ("," + last)[1..] == last;
    assert map["type" := "error"] + map["message" := text] == map["type" := "error", "message" := text];
  }

  lemma CodedErrorReads(code: string, text: string)
    requires code != ""
    ensures ReadObject(Encode(Error(code, text))) == Some(map["type" := "error", "code" := code, "message" := text])
  {
    hide Escaped, ReadFields, ReadObject, Plain, Encode;
    NamesArePlain();
    CodedErrorText(code, text);
    var last := "\"" + "message" + "\":\"" + Escaped(text) + "\"}";
    LastReads("message", text);
    var rest := "\"" + ("code" + ("\":\"" + (Escaped(code) + ("\"" + ("," + last)))));
    TypeReads("error", "," + rest);
    FieldReads("code", code, "," + last);
    assert ("," + last)[1..] == last && ("," + rest)[1..] == rest;
    assert map["type" := "error"] + (map["code" := code] + map["message" := text]) == map["type" := "error", "code" := code, "message" := text];
  }

  lemma ErrorReads(code: string, text: string)
    ensures ReadObject(Encode(Error(code, text))) == Some(FieldsOf(Error(code, text)))
  {
    hide Encode, ReadObject;
    if code == "" { BareErrorReads(text); } else { CodedErrorReads(code, text); }
  }
}
