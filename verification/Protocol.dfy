/** The message schema between client and server, and the client's reading of the first answer. */
module Protocol {
  import opened Text

  const CODE_INVALID_HELLO := "invalid_hello"
  const CODE_TOKEN_MISMATCH := "token_mismatch"
  const CODE_AUTH_FAILED := "auth_failed"
  const TYPE_HELLO_OK := "hello_ok"
  const TYPE_SHUTDOWN_ACK := "shutdown_ack"
  const TYPE_SHUTDOWN_ERR := "shutdown_err"

  datatype Action = Shutdown | Restart

  /** Server to client. */
  datatype ServerMsg =
    | HelloOk
    | Error(code: string, message: string)
    | Pong
    | Control(action: Action, requestId: string)

  /** Client to server: what a client says about a control message. */
  datatype Report =
    | Accepted
    | Duplicate
    | Executed
    | Failed

  predicate IsAuthFailure(code: string) {
    code == CODE_TOKEN_MISMATCH || code == CODE_INVALID_HELLO || code == CODE_AUTH_FAILED
  }

  datatype HelloOutcome = Welcome | Fatal(code: string) | Retry

  /** The client's classification of the first server message; `parsed` is None when the text is not JSON
      and Some(None) when its "type" is none the client knows, `raw` is the message text. */
  function HandleHelloResponse(parsed: Option<Option<ServerMsg>>, raw: string): HelloOutcome {
    match parsed
    case None => Retry
    case Some(Some(HelloOk)) => Welcome
    case Some(Some(Error(code, text))) =>
      var low := Lower(if text == "" then raw else text);
      if IsAuthFailure(code) then Fatal(code)
      else if Contains(low, "token") then Fatal(if code == "" then CODE_TOKEN_MISMATCH else code)
      else if Contains(low, "invalid hello") then Fatal(if code == "" then CODE_INVALID_HELLO else code)
      else Retry
    case Some(_) =>
      if Contains(raw, TYPE_HELLO_OK) then Welcome else Retry
  }

  /** The text is about a token, or about an invalid hello, in any mix of cases. */
  ghost predicate Mentions(text: string, p: string) {
    exists i: nat :: FoldsAt(text, p, i)
  }

  /** Which errors end the client for good: those with one of the three codes and, for servers that send none of them, those
      whose text is about a token or an invalid hello; the code given up with is the server's where it sent one. */
  lemma ErrorsClassified(code: string, text: string, raw: string)
    ensures var said, answer := if text == "" then raw else text, HandleHelloResponse(Some(Some(Error(code, text))), raw);
            && (answer.Retry? <==> code != "token_mismatch" && code != "invalid_hello" && code != "auth_failed"
                                   && !Mentions(said, "token") && !Mentions(said, "invalid hello"))
            && !answer.Welcome?
            && (answer.Fatal? && code != "" ==> answer.code == code)
            && (answer.Fatal? && code == "" ==> answer.code == if Mentions(said, "token") then "token_mismatch" else "invalid_hello")
  {
    hide Lower, Contains, FoldsAt;
    var said := if text == "" then raw else text;
    FoldedOccurrence(said, "token");
    FoldedOccurrence(said, "invalid hello");
  }
}
