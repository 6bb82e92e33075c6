/** What a connection carries to its client, and what the client makes of the first message: the connection is in the
    map before its hello_ok is written, so a control message or a pong can come first. */
module HubWire {
  import opened Text
  import opened Config
  import opened Protocol
  import opened HubModel
  import RequestId
  import F = HubFields
  import Json

  /** What a push of a control message looked up last under this number. */
  function TargetOf(run: seq<Event>, op: nat): Option<Pending> {
    if run == [] then None
    else
      var n := |run| - 1;
      if run[n].Lookup? && run[n].op == op && Latest(run[..n], run[n].key).Some? then
        Some(Pending(run[n].key, run[n].action, Latest(run[..n], run[n].key).value))
      else TargetOf(run[..n], op)
  }

  /** The messages that an event after this run puts on connection c. */
  function Puts(token: string, run: seq<Event>, e: Event, c: ConnId): seq<ServerMsg> {
    match e
    case Greet(d, first, written) =>
      if d == c && written && first.Some? && CheckHello(TokenAfter(token, run), first.value).Refuse? then
        var verdict := CheckHello(TokenAfter(token, run), first.value);
        [Error(verdict.code, verdict.message)]
      else []
    case Welcome(d, written) => if d == c && written then [HelloOk] else []
    case Ping(d, _, _, _, written) => if d == c && written then [Pong] else []
    case Write(op, now, written) =>
      if written && TargetOf(run, op).Some? && TargetOf(run, op).value.conn == c then
        [Control(TargetOf(run, op).value.action, RequestId.Make(TargetOf(run, op).value.key, now))]
      else []
    case _ => []
  }

  /** Everything a run puts on a connection, in order. */
  function Sent(token: string, run: seq<Event>, c: ConnId): seq<ServerMsg> {
    if run == [] then []
    else
      var n := |run| - 1;
      Sent(token, run[..n], c) + Puts(token, run[..n], run[n], c)
  }

  function Outbox(s: State, c: ConnId): seq<ServerMsg> {
    if c in s.conns then s.conns[c].outbox else []
  }

  // -- one step --

  predicate PendingKnown(run: seq<Event>, s: State, op: nat) {
    op in s.pending ==> TargetOf(run, op) == Some(s.pending[op])
  }

  lemma TargetOfMore(run: seq<Event>, e: Event, op: nat)
    ensures TargetOf(run + [e], op) ==
            if e.Lookup? && e.op == op && Latest(run, e.key).Some? then Some(Pending(e.key, e.action, Latest(run, e.key).value))
            else TargetOf(run, op)
  {
    assert (run + [e])[..|run|] == run;
  }

  lemma PendingStep(run: seq<Event>, s: State, e: Event, op: nat)
    requires Enabled(s, e) && PendingKnown(run, s, op)
    requires e.Lookup? ==> EntryOk(run, s, e.key)
    ensures PendingKnown(run + [e], Apply(s, e), op)
  {
    hide TargetOf, OnEntry, TeardownClients, NewInfo, PingInfo, AckInfo, Seen, RequestId.Make, CheckHello;
    TargetOfMore(run, e, op);
  }

  lemma OutboxGrows(token: string, run: seq<Event>, s: State, e: Event, c: ConnId)
    requires Enabled(s, e) && s.token == TokenAfter(token, run)
    requires e.Write? ==> PendingKnown(run, s, e.op)
    ensures Outbox(Apply(s, e), c) == Outbox(s, c) + Puts(token, run, e, c)
  {
    hide TargetOf, OnEntry, TeardownClients, NewInfo, PingInfo, AckInfo, Seen, RequestId.Make, TokenAfter;
  }

  // -- all runs --

  lemma {:induction false} AllPendingKnown(token: string, run: seq<Event>, op: nat)
    requires Exec(token, run).Some?
    ensures PendingKnown(run, Exec(token, run).value, op)
  {
    if run != [] {
      hide Apply, PendingKnown, EntryOk, Inv;
      var n := |run| - 1;
      var s := Exec(token, run[..n]).value;
      AllPendingKnown(token, run[..n], op);
      if run[n].Lookup? { EntriesOk(token, run[..n], run[n].key); }
      PendingStep(run[..n], s, run[n], op);
      assert run == run[..n] + [run[n]];
    } else {
      assert PendingKnown(run, Exec(token, run).value, op);
    }
  }

  lemma EntriesOk(token: string, run: seq<Event>, key: string)
    requires Exec(token, run).Some?
    ensures EntryOk(run, Exec(token, run).value, key)
  {
    Reachable(token, run);
  }

  lemma {:induction false} TokenKnown(token: string, run: seq<Event>)
    requires Exec(token, run).Some?
    ensures Exec(token, run).value.token == TokenAfter(token, run)
  {
    OnlyAdmitted(token, run);
  }

  /** In every reachable state a connection carries exactly what the run put on it, in that order. */
  lemma {:induction false} OutboxIsSent(token: string, run: seq<Event>, c: ConnId)
    requires Exec(token, run).Some?
    ensures Outbox(Exec(token, run).value, c) == Sent(token, run, c)
  {
    if run != [] {
      hide Apply, Outbox, Puts, PendingKnown;
      var n := |run| - 1;
      var s := Exec(token, run[..n]).value;
      OutboxIsSent(token, run[..n], c);
      TokenKnown(token, run[..n]);
      if run[n].Write? { AllPendingKnown(token, run[..n], run[n].op); }
      OutboxGrows(token, run[..n], s, run[n], c);
    } else {
      assert Outbox(Exec(token, run).value, c) == [];
    }
  }

  // -- the first message --

  predicate Silent(token: string, run: seq<Event>, i: nat, c: ConnId)
    requires i < |run|
  {
    Puts(token, run[..i], run[i], c) == []
  }

  /** The event that puts the first message. */
  lemma {:induction false} FirstPut(token: string, run: seq<Event>, c: ConnId) returns (i: nat)
    requires Sent(token, run, c) != []
    ensures i < |run| && Puts(token, run[..i], run[i], c) == [Sent(token, run, c)[0]]
    ensures forall j: nat :: j < i ==> Silent(token, run, j, c)
  {
    hide Puts;
    var n := |run| - 1;
    if Sent(token, run[..n], c) != [] {
      i := FirstPut(token, run[..n], c);
      assert run[..n][..i] == run[..i];
      forall j: nat | j < i ensures Silent(token, run, j, c) {
        assert Silent(token, run[..n], j, c) && run[..n][..j] == run[..j];
      }
    } else {
      i := n;
      PutsAtMostOne(token, run[..n], run[n], c);
      forall j: nat | j < n ensures Silent(token, run, j, c) { SilentBefore(token, run[..n], j, c); assert run[..n][..j] == run[..j]; }
    }
  }

  lemma PutsAtMostOne(token: string, run: seq<Event>, e: Event, c: ConnId)
    ensures |Puts(token, run, e, c)| <= 1
  {
  }

  lemma {:induction false} SilentBefore(token: string, run: seq<Event>, j: nat, c: ConnId)
    requires Sent(token, run, c) == [] && j < |run|
    ensures Silent(token, run, j, c)
  {
    hide Puts;
    var n := |run| - 1;
    if j < n {
      SilentBefore(token, run[..n], j, c);
      assert run[..n][..j] == run[..j];
    }
  }

  /** Event i writes a control message or a pong on connection c before any hello_ok was written on it. */
  predicate Overtakes(run: seq<Event>, i: nat, c: ConnId) {
    && i < |run|
    && (|| (run[i].Ping? && run[i].c == c && run[i].written)
        || (run[i].Write? && run[i].written && TargetOf(run[..i], run[i].op).Some? && TargetOf(run[..i], run[i].op).value.conn == c))
    && forall j :: 0 <= j < i ==> run[j] != Event.Welcome(c, true)
  }

  /** An admitted connection's first message is something else than hello_ok exactly when a control message or a pong
      was written before it. */
  lemma FirstMessageIff(token: string, run: seq<Event>, c: ConnId)
    requires Exec(token, run).Some? && Outbox(Exec(token, run).value, c) != []
    requires Exec(token, run).value.conns[c].hello.Some?
    ensures Outbox(Exec(token, run).value, c)[0] != HelloOk <==> exists i :: Overtakes(run, i, c)
  {
    hide Exec, TargetOf, Sent, TokenAfter;
    OutboxIsSent(token, run, c);
    var i := FirstPut(token, run, c);
    AdmittedGetsNoError(token, run, c, i);
    assert forall j: nat :: j < i && run[j] == Event.Welcome(c, true) ==> !Silent(token, run, j, c);
    if exists k :: Overtakes(run, k, c) {
      var k: nat :| Overtakes(run, k, c);
      assert !Silent(token, run, k, c);
    } else {
      assert !Overtakes(run, i, c);
    }
  }

  predicate TurnedAway(s: State, c: ConnId) {
    c in s.conns && s.conns[c].phase.Gone? && s.conns[c].hello.None?
  }

  lemma TurnedAwayStays(s: State, e: Event, c: ConnId)
    requires Enabled(s, e) && TurnedAway(s, c)
    ensures TurnedAway(Apply(s, e), c)
  {
    hide OnEntry, TeardownClients, NewInfo, PingInfo, AckInfo, Seen, RequestId.Make, CheckHello;
  }

  lemma RefusalTurnsAway(s: State, e: Event)
    requires Enabled(s, e) && e.Greet? && e.first.Some? && CheckHello(s.token, e.first.value).Refuse?
    requires s.conns[e.c].hello.None?
    ensures TurnedAway(Apply(s, e), e.c)
  {
    hide CheckHello;
  }

  predicate RefusedAt(token: string, run: seq<Event>, i: nat, c: ConnId) {
    && i < |run| && run[i].Greet? && run[i].c == c && run[i].first.Some?
    && CheckHello(TokenAfter(token, run[..i]), run[i].first.value).Refuse?
  }

  lemma {:induction false} RefusedIsTurnedAway(token: string, run: seq<Event>, i: nat, c: ConnId)
    requires Exec(token, run).Some? && RefusedAt(token, run, i, c)
    ensures TurnedAway(Exec(token, run).value, c)
  {
    hide Apply, CheckHello, TokenAfter;
    var n := |run| - 1;
    var s := Exec(token, run[..n]).value;
    if i < n {
      assert run[..n][..i] == run[..i];
      RefusedIsTurnedAway(token, run[..n], i, c);
      TurnedAwayStays(s, run[n], c);
    } else {
      TokenKnown(token, run[..n]);
      Reachable(token, run[..n]);
      assert ReaderOk(s.conns[c], Current(s.clients, s.conns[c], c));
      RefusalTurnsAway(s, run[n]);
    }
  }

  /** An admitted connection was not refused. */
  lemma AdmittedGetsNoError(token: string, run: seq<Event>, c: ConnId, i: nat)
    requires Exec(token, run).Some? && c in Exec(token, run).value.conns && Exec(token, run).value.conns[c].hello.Some?
    requires i < |run|
    ensures run[i].Greet? && run[i].c == c ==> Puts(token, run[..i], run[i], c) == []
  {
    hide Exec, TokenAfter, CheckHello;
    if RefusedAt(token, run, i, c) { RefusedIsTurnedAway(token, run, i, c); }
  }

  // -- what the client makes of it --

  /** The client's reading of a message by its own text. */
  function Answer(m: ServerMsg): HelloOutcome {
    HandleHelloResponse(Some(Some(m)), Json.Encode(m))
  }

  lemma AnswerToControl(action: Action, key: string, stamp: int)
    ensures Answer(Control(action, RequestId.Make(key, stamp))) == if Contains(key, TYPE_HELLO_OK) then HelloOutcome.Welcome else Retry
  {
    hide Contains, Json.Encode, RequestId.Make;
    Json.ControlMentions(action, key, stamp);
  }

  lemma AnswerToPong()
    ensures Answer(Pong) == Retry
  {
    hide Contains, Json.Encode;
    Json.PongIsSilent();
  }

  lemma AnswerToRefusal(token: string, hello: Option<Hello>)
    requires CheckHello(token, hello).Refuse?
    ensures Answer(Error(CheckHello(token, hello).code, CheckHello(token, hello).message)) == Fatal(CheckHello(token, hello).code)
    ensures IsAuthFailure(CheckHello(token, hello).code)
  {
  }

  /** The key of the connection, as its control messages have it. */
  lemma ControlsCarryKey(token: string, run: seq<Event>, c: ConnId, m: ServerMsg)
    requires Exec(token, run).Some? && m in Outbox(Exec(token, run).value, c) && m.Control?
    ensures exists stamp :: m == Control(m.action, RequestId.Make(Exec(token, run).value.conns[c].Key(), stamp))
  {
    Reachable(token, run);
    var s := Exec(token, run).value;
    assert OnRecord(s.issued, c, m);
    var i: nat :| i < |s.issued| && Carries(s.issued[i], c, m);
    assert KeyedConn(s, s.issued[i].conn, s.issued[i].key);
    assert m == Control(m.action, RequestId.Make(s.conns[c].Key(), s.issued[i].stamp));
  }

  /** What the client makes of the first message it gets, in every reachable state: a connection the hub refused reads
      the refusal and gives up for good; an admitted one is welcomed exactly when hello_ok came first, or when a
      control message came first and the key itself contains the text hello_ok; otherwise it takes the answer for a
      bad one and retries, and whatever had come first is lost. */
  lemma FirstAnswer(token: string, run: seq<Event>, c: ConnId)
    requires Exec(token, run).Some? && Outbox(Exec(token, run).value, c) != []
    ensures var conn := Exec(token, run).value.conns[c];
            var first := conn.outbox[0];
            if conn.hello.None? then first.Error? && IsAuthFailure(first.code) && Answer(first) == Fatal(first.code)
            else
              Answer(first) ==
              if first.HelloOk? || (first.Control? && Contains(conn.Key(), TYPE_HELLO_OK)) then HelloOutcome.Welcome else Retry
  {
    hide Exec, Contains, Json.Encode, RequestId.Make, TargetOf, Sent, TokenAfter, CheckHello;
    OutboxIsSent(token, run, c);
    var i := FirstPut(token, run, c);
    var s := Exec(token, run).value;
    var first := s.conns[c].outbox[0];
    if s.conns[c].hello.Some? {
      AdmittedGetsNoError(token, run, c, i);
      if first.Control? {
        ControlsCarryKey(token, run, c, first);
        var stamp :| first == Control(first.action, RequestId.Make(s.conns[c].Key(), stamp));
        AnswerToControl(first.action, s.conns[c].Key(), stamp);
      }
      AnswerToPong();
    } else {
      StrangerGetsOnlyError(token, run, c, i);
      AnswerToRefusal(TokenAfter(token, run[..i]), run[i].first.value);
    }
  }

  lemma {:induction false} PrefixRuns(token: string, run: seq<Event>, i: nat)
    requires Exec(token, run).Some? && i < |run|
    ensures Exec(token, run[..i]).Some? && Enabled(Exec(token, run[..i]).value, run[i])
  {
    hide Apply, Enabled;
    var n := |run| - 1;
    if i < n {
      PrefixRuns(token, run[..n], i);
      assert run[..n][..i] == run[..i];
    }
  }

  /** Once greeted, a connection stays so. */
  lemma {:induction false} GreetedForGood(token: string, run: seq<Event>, i: nat, c: ConnId)
    requires Exec(token, run).Some? && i <= |run| && Exec(token, run[..i]).Some?
    requires F.Greeted(Exec(token, run[..i]).value, c)
    ensures F.Greeted(Exec(token, run).value, c)
  {
    hide Apply, Enabled;
    if i < |run| {
      var n := |run| - 1;
      assert run[..n][..i] == run[..i];
      PrefixRuns(token, run, n);
      GreetedForGood(token, run[..n], i, c);
      F.GreetedOn(token, run[..n], run[n], c);
    } else {
      assert run[..i] == run;
    }
  }

  /** Whoever is sent a hello_ok, a pong or a control message has been greeted. */
  lemma PutsToGreeted(token: string, run: seq<Event>, e: Event, c: ConnId)
    requires Exec(token, run).Some? && Enabled(Exec(token, run).value, e) && !e.Greet? && Puts(token, run, e, c) != []
    ensures F.Greeted(Exec(token, run).value, c)
  {
    hide Exec, TargetOf, RequestId.Make, CheckHello, TokenAfter;
    var s := Exec(token, run).value;
    Reachable(token, run);
    if e.Write? {
      AllPendingKnown(token, run, e.op);
      assert KeyedConn(s, s.pending[e.op].conn, s.pending[e.op].key);
    } else {
      assert ReaderOk(s.conns[c], Current(s.clients, s.conns[c], c));
    }
  }

  /** A connection that was never admitted is sent nothing but a refusal. */
  lemma StrangerGetsOnlyError(token: string, run: seq<Event>, c: ConnId, i: nat)
    requires Exec(token, run).Some? && c in Exec(token, run).value.conns && Exec(token, run).value.conns[c].hello.None?
    requires i < |run| && Puts(token, run[..i], run[i], c) != []
    ensures RefusedAt(token, run, i, c)
  {
    hide Exec, TargetOf, RequestId.Make, CheckHello, TokenAfter, Enabled;
    PrefixRuns(token, run, i);
    if !run[i].Greet? {
      PutsToGreeted(token, run[..i], run[i], c);
      GreetedForGood(token, run, i, c);
    }
  }
}
