/** Who is let in: what becomes of a connection is settled by its greeting and the token in force at that moment. */
module HubAdmit {
  import opened Text
  import opened Protocol
  import opened HubModel
  import RequestId

  /** A hello with a key and, where a token is configured, with that token. */
  predicate Acceptable(hello: Option<Hello>, token: string) {
    hello.Some? && hello.value.key != "" && (token == "" || hello.value.token == token)
  }

  /** The answer to a hello that is not. */
  function RefusalOf(hello: Option<Hello>): ServerMsg {
    if hello.None? || hello.value.key == "" then Error("invalid_hello", "invalid hello")
    else Error("token_mismatch", "token mismatch")
  }

  /** A connection after its greeting: `first` is what was read, None when nothing could be. */
  predicate Settled(conn: Conn, first: Option<Option<Hello>>, token: string, written: bool) {
    if first.Some? && Acceptable(first.value, token) then conn.hello == first.value && !conn.phase.Dialed?
    else
      && conn.hello.None? && conn.phase.Gone? && conn.closed
      && conn.outbox == if first.Some? && written then [RefusalOf(first.value)] else []
  }

  predicate UntouchedDial(conn: Conn) {
    conn.phase.Dialed? ==> conn == Conn(None, Dialed, false, [])
  }

  ghost predicate DialsUntouched(s: State) {
    forall c :: c in s.conns ==> UntouchedDial(s.conns[c])
  }

  lemma UntouchedStep(run: seq<Event>, s: State, e: Event, c: ConnId)
    requires Enabled(s, e) && Inv(run, s) && c in Apply(s, e).conns && (c in s.conns ==> UntouchedDial(s.conns[c]))
    ensures UntouchedDial(Apply(s, e).conns[c])
  {
    hide OnEntry, TeardownClients, NewInfo, PingInfo, AckInfo, Seen, RequestId.Make, CheckHello, Latest, ReadersOk;
    if e.Write? { assert KeyedConn(s, s.pending[e.op].conn, s.pending[e.op].key); }
    if e.Register? { assert EntryOk(run, s, e.key); }
  }

  lemma {:induction false} AllUntouched(token: string, run: seq<Event>)
    requires Exec(token, run).Some?
    ensures DialsUntouched(Exec(token, run).value)
  {
    if run != [] {
      hide Apply, UntouchedDial, Inv;
      var n := |run| - 1;
      var s, t := Exec(token, run[..n]).value, Exec(token, run).value;
      AllUntouched(token, run[..n]);
      Reachable(token, run[..n]);
      forall c | c in t.conns ensures UntouchedDial(t.conns[c]) { UntouchedStep(run[..n], s, run[n], c); }
    }
  }

  lemma GreetSettles(s: State, e: Event)
    requires Enabled(s, e) && e.Greet? && UntouchedDial(s.conns[e.c])
    ensures e.c in Apply(s, e).conns && Settled(Apply(s, e).conns[e.c], e.first, s.token, e.written)
  {
  }

  /** Later events leave it settled. */
  lemma SettledStays(s: State, e: Event, c: ConnId, first: Option<Option<Hello>>, token: string, written: bool)
    requires Enabled(s, e) && c in s.conns && Settled(s.conns[c], first, token, written)
    ensures c in Apply(s, e).conns && Settled(Apply(s, e).conns[c], first, token, written)
  {
    hide OnEntry, TeardownClients, NewInfo, PingInfo, AckInfo, Seen, RequestId.Make, CheckHello, RefusalOf;
  }

  /** In every run, a greeting at position i leaves its connection admitted with the hello it read exactly when the hello
      has a key and no token is configured at that moment or it is the hello's; otherwise the connection is closed, gone,
      and has been sent at most the refusal that says which of the two was wrong. */
  lemma {:induction false} GreetingDecides(token: string, run: seq<Event>, i: nat)
    requires Exec(token, run).Some? && i < |run| && run[i].Greet?
    ensures var s, e := Exec(token, run).value, run[i];
            e.c in s.conns && Settled(s.conns[e.c], e.first, TokenAfter(token, run[..i]), e.written)
  {
    hide Apply, CheckHello, Settled, UntouchedDial, TokenAfter;
    var n := |run| - 1;
    var s := Exec(token, run[..n]).value;
    if i < n {
      assert run[..n][..i] == run[..i];
      GreetingDecides(token, run[..n], i);
      SettledStays(s, run[n], run[i].c, run[i].first, TokenAfter(token, run[..i]), run[i].written);
    } else {
      AllUntouched(token, run[..n]);
      OnlyAdmitted(token, run[..n]);
      assert run[i].c in s.conns by { EnabledGreet(s, run[i]); }
      GreetSettles(s, run[i]);
    }
  }

  lemma EnabledGreet(s: State, e: Event)
    requires Enabled(s, e) && e.Greet?
    ensures e.c in s.conns
  {
  }

  /** So a connection is admitted exactly when some greeting of it was acceptable at its moment. */
  lemma AdmittedIff(token: string, run: seq<Event>, c: ConnId)
    requires Exec(token, run).Some? && c in Exec(token, run).value.conns
    ensures Exec(token, run).value.conns[c].hello.Some? <==>
            exists i :: AcceptedAt(token, run, c, i)
  {
    hide Exec, CheckHello, TokenAfter;
    var s := Exec(token, run).value;
    if s.conns[c].hello.Some? {
      OnlyAdmitted(token, run);
      var i: nat :| AdmittedAt(token, run, c, s.conns[c].hello, i);
      GreetingDecides(token, run, i);
      assert AcceptedAt(token, run, c, i);
    }
    if i: nat :| AcceptedAt(token, run, c, i) { GreetingDecides(token, run, i); }
  }

  predicate AcceptedAt(token: string, run: seq<Event>, c: ConnId, i: nat) {
    && i < |run| && run[i].Greet? && run[i].c == c && run[i].first.Some?
    && Acceptable(run[i].first.value, TokenAfter(token, run[..i]))
  }
}
