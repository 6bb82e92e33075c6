/** The client hub as a transition system. Every goroutine that serves a connection is cut at the points where it
    takes or leaves the hub's lock, writes, or waits for input, so that any number of them interleave.
    A run is a sequence of events; `Exec` replays it. */
module HubModel {
  import opened Text
  import opened Config
  import opened Protocol
  import RequestId

  datatype Hello = Hello(key: string, token: string, hostname: string, nics: seq<NIC>,
                         version: string, os: string, arch: string)

  datatype ClientInfo = ClientInfo(key: string, hostname: string, nics: seq<NIC>, remote: string,
                                   connected: int, lastSeen: int, version: string, os: string, arch: string,
                                   lastEvent: string, lastError: string, lastEventAt: int)

  type ConnId = nat

  datatype Entry = Entry(info: ClientInfo, conn: ConnId)

  /** Where the goroutine of a connection stands. */
  datatype Phase =
    | Dialed        // waits for the hello
    | Checked       // the hello passed the token check, not yet registered
    | Registered    // in the map, hello_ok not yet written
    | Reading       // in the read loop
    | Leaving       // a read failed, teardown still to come
    | Gone          // returned

  datatype Conn = Conn(hello: Option<Hello>, phase: Phase, closed: bool, outbox: seq<ServerMsg>) {
    function Key(): string { if hello.Some? then hello.value.key else "" }
    predicate Running() { phase.Registered? || phase.Reading? || phase.Leaving? }
  }

  /** A SendControl call between its map lookup and its write. */
  datatype Pending = Pending(key: string, action: Action, conn: ConnId)

  /** A control message that reached the wire. */
  datatype Issue = Issue(key: string, action: Action, stamp: int, conn: ConnId)

  datatype State = State(token: string, clients: map<string, Entry>, conns: map<ConnId, Conn>,
                         pending: map<nat, Pending>, issued: seq<Issue>)

  datatype PingNics = Absent | Malformed | List(nics: seq<NIC>)

  datatype Event =
    | SetToken(token: string)
    | Dial(c: ConnId)
    | Greet(c: ConnId, first: Option<Option<Hello>>, written: bool)  // None: read error; Some(None): no hello
    | Register(c: ConnId, key: string, remote: string, now: int)
    | Welcome(c: ConnId, written: bool)
    | PongFrame(c: ConnId, now: int)
    | Ping(c: ConnId, nics: PingNics, hostname: string, now: int, written: bool)
    | Ack(c: ConnId, failed: bool, status: string, error: string, now: int)
    | ReadError(c: ConnId)
    | Teardown(c: ConnId)
    | Lookup(op: nat, key: string, action: Action)
    | Write(op: nat, now: int, written: bool)

  function Init(token: string): State {
    State(token, map[], map[], map[], [])
  }

  /** Hub.Online */
  predicate Online(s: State, key: string) {
    key != "" && key in s.clients
  }

  // -- what the critical sections do to an entry, shared with the imperative Hub --

  function NewInfo(h: Hello, remote: string, now: int): ClientInfo {
    ClientInfo(h.key, h.hostname, h.nics, remote, now, now, h.version, h.os, h.arch, "", "", 0)
  }

  function Seen(info: ClientInfo, now: int): ClientInfo {
    info.(lastSeen := now)
  }

  function PingInfo(info: ClientInfo, nics: PingNics, hostname: string, now: int): ClientInfo {
    match nics
    case Absent => Seen(info, now)
    case Malformed => info
    case List(list) => Seen(info.(nics := list, hostname := if hostname != "" then hostname else info.hostname), now)
  }

  function AckInfo(info: ClientInfo, failed: bool, status: string, error: string, now: int): ClientInfo {
    var t := if failed then TYPE_SHUTDOWN_ERR else TYPE_SHUTDOWN_ACK;
    Seen(info.(lastEvent := if status != "" then t + ":" + status else t, lastError := error, lastEventAt := now), now)
  }

  /** The entry is looked up by key, whichever connection it belongs to by now. */
  function OnEntry(clients: map<string, Entry>, key: string, f: ClientInfo -> ClientInfo): (r: map<string, Entry>)
    ensures r.Keys == clients.Keys
  {
    if key in clients then clients[key := Entry(f(clients[key].info), clients[key].conn)] else clients
  }

  function TeardownClients(clients: map<string, Entry>, key: string, c: ConnId): map<string, Entry> {
    if key in clients && clients[key].conn == c then clients - {key} else clients
  }

  datatype Verdict = Admit | Refuse(code: string, message: string)

  function CheckHello(token: string, hello: Option<Hello>): Verdict {
    if hello.None? || hello.value.key == "" then Refuse(CODE_INVALID_HELLO, "invalid hello")
    else if token != "" && hello.value.token != token then Refuse(CODE_TOKEN_MISMATCH, "token mismatch")
    else Admit
  }

  // -- steps --

  predicate CanWrite(conn: Conn, written: bool) {
    written ==> !conn.closed
  }

  predicate Enabled(s: State, e: Event) {
    match e
    case SetToken(_) => true
    case Dial(c) => c !in s.conns
    case Greet(c, first, written) => c in s.conns && s.conns[c].phase.Dialed? && CanWrite(s.conns[c], written)
    case Register(c, key, _, _) => c in s.conns && s.conns[c].phase.Checked? && s.conns[c].hello.Some? && s.conns[c].Key() == key
    case Welcome(c, written) => c in s.conns && s.conns[c].phase.Registered? && CanWrite(s.conns[c], written)
    case PongFrame(c, _) => c in s.conns && s.conns[c].phase.Reading?
    case Ping(c, _, _, _, written) => c in s.conns && s.conns[c].phase.Reading? && CanWrite(s.conns[c], written)
    case Ack(c, _, _, _, _) => c in s.conns && s.conns[c].phase.Reading?
    case ReadError(c) => c in s.conns && s.conns[c].phase.Reading?
    case Teardown(c) => c in s.conns && s.conns[c].phase.Leaving?
    case Lookup(op, key, _) => op !in s.pending && key in s.clients
    case Write(op, _, written) =>
      op in s.pending && s.pending[op].conn in s.conns && CanWrite(s.conns[s.pending[op].conn], written)
  }

  function Put(conn: Conn, m: ServerMsg, written: bool): Conn {
    if written then conn.(outbox := conn.outbox + [m]) else conn
  }

  function Close(conns: map<ConnId, Conn>, c: ConnId): map<ConnId, Conn> {
    if c in conns then conns[c := conns[c].(closed := true)] else conns
  }

  function Apply(s: State, e: Event): State
    requires Enabled(s, e)
  {
    match e
    case SetToken(token) => s.(token := token)
    case Dial(c) => s.(conns := s.conns[c := Conn(None, Dialed, false, [])])
    case Greet(c, first, written) =>
      var conn := s.conns[c];
      if first.None? then s.(conns := s.conns[c := conn.(phase := Gone, closed := true)])
      else
        (match CheckHello(s.token, first.value)
         case Admit => s.(conns := s.conns[c := conn.(hello := first.value, phase := Checked)])
         case Refuse(code, text) =>
           s.(conns := s.conns[c := Put(conn, Error(code, text), written).(phase := Gone, closed := true)]))
    case Register(c, key, remote, now) =>
      var conns := if key in s.clients then Close(s.conns, s.clients[key].conn) else s.conns;
      s.(conns := conns[c := s.conns[c].(phase := Registered)],
         clients := s.clients[key := Entry(NewInfo(s.conns[c].hello.value, remote, now), c)])
    case Welcome(c, written) =>
      s.(conns := s.conns[c := Put(s.conns[c], HelloOk, written).(phase := Reading)])
    case PongFrame(c, now) =>
      s.(clients := OnEntry(s.clients, s.conns[c].Key(), i => Seen(i, now)))
    case Ping(c, nics, hostname, now, written) =>
      s.(conns := s.conns[c := Put(s.conns[c], Pong, written)],
         clients := OnEntry(s.clients, s.conns[c].Key(), i => PingInfo(i, nics, hostname, now)))
    case Ack(c, failed, status, error, now) =>
      s.(clients := OnEntry(s.clients, s.conns[c].Key(), i => AckInfo(i, failed, status, error, now)))
    case ReadError(c) => s.(conns := s.conns[c := s.conns[c].(phase := Leaving)])
    case Teardown(c) =>
      s.(clients := TeardownClients(s.clients, s.conns[c].Key(), c),
         conns := s.conns[c := s.conns[c].(phase := Gone, closed := true)])
    case Lookup(op, key, action) =>
      s.(pending := s.pending[op := Pending(key, action, s.clients[key].conn)])
    case Write(op, now, written) =>
      var p := s.pending[op];
      var msg := Control(p.action, RequestId.Make(p.key, now));
      s.(pending := s.pending - {op},
         conns := s.conns[p.conn := Put(s.conns[p.conn], msg, written)],
         issued := if written then s.issued + [Issue(p.key, p.action, now, p.conn)] else s.issued)
  }

  /** The state after a run, or None when some event could not happen. */
  function Exec(token: string, run: seq<Event>): Option<State> {
    if run == [] then Some(Init(token))
    else
      var n := |run| - 1;
      match Exec(token, run[..n])
      case None => None
      case Some(s) => if Enabled(s, run[n]) then Some(Apply(s, run[n])) else None
  }

  // -- what a run says by itself, without looking at the map --

  /** The connection that registered last for a key. */
  function Latest(run: seq<Event>, key: string): Option<ConnId> {
    if run == [] then None
    else
      var n := |run| - 1;
      if run[n].Register? && run[n].key == key then Some(run[n].c) else Latest(run[..n], key)
  }

  predicate TornDown(run: seq<Event>, c: ConnId) {
    Teardown(c) in run
  }

  // -- the invariant --

  /** The connection is the one the map holds for its key. */
  predicate Current(clients: map<string, Entry>, conn: Conn, c: ConnId) {
    conn.Key() in clients && clients[conn.Key()].conn == c
  }

  /** A running reader has been closed by the hub exactly when its entry was taken over. */
  predicate ReaderOk(conn: Conn, current: bool) {
    match conn.phase
    case Dialed => conn.hello.None? && !conn.closed
    case Checked => conn.Key() != "" && !conn.closed
    case Gone => conn.closed
    case _ => conn.Key() != "" && (conn.closed <==> !current)
  }

  ghost predicate ReadersOk(s: State) {
    forall c :: c in s.conns ==> ReaderOk(s.conns[c], Current(s.clients, s.conns[c], c))
  }

  ghost predicate EntryOk(run: seq<Event>, s: State, k: string) {
    if k in s.clients then
      var c := s.clients[k].conn;
      && Latest(run, k) == Some(c) && k != "" && s.clients[k].info.key == k
      && c in s.conns && s.conns[c].Running() && s.conns[c].Key() == k
    else
      Latest(run, k).Some? ==> TornDown(run, Latest(run, k).value)
  }

  ghost predicate MapFollowsRun(run: seq<Event>, s: State) {
    && (forall k :: EntryOk(run, s, k))
    && (forall c :: TornDown(run, c) ==> c in s.conns && s.conns[c].phase.Gone?)
  }

  /** Control messages travel only on connections of the key they were issued for. */
  ghost predicate WireMatchesIssues(s: State) {
    && (forall op :: op in s.pending ==> KeyedConn(s, s.pending[op].conn, s.pending[op].key))
    && (forall i :: 0 <= i < |s.issued| ==> KeyedConn(s, s.issued[i].conn, s.issued[i].key))
    && (forall c, m :: c in s.conns && m in s.conns[c].outbox && m.Control? ==> OnRecord(s.issued, c, m))
  }

  predicate KeyedConn(s: State, c: ConnId, key: string) {
    c in s.conns && !s.conns[c].phase.Dialed? && s.conns[c].Key() == key && key != ""
  }

  ghost predicate OnRecord(issued: seq<Issue>, c: ConnId, m: ServerMsg)
    requires m.Control?
  {
    exists i :: 0 <= i < |issued| && Carries(issued[i], c, m)
  }

  predicate Carries(r: Issue, c: ConnId, m: ServerMsg) {
    r.conn == c && m == Control(r.action, RequestId.Make(r.key, r.stamp))
  }

  ghost predicate Inv(run: seq<Event>, s: State) {
    MapFollowsRun(run, s) && ReadersOk(s) && WireMatchesIssues(s)
  }

  // -- one step --

  lemma {:induction false} LatestOfMore(run: seq<Event>, e: Event)
    ensures forall k :: Latest(run + [e], k) == if e.Register? && e.key == k then Some(e.c) else Latest(run, k)
    ensures forall c :: TornDown(run + [e], c) <==> TornDown(run, c) || e == Teardown(c)
  {
    assert (run + [e])[..|run|] == run;
  }

  /** Every event but Register and Teardown leaves the map's connections and the closed flags of running readers alone. */
  predicate Quiet(e: Event) {
    !e.Register? && !e.Teardown?
  }

  ghost predicate SameEntries(a: map<string, Entry>, b: map<string, Entry>) {
    a.Keys == b.Keys && forall k :: k in a ==> a[k].conn == b[k].conn && a[k].info.key == b[k].info.key
  }

  predicate SameReader(a: Conn, b: Conn) {
    && (a.Running() ==> b.Running() && b.hello == a.hello)
    && (a.phase.Gone? ==> b.phase.Gone?)
  }

  lemma QuietKeepsEntries(s: State, e: Event)
    requires Enabled(s, e) && Quiet(e)
    ensures SameEntries(s.clients, Apply(s, e).clients)
  {
  }

  /** What a quiet event can do to one connection. */
  predicate QuietChange(a: Conn, b: Conn) {
    || (b.hello == a.hello && b.closed == a.closed && (b.phase == a.phase || (a.Running() && b.Running())))
    || (a.phase.Dialed? && b.phase.Gone? && b.closed)
    || (a.phase.Dialed? && b.phase.Checked? && b.Key() != "" && b.closed == a.closed)
  }

  lemma QuietChangesConn(s: State, e: Event, c: ConnId)
    requires Enabled(s, e) && Quiet(e)
    ensures c in s.conns ==> c in Apply(s, e).conns && QuietChange(s.conns[c], Apply(s, e).conns[c])
    ensures c in Apply(s, e).conns && c !in s.conns ==> Apply(s, e).conns[c] == Conn(None, Dialed, false, [])
  {
    hide OnEntry, TeardownClients, NewInfo, PingInfo, AckInfo, Seen, RequestId.Make;
  }

  lemma QuietKeepsReader(s: State, e: Event, c: ConnId)
    requires ReadersOk(s) && Enabled(s, e) && Quiet(e) && SameEntries(s.clients, Apply(s, e).clients)
    ensures c in s.conns ==> c in Apply(s, e).conns && SameReader(s.conns[c], Apply(s, e).conns[c])
    ensures c in Apply(s, e).conns ==>
              ReaderOk(Apply(s, e).conns[c], Current(Apply(s, e).clients, Apply(s, e).conns[c], c))
  {
    hide Apply;
    QuietChangesConn(s, e, c);
    if c in s.conns {
      assert ReaderOk(s.conns[c], Current(s.clients, s.conns[c], c));
    }
  }

  lemma QuietStep(run: seq<Event>, s: State, e: Event)
    requires MapFollowsRun(run, s) && ReadersOk(s) && Enabled(s, e) && Quiet(e)
    ensures MapFollowsRun(run + [e], Apply(s, e)) && ReadersOk(Apply(s, e))
  {
    QuietKeepsEntries(s, e);
    LatestOfMore(run, e);
    var t := Apply(s, e);
    forall c
      ensures c in s.conns ==> c in t.conns && SameReader(s.conns[c], t.conns[c])
      ensures c in t.conns ==> ReaderOk(t.conns[c], Current(t.clients, t.conns[c], c))
    {
      QuietKeepsReader(s, e, c);
    }
    forall k
      ensures EntryOk(run + [e], t, k)
    {
      assert EntryOk(run, s, k);
    }
  }

  lemma RegisterStep(run: seq<Event>, s: State, e: Event)
    requires MapFollowsRun(run, s) && ReadersOk(s) && Enabled(s, e) && e.Register?
    ensures MapFollowsRun(run + [e], Apply(s, e)) && ReadersOk(Apply(s, e))
  {
    hide CheckHello, PingInfo, AckInfo, Seen, RequestId.Make;
    LatestOfMore(run, e);
    var t := Apply(s, e);
    assert ReaderOk(s.conns[e.c], Current(s.clients, s.conns[e.c], e.c));
    assert t.clients == s.clients[e.key := t.clients[e.key]];
    forall k
      ensures EntryOk(run + [e], t, k)
    {
      assert EntryOk(run, s, k) && EntryOk(run, s, e.key);
    }
    forall c | c in t.conns
      ensures ReaderOk(t.conns[c], Current(t.clients, t.conns[c], c))
    {
      assert EntryOk(run, s, e.key);
      assert ReaderOk(s.conns[c], Current(s.clients, s.conns[c], c));
    }
  }

  lemma TeardownStep(run: seq<Event>, s: State, e: Event)
    requires MapFollowsRun(run, s) && ReadersOk(s) && Enabled(s, e) && e.Teardown?
    ensures MapFollowsRun(run + [e], Apply(s, e)) && ReadersOk(Apply(s, e))
  {
    LatestOfMore(run, e);
    var t := Apply(s, e);
    assert t.conns == s.conns[e.c := t.conns[e.c]];
    forall k
      ensures EntryOk(run + [e], t, k)
    {
      assert EntryOk(run, s, k);
    }
    forall c | c in t.conns
      ensures ReaderOk(t.conns[c], Current(t.clients, t.conns[c], c))
    {
      assert ReaderOk(s.conns[c], Current(s.clients, s.conns[c], c));
    }
  }

  /** A control message in an outbox was there before or has just been written. */
  lemma NewMessage(s: State, e: Event, c: ConnId, m: ServerMsg)
    requires Enabled(s, e) && m.Control? && c in Apply(s, e).conns && m in Apply(s, e).conns[c].outbox
    ensures (c in s.conns && m in s.conns[c].outbox)
            || (e.Write? && e.written && var p := s.pending[e.op]; c == p.conn && m == Control(p.action, RequestId.Make(p.key, e.now)))
  {
    hide OnEntry, TeardownClients, NewInfo, PingInfo, AckInfo, Seen, RequestId.Make, CheckHello;
  }

  lemma IssuedGrows(s: State, e: Event)
    requires Enabled(s, e)
    ensures Apply(s, e).issued == s.issued + if e.Write? && e.written then [Issue(s.pending[e.op].key, s.pending[e.op].action, e.now, s.pending[e.op].conn)] else []
  {
  }

  lemma OutboxStep(s: State, e: Event, c: ConnId, m: ServerMsg)
    requires WireMatchesIssues(s) && Enabled(s, e) && m.Control?
    requires c in Apply(s, e).conns && m in Apply(s, e).conns[c].outbox
    ensures OnRecord(Apply(s, e).issued, c, m)
  {
    hide Apply, RequestId.Make;
    var t := Apply(s, e);
    NewMessage(s, e, c, m);
    IssuedGrows(s, e);
    if c in s.conns && m in s.conns[c].outbox {
      assert OnRecord(s.issued, c, m);
      var i :| 0 <= i < |s.issued| && Carries(s.issued[i], c, m);
      assert Carries(t.issued[i], c, m);
    } else {
      assert Carries(t.issued[|s.issued|], c, m);
    }
  }

  lemma KeyedStep(s: State, e: Event, c: ConnId, key: string)
    requires Enabled(s, e) && KeyedConn(s, c, key)
    ensures KeyedConn(Apply(s, e), c, key)
  {
  }

  lemma WireStep(run: seq<Event>, s: State, e: Event)
    requires Inv(run, s) && Enabled(s, e)
    ensures WireMatchesIssues(Apply(s, e))
  {
    var t := Apply(s, e);
    forall c, m | c in t.conns && m in t.conns[c].outbox && m.Control?
      ensures OnRecord(t.issued, c, m)
    {
      OutboxStep(s, e, c, m);
    }
    forall op | op in t.pending
      ensures KeyedConn(t, t.pending[op].conn, t.pending[op].key)
    {
      if op in s.pending { KeyedStep(s, e, s.pending[op].conn, s.pending[op].key); }
      else { assert EntryOk(run, s, e.key); }
    }
    forall i | 0 <= i < |t.issued|
      ensures KeyedConn(t, t.issued[i].conn, t.issued[i].key)
    {
      if i < |s.issued| { KeyedStep(s, e, s.issued[i].conn, s.issued[i].key); }
      else { KeyedStep(s, e, s.pending[e.op].conn, s.pending[e.op].key); }
    }
  }

  // -- all runs --

  lemma {:induction false} Reachable(token: string, run: seq<Event>)
    requires Exec(token, run).Some?
    ensures Inv(run, Exec(token, run).value)
  {
    if run != [] {
      var n := |run| - 1;
      Reachable(token, run[..n]);
      var s, e := Exec(token, run[..n]).value, run[n];
      assert run == run[..n] + [e];
      if Quiet(e) { QuietStep(run[..n], s, e); }
      else if e.Register? { RegisterStep(run[..n], s, e); }
      else { TeardownStep(run[..n], s, e); }
      WireStep(run[..n], s, e);
    }
  }

  /** In every reachable state a key is online exactly when the connection that registered for it last has not been
      torn down, and the map then holds that connection: a late teardown never evicts a newer connection. */
  lemma OnlineIsLatest(token: string, run: seq<Event>, key: string)
    requires Exec(token, run).Some?
    ensures var s := Exec(token, run).value;
            && (Online(s, key) <==> Latest(run, key).Some? && !TornDown(run, Latest(run, key).value))
            && (Online(s, key) ==> s.clients[key].conn == Latest(run, key).value && s.clients[key].info.key == key)
  {
    Reachable(token, run);
    assert EntryOk(run, Exec(token, run).value, key);
  }

  /** Every reader still running for a key, other than the one registered last, has been closed by the hub;
      the one registered last has not. */
  lemma OlderReadersClosed(token: string, run: seq<Event>, c: ConnId)
    requires Exec(token, run).Some?
    requires c in Exec(token, run).value.conns && Exec(token, run).value.conns[c].Running()
    ensures var s := Exec(token, run).value;
            s.conns[c].closed <==> Latest(run, s.conns[c].Key()) != Some(c)
  {
    Reachable(token, run);
    var s := Exec(token, run).value;
    assert ReaderOk(s.conns[c], Current(s.clients, s.conns[c], c));
    assert EntryOk(run, s, s.conns[c].Key());
  }

  // -- who gets in --

  /** The token in force after a run. */
  function TokenAfter(token: string, run: seq<Event>): string {
    if run == [] then token
    else
      var n := |run| - 1;
      if run[n].SetToken? then run[n].token else TokenAfter(token, run[..n])
  }

  /** At position i of the run connection c greeted with this hello and the token then in force admitted it. */
  predicate AdmittedAt(token: string, run: seq<Event>, c: ConnId, hello: Option<Hello>, i: nat) {
    i < |run| && run[i].Greet? && run[i].c == c && run[i].first == Some(hello)
    && CheckHello(TokenAfter(token, run[..i]), hello).Admit?
  }

  /** A connection's hello is the one it had or one that has just been admitted. */
  lemma HelloIsAdmitted(s: State, e: Event, c: ConnId)
    requires Enabled(s, e) && c in Apply(s, e).conns
    ensures var hello := Apply(s, e).conns[c].hello;
            || hello.None? || (c in s.conns && s.conns[c].hello == hello)
            || (e.Greet? && e.c == c && e.first == Some(hello) && CheckHello(s.token, hello).Admit?)
    ensures Apply(s, e).token == if e.SetToken? then e.token else s.token
  {
    hide OnEntry, TeardownClients, NewInfo, PingInfo, AckInfo, Seen, RequestId.Make;
  }

  lemma TokenStep(token: string, run: seq<Event>, s: State, e: Event)
    requires Enabled(s, e) && s.token == TokenAfter(token, run)
    ensures Apply(s, e).token == TokenAfter(token, run + [e])
  {
    hide OnEntry, TeardownClients, NewInfo, PingInfo, AckInfo, Seen, RequestId.Make, CheckHello;
    assert (run + [e])[..|run|] == run;
  }

  /** Whoever ever got past the greeting presented a key and the token of that moment. */
  lemma {:induction false} OnlyAdmitted(token: string, run: seq<Event>)
    requires Exec(token, run).Some?
    ensures Exec(token, run).value.token == TokenAfter(token, run)
    ensures forall c :: c in Exec(token, run).value.conns && Exec(token, run).value.conns[c].hello.Some? ==>
              exists i :: AdmittedAt(token, run, c, Exec(token, run).value.conns[c].hello, i)
  {
    if run != [] {
      hide Apply, CheckHello;
      var n := |run| - 1;
      OnlyAdmitted(token, run[..n]);
      var s, t := Exec(token, run[..n]).value, Exec(token, run).value;
      assert run == run[..n] + [run[n]];
      TokenStep(token, run[..n], s, run[n]);
      forall c | c in t.conns && t.conns[c].hello.Some?
        ensures exists i :: AdmittedAt(token, run, c, t.conns[c].hello, i)
      {
        HelloIsAdmitted(s, run[n], c);
        if c in s.conns && s.conns[c].hello == t.conns[c].hello {
          var i: nat :| AdmittedAt(token, run[..n], c, t.conns[c].hello, i);
          assert run[..n][..i] == run[..i];
          assert AdmittedAt(token, run, c, t.conns[c].hello, i);
        } else {
          assert AdmittedAt(token, run, c, t.conns[c].hello, n);
        }
      }
    }
  }

  // -- what does not hold --

  const PC := Hello("pc", "", "a", [], "", "", "")

  /** Connection 0 registered and was superseded by connection 1; its reader has not noticed. */
  const SUPERSEDED :=
    State("", map["pc" := Entry(NewInfo(PC, "", 2), 1)],
          map[0 := Conn(Some(PC), Reading, true, [HelloOk]), 1 := Conn(Some(PC), Registered, false, [])], map[], [])

  const CONNECTED :=
    State("", map["pc" := Entry(NewInfo(PC, "", 1), 0)],
          map[0 := Conn(Some(PC), Reading, false, [HelloOk])], map[], [])

  lemma ConnectedIsReachable() returns (run: seq<Event>)
    ensures Exec("", run) == Some(CONNECTED) && (forall i :: 0 <= i < |run| ==> !run[i].Ack?)
  {
    var s;
    run, s := Extend("", [], Init(""), Dial(0));
    run, s := Extend("", run, s, Greet(0, Some(Some(PC)), true));
    run, s := Extend("", run, s, Register(0, "pc", "", 1));
    assert s.conns[0] == Conn(Some(PC), Registered, false, []);
    run, s := Extend("", run, s, Event.Welcome(0, true));
    assert s.conns[0].outbox == [HelloOk];
    assert s.conns == CONNECTED.conns && s.clients == CONNECTED.clients;
  }

  lemma SupersededIsReachable() returns (run: seq<Event>)
    ensures Exec("", run) == Some(SUPERSEDED) && (forall i :: 0 <= i < |run| ==> !run[i].Ack?)
  {
    run := ConnectedIsReachable();
    var s;
    run, s := Extend("", run, CONNECTED, Dial(1));
    run, s := Extend("", run, s, Greet(1, Some(Some(PC)), true));
    run, s := Extend("", run, s, Register(1, "pc", "", 2));
    assert s.conns == SUPERSEDED.conns && s.clients == SUPERSEDED.clients;
  }

  /** The fields of an entry need not come from the connection it holds: the reader of a superseded connection
      looks the entry up by key and so rewrites its successor's. Here connection 1 holds the entry for "pc" but
      has reported nothing; the entry's last event is one of connection 0, which the hub has already closed. */
  lemma StaleReaderWritesNewerEntry()
    ensures exists run: seq<Event>, s: State ::
              && Exec("", run) == Some(s) && Online(s, "pc") && s.clients["pc"].conn == 1
              && s.clients["pc"].info.lastEvent == TYPE_SHUTDOWN_ERR
              && (forall i :: 0 <= i < |run| && run[i].Ack? ==> run[i].c == 0)
  {
    var run := SupersededIsReachable();
    var after, s := Extend("", run, SUPERSEDED, Ack(0, true, "", "late", 3));
  }

  lemma Extend(token: string, run: seq<Event>, s: State, e: Event) returns (more: seq<Event>, t: State)
    requires Exec(token, run) == Some(s) && Enabled(s, e)
    ensures more == run + [e] && t == Apply(s, e) && Exec(token, more) == Some(t)
  {
    more, t := run + [e], Apply(s, e);
    assert more[..|run|] == run;
  }
}
