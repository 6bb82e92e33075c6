/** Hub, network and client processes together. Any number of processes dial, are superseded and come back; connections
    that belong to no such process may come and go as well. The network is as bad as it can be: a message that reached
    the wire of a connection may arrive on that connection never, late, out of order or several times. */
module EndToEnd {
  import opened Text
  import opened Protocol
  import RequestId
  import Json
  import H = HubModel
  import C = ControlModel
  import opened Control

  type ProcId = nat

  datatype Origin = Origin(conn: H.ConnId, index: nat)

  /** A client process: its key, what it has done since `start`, and for each handled message where it came from. */
  datatype Proc = Proc(key: string, start: int, run: seq<C.Event>, client: C.State, origins: seq<Origin>)

  datatype Session = AwaitingAnswer | Live | Over

  datatype State = State(token: string, hubRun: seq<H.Event>, hub: H.State,
                         procs: map<ProcId, Proc>, owner: map<H.ConnId, ProcId>, sessions: map<H.ConnId, Session>)

  datatype Event =
    | Server(h: H.Event)
    | Spawn(p: ProcId, key: string, now: int)
    | Open(p: ProcId, c: H.ConnId)
    | Answer(c: H.ConnId, index: nat)
    | Deliver(c: H.ConnId, index: nat, now: int)
    | Hangup(c: H.ConnId)
    | Client(p: ProcId, e: C.Event)

  function Init(token: string): State {
    State(token, [], H.Init(token), map[], map[], map[])
  }

  /** A process greets with its own key, and dials only through Open. */
  predicate HonestGreeting(s: State, h: H.Event) {
    h.Greet? && h.c in s.owner && s.owner[h.c] in s.procs && h.first.Some? && h.first.value.Some? ==>
      h.first.value.value.key == s.procs[s.owner[h.c]].key
  }

  predicate OnWire(s: State, c: H.ConnId, index: nat) {
    c in s.owner && s.owner[c] in s.procs && c in s.sessions && c in s.hub.conns && index < |s.hub.conns[c].outbox|
  }

  predicate Enabled(s: State, e: Event) {
    match e
    case Server(h) => H.Enabled(s.hub, h) && HonestGreeting(s, h)
    case Spawn(p, _, _) => p !in s.procs
    case Open(p, c) => p in s.procs && c !in s.owner && H.Enabled(s.hub, H.Dial(c))
    case Answer(c, index) => OnWire(s, c, index) && s.sessions[c].AwaitingAnswer?
    case Deliver(c, index, now) =>
      OnWire(s, c, index) && s.sessions[c].Live? && s.procs[s.owner[c]].client.now <= now
    case Hangup(c) => c in s.sessions
    case Client(p, e) => p in s.procs && !e.Receive? && C.Enabled(s.procs[p].client, e)
  }

  function Advance(p: Proc, e: C.Event, origins: seq<Origin>): Proc
    requires C.Enabled(p.client, e)
  {
    p.(run := p.run + [e], client := C.Apply(p.client, e), origins := origins)
  }

  function Apply(s: State, e: Event): State
    requires Enabled(s, e)
  {
    match e
    case Server(h) => s.(hubRun := s.hubRun + [h], hub := H.Apply(s.hub, h))
    case Spawn(p, key, now) => s.(procs := s.procs[p := Proc(key, now, [], C.Init(now), [])])
    case Open(p, c) =>
      s.(hubRun := s.hubRun + [H.Dial(c)], hub := H.Apply(s.hub, H.Dial(c)),
         owner := s.owner[c := p], sessions := s.sessions[c := AwaitingAnswer])
    case Answer(c, index) =>
      var m := s.hub.conns[c].outbox[index];
      var outcome := HandleHelloResponse(Some(Some(m)), Json.Encode(m));
      s.(sessions := s.sessions[c := if outcome.Welcome? then Live else Over])
    case Deliver(c, index, now) =>
      (match Dispatch(s.hub.conns[c].outbox[index])
       case None => s
       case Some(id) =>
         var p := s.procs[s.owner[c]];
         s.(procs := s.procs[s.owner[c] := Advance(p, C.Receive(id, now), p.origins + [Origin(c, index)])]))
    case Hangup(c) => s.(sessions := s.sessions[c := Over])
    case Client(p, e) => s.(procs := s.procs[p := Advance(s.procs[p], e, s.procs[p].origins)])
  }

  function Exec(token: string, run: seq<Event>): Option<State> {
    if run == [] then Some(Init(token))
    else
      var n := |run| - 1;
      match Exec(token, run[..n])
      case None => None
      case Some(s) => if Enabled(s, run[n]) then Some(Apply(s, run[n])) else None
  }

  // -- the invariant --

  /** A handled message is a shutdown on the wire of a connection this process opened. */
  predicate OriginOk(s: State, p: ProcId, i: nat)
    requires p in s.procs && i < |s.procs[p].client.calls| == |s.procs[p].origins|
  {
    var o := s.procs[p].origins[i];
    && o.conn in s.owner && s.owner[o.conn] == p
    && o.conn in s.hub.conns && o.index < |s.hub.conns[o.conn].outbox|
    && s.hub.conns[o.conn].outbox[o.index] == Control(Shutdown, s.procs[p].client.calls[i].id)
  }

  ghost predicate ProcOk(s: State, p: ProcId)
    requires p in s.procs
  {
    var q := s.procs[p];
    && C.Exec(q.start, q.run) == Some(q.client)
    && |q.origins| == |q.client.calls|
    && (forall i :: 0 <= i < |q.origins| ==> OriginOk(s, p, i))
  }

  predicate OwnedOk(s: State, c: H.ConnId)
    requires c in s.owner
  {
    && s.owner[c] in s.procs && c in s.hub.conns
    && (s.hub.conns[c].hello.Some? ==> s.hub.conns[c].hello.value.key == s.procs[s.owner[c]].key)
  }

  ghost predicate Inv(s: State) {
    && H.Exec(s.token, s.hubRun) == Some(s.hub)
    && (forall p :: p in s.procs ==> ProcOk(s, p))
    && (forall c :: c in s.owner ==> OwnedOk(s, c))
  }

  lemma HubExtends(s: State, h: H.Event)
    requires H.Exec(s.token, s.hubRun) == Some(s.hub) && H.Enabled(s.hub, h)
    ensures H.Exec(s.token, s.hubRun + [h]) == Some(H.Apply(s.hub, h))
  {
    assert (s.hubRun + [h])[..|s.hubRun|] == s.hubRun;
  }

  /** Connections are never forgotten, outboxes only grow, and a hello is set once, by a greeting. */
  lemma HubMonotone(s: H.State, h: H.Event, c: H.ConnId)
    requires H.Enabled(s, h) && c in s.conns
    ensures var t := H.Apply(s, h);
            && c in t.conns && s.conns[c].outbox <= t.conns[c].outbox
            && (t.conns[c].hello != s.conns[c].hello ==> h.Greet? && h.c == c && h.first == Some(t.conns[c].hello))
  {
  }

  /** An event of the hub leaves every process alone. */
  lemma ServerStep(s: State, t: State, h: H.Event)
    requires Inv(s) && H.Enabled(s.hub, h) && HonestGreeting(s, h)
    requires t == s.(hubRun := s.hubRun + [h], hub := H.Apply(s.hub, h))
    ensures Inv(t)
  {
    HubExtends(s, h);
    forall p | p in t.procs
      ensures ProcOk(t, p)
    {
      assert ProcOk(s, p);
      forall i | 0 <= i < |t.procs[p].origins|
        ensures OriginOk(t, p, i)
      {
        assert OriginOk(s, p, i);
        HubMonotone(s.hub, h, s.procs[p].origins[i].conn);
      }
    }
    forall c | c in t.owner
      ensures OwnedOk(t, c)
    {
      assert OwnedOk(s, c);
      HubMonotone(s.hub, h, c);
    }
  }

  /** A step of one process keeps what is known of it and of the others. */
  lemma ProcStep(s: State, t: State, p: ProcId, e: C.Event, origins: seq<Origin>)
    requires Inv(s) && p in s.procs && C.Enabled(s.procs[p].client, e)
    requires t == s.(procs := s.procs[p := Advance(s.procs[p], e, origins)])
    requires |origins| == |t.procs[p].client.calls| && s.procs[p].origins <= origins
    requires forall i :: |s.procs[p].origins| <= i < |origins| ==> OriginOk(t, p, i)
    ensures Inv(t)
  {
    forall q | q in t.procs
      ensures ProcOk(t, q)
    {
      assert ProcOk(s, q) && ProcOk(s, p);
      var run := t.procs[p].run;
      assert run[..|run| - 1] == s.procs[p].run;
      forall i | 0 <= i < |t.procs[q].origins|
        ensures OriginOk(t, q, i)
      {
        if q != p || i < |s.procs[p].origins| {
          assert OriginOk(s, q, i);
        }
      }
    }
    forall c | c in t.owner
      ensures OwnedOk(t, c)
    {
      assert OwnedOk(s, c);
    }
  }

  lemma SessionStep(s: State, e: Event)
    requires Inv(s) && Enabled(s, e) && (e.Spawn? || e.Answer? || e.Hangup?)
    ensures Inv(Apply(s, e))
  {
    var t := Apply(s, e);
    forall p | p in t.procs
      ensures ProcOk(t, p)
    {
      if p in s.procs {
        assert ProcOk(s, p);
        forall i | 0 <= i < |t.procs[p].origins|
          ensures OriginOk(t, p, i)
        {
          assert OriginOk(s, p, i);
        }
      }
    }
    forall c | c in t.owner
      ensures OwnedOk(t, c)
    {
      assert OwnedOk(s, c);
    }
  }

  lemma OpenStep(s: State, e: Event)
    requires Inv(s) && Enabled(s, e) && e.Open?
    ensures Inv(Apply(s, e))
  {
    var t := Apply(s, e);
    var m := s.(hubRun := s.hubRun + [H.Dial(e.c)], hub := H.Apply(s.hub, H.Dial(e.c)));
    ServerStep(s, m, H.Dial(e.c));
    forall p | p in t.procs
      ensures ProcOk(t, p)
    {
      assert ProcOk(m, p);
      forall i | 0 <= i < |t.procs[p].origins|
        ensures OriginOk(t, p, i)
      {
        assert OriginOk(m, p, i);
      }
    }
    forall c | c in t.owner
      ensures OwnedOk(t, c)
    {
      if c != e.c { assert OwnedOk(m, c); }
    }
  }

  lemma {:induction false} Reachable(token: string, run: seq<Event>)
    requires Exec(token, run).Some?
    ensures Inv(Exec(token, run).value)
  {
    if run != [] {
      var n := |run| - 1;
      Reachable(token, run[..n]);
      var s, e, t := Exec(token, run[..n]).value, run[n], Exec(token, run).value;
      match e
      case Server(h) => ServerStep(s, t, h);
      case Open(_, _) => OpenStep(s, e);
      case Deliver(c, index, now) =>
        var p := s.owner[c];
        assert OwnedOk(s, c) && ProcOk(s, p);
        var id := Dispatch(s.hub.conns[c].outbox[index]);
        if id.Some? {
          ProcStep(s, t, p, C.Receive(id.value, now), t.procs[p].origins);
        }
      case Client(p, ce) =>
        assert ProcOk(s, p);
        ProcStep(s, t, p, ce, s.procs[p].origins);
      case _ => SessionStep(s, e);
    }
  }

  // -- the guarantees --

  /** The id behind the x-th command a process ran. */
  function CommandId(s: State, p: ProcId, x: nat): string
    requires p in s.procs && x < |s.procs[p].client.commands|
  {
    var c := s.procs[p].client;
    if c.commands[x] < |c.calls| then c.calls[c.commands[x]].id else ""
  }

  /** Record i of the hub is a shutdown for the key of this process, sent on a connection it opened. */
  predicate IssuedTo(s: State, p: ProcId, id: string, i: nat) {
    && i < |s.hub.issued| && p in s.procs
    && var r := s.hub.issued[i];
       && r.action == Shutdown && r.key == s.procs[p].key && id == RequestId.Make(r.key, r.stamp)
       && r.conn in s.owner && s.owner[r.conn] == p
  }

  /** Every command a client process runs carries the id of a shutdown the hub issued to that process's key;
      a restart never runs anything. */
  lemma CommandsComeFromShutdowns(token: string, run: seq<Event>, p: ProcId, x: nat)
    requires Exec(token, run).Some? && p in Exec(token, run).value.procs
    requires x < |Exec(token, run).value.procs[p].client.commands|
    ensures exists i :: IssuedTo(Exec(token, run).value, p, CommandId(Exec(token, run).value, p, x), i)
  {
    Reachable(token, run);
    var s := Exec(token, run).value;
    var q := s.procs[p];
    assert ProcOk(s, p);
    C.Reachable(q.start, q.run);
    var j := q.client.commands[x];
    assert j in q.client.commands;
    assert OriginOk(s, p, j);
    var c := q.origins[j].conn;
    H.Reachable(s.token, s.hubRun);
    var m := s.hub.conns[c].outbox[q.origins[j].index];
    assert m in s.hub.conns[c].outbox;
    assert H.OnRecord(s.hub.issued, c, m);
    var i :| 0 <= i < |s.hub.issued| && H.Carries(s.hub.issued[i], c, m);
    assert OwnedOk(s, c) && H.KeyedConn(s.hub, s.hub.issued[i].conn, s.hub.issued[i].key);
    assert IssuedTo(s, p, CommandId(s, p, x), i);
  }

  /** The hub's clock advanced between any two control messages for one key. */
  ghost predicate StampsIncrease(issued: seq<H.Issue>) {
    && (forall i :: 0 <= i < |issued| ==> issued[i].stamp >= 0)
    && (forall i, j :: 0 <= i < j < |issued| && issued[i].key == issued[j].key ==> issued[i].stamp < issued[j].stamp)
  }

  /** No copy of a message arrived more than ten minutes after another. */
  ghost predicate RedeliveredSoon(calls: seq<C.Call>) {
    forall i, j :: 0 <= i < j < |calls| && calls[i].id == calls[j].id ==> calls[j].stamp <= calls[i].stamp + C.TEN_MINUTES
  }

  lemma OneRecordPerId(issued: seq<H.Issue>, i: nat, j: nat)
    requires StampsIncrease(issued) && i < |issued| && j < |issued|
    requires RequestId.Make(issued[i].key, issued[i].stamp) == RequestId.Make(issued[j].key, issued[j].stamp)
    ensures i == j
  {
    RequestId.Injective(issued[i].key, issued[i].stamp, issued[j].key, issued[j].stamp);
  }

  /** Then no call raced with a delete either, since that takes an acceptance more than ten minutes before. */
  lemma OneCommandPerId(start: int, run: seq<C.Event>, c: C.State, x: nat, y: nat)
    requires C.Exec(start, run) == Some(c) && RedeliveredSoon(c.calls)
    requires x < |c.commands| && y < |c.commands| && c.commands[x] < |c.calls| && c.commands[y] < |c.calls|
    requires c.calls[c.commands[x]].id == c.calls[c.commands[y]].id != ""
    ensures x == y
  {
    NoRace(c.calls, c.commands[x]);
    NoRace(c.calls, c.commands[y]);
    hide C.RaceFrom, C.Exec;
    if x != y { C.CommandsOfOneIdApart(start, run, x, y); }
  }

  lemma NoRace(calls: seq<C.Call>, i: nat)
    requires RedeliveredSoon(calls) && i < |calls|
    ensures !C.RaceFrom(calls, i)
  {
    forall j: nat ensures !C.LongBefore(calls, calls[i].id, i, j, calls[i].stamp) {
      if j < i && calls[j].id == calls[i].id { assert calls[i].stamp <= calls[j].stamp + C.TEN_MINUTES; }
    }
  }

  /** No request id runs twice, in whatever processes. */
  lemma EachIdRunsOnce(token: string, run: seq<Event>, p: ProcId, x: nat, q: ProcId, y: nat)
    requires Exec(token, run).Some?
    requires var s := Exec(token, run).value;
             && p in s.procs && x < |s.procs[p].client.commands|
             && q in s.procs && y < |s.procs[q].client.commands|
             && CommandId(s, p, x) == CommandId(s, q, y)
             && StampsIncrease(s.hub.issued) && (forall r :: r in s.procs ==> RedeliveredSoon(s.procs[r].client.calls))
    ensures p == q && x == y
  {
    var s := Exec(token, run).value;
    CommandsComeFromShutdowns(token, run, p, x);
    CommandsComeFromShutdowns(token, run, q, y);
    var id := CommandId(s, p, x);
    var i: nat :| IssuedTo(s, p, id, i);
    var j: nat :| IssuedTo(s, q, id, j);
    OneRecordPerId(s.hub.issued, i, j);
    assert |id| > 0;
    Reachable(token, run);
    assert ProcOk(s, p);
    var r := s.procs[p];
    C.CommandsAreCalls(r.start, r.run);
    OneCommandPerId(r.start, r.run, r.client, x, y);
  }
}
