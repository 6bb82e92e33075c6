/** That shutdowns arrive: what handing a message to a process does, and that a shutdown on the wire can be run, from any
    reachable state of the whole system. */
module Delivery {
  import opened Text
  import opened Protocol
  import opened EndToEnd
  import RequestId
  import Json
  import H = HubModel
  import C = ControlModel

  // -- one delivery --

  /** The process has taken in one more message, with this id, received at this time from this place. */
  predicate TookIn(before: Proc, after: Proc, id: string, now: int, from: Origin) {
    && after.key == before.key && after.start == before.start
    && after.origins == before.origins + [from]
    && |after.client.calls| == |before.client.calls| + 1 && after.client.calls[..|before.client.calls|] == before.client.calls
    && after.client.attempts == before.client.attempts && after.client.commands == before.client.commands
    && var call := after.client.calls[|before.client.calls|];
       && call.id == id && call.stamp == now && call.phase.Received?
       && (call.duplicate <==> id != "" && id in before.client.recent)
       && (id != "" ==> id in after.client.recent)
  }

  /** Handing a message to a process: a shutdown is taken in by the owner of the connection, whatever its id; every other
      message changes nothing, and nobody else is affected. */
  lemma DeliveryIsHandled(s: State, c: H.ConnId, index: nat, now: int)
    requires Enabled(s, Deliver(c, index, now))
    ensures var t, p, m := Apply(s, Deliver(c, index, now)), s.owner[c], s.hub.conns[c].outbox[index];
            && t == s.(procs := t.procs) && t.procs.Keys == s.procs.Keys
            && (forall q :: q in s.procs && q != p ==> t.procs[q] == s.procs[q])
            && (if m.Control? && m.action == Shutdown then
                  TookIn(s.procs[p], t.procs[p], m.requestId, now, Origin(c, index))
                else t == s)
  {
    hide C.Doomed;
    var p := s.owner[c];
    var t := Apply(s, Deliver(c, index, now));
    assert s.procs.Keys == s.procs.Keys + {p};
    if t != s {
      var before, after := s.procs[p].client.calls, t.procs[p].client.calls;
      assert after[..|before|] == before;
    }
  }

  // -- over runs --

  lemma Extend(token: string, run: seq<Event>, s: State, e: Event) returns (longer: seq<Event>, t: State)
    requires Exec(token, run) == Some(s) && Enabled(s, e)
    ensures longer == run + [e] && t == Apply(s, e) && Exec(token, longer) == Some(t)
  {
    longer, t := run + [e], Apply(s, e);
    assert longer[..|run|] == run;
  }

  /** The call keeps its id, its time and its verdict. */
  predicate CallStays(a: C.State, b: C.State, i: nat) {
    i < |a.calls| ==> i < |b.calls| && b.calls[i].id == a.calls[i].id && b.calls[i].duplicate == a.calls[i].duplicate
  }

  lemma CallStaysStep(s: State, e: Event, p: ProcId, i: nat)
    requires Enabled(s, e) && p in s.procs
    ensures p in Apply(s, e).procs && CallStays(s.procs[p].client, Apply(s, e).procs[p].client, i)
  {
    hide C.Apply, C.Enabled, C.Doomed, H.Apply, H.Enabled, HandleHelloResponse;
    match e
    case Deliver(c, index, now) =>
      var m := s.hub.conns[c].outbox[index];
      if m.Control? {
        ReceivesAny(s.procs[s.owner[c]].client, m.requestId, now);
        C.CallsStay(s.procs[s.owner[c]].client, C.Receive(m.requestId, now));
      }
    case Client(q, ce) => C.CallsStay(s.procs[q].client, ce);
    case _ =>
  }

  lemma ReceivesAny(s: C.State, id: string, now: int)
    requires s.now <= now
    ensures C.Enabled(s, C.Receive(id, now))
  {
  }

  lemma {:induction false} CallStaysOver(token: string, run: seq<Event>, more: seq<Event>, p: ProcId, i: nat)
    requires Exec(token, run).Some? && p in Exec(token, run).value.procs && Exec(token, run + more).Some?
    ensures p in Exec(token, run + more).value.procs
    ensures CallStays(Exec(token, run).value.procs[p].client, Exec(token, run + more).value.procs[p].client, i)
  {
    if more == [] {
      assert run + more == run;
    } else {
      hide Apply, Enabled;
      var n := |more| - 1;
      assert (run + more)[..|run| + n] == run + more[..n] && (run + more)[|run| + n] == more[n];
      CallStaysOver(token, run, more[..n], p, i);
      CallStaysStep(Exec(token, run + more[..n]).value, more[n], p, i);
    }
  }

  /** Some continuation of the run runs the command of call i of this process. */
  ghost predicate CanRun(token: string, run: seq<Event>, p: ProcId, i: nat) {
    exists more :: RunsIn(token, run + more, p, i)
  }

  predicate RunsIn(token: string, run: seq<Event>, p: ProcId, i: nat) {
    var s := Exec(token, run);
    s.Some? && p in s.value.procs && i in s.value.procs[p].client.commands
  }

  /** A call that is not a duplicate and has not been answered can be answered and run. */
  lemma AnswerAndRun(token: string, run: seq<Event>, s: State, p: ProcId, i: nat)
    requires Exec(token, run) == Some(s) && p in s.procs && i < |s.procs[p].client.calls|
    requires s.procs[p].client.calls[i].phase.Received? && !s.procs[p].client.calls[i].duplicate
    ensures CanRun(token, run, p, i)
  {
    hide Exec, C.Doomed;
    var r, t := Extend(token, run, s, Client(p, C.Acknowledge(i)));
    var q, u := Extend(token, r, t, Client(p, C.RunCommand(i, true)));
    var more := [Client(p, C.Acknowledge(i)), Client(p, C.RunCommand(i, true))];
    assert q == run + more;
    assert u.procs[p].client.commands[|t.procs[p].client.commands|] == i;
    assert RunsIn(token, run + more, p, i);
  }

  lemma DuplicatesNeverRun(token: string, run: seq<Event>, p: ProcId, i: nat)
    requires Exec(token, run).Some? && p in Exec(token, run).value.procs
    requires i < |Exec(token, run).value.procs[p].client.calls| && Exec(token, run).value.procs[p].client.calls[i].duplicate
    ensures !CanRun(token, run, p, i)
  {
    hide Exec;
    forall more ensures !RunsIn(token, run + more, p, i) {
      if RunsIn(token, run + more, p, i) {
        CallStaysOver(token, run, more, p, i);
        NotRunYet(token, run + more, p, i);
      }
    }
  }

  lemma NotRunYet(token: string, run: seq<Event>, p: ProcId, i: nat)
    requires Exec(token, run).Some? && p in Exec(token, run).value.procs
    requires i < |Exec(token, run).value.procs[p].client.calls| && Exec(token, run).value.procs[p].client.calls[i].duplicate
    ensures i !in Exec(token, run).value.procs[p].client.commands
  {
    hide Exec, C.Exec;
    Reachable(token, run);
    var q := Exec(token, run).value.procs[p];
    assert ProcOk(Exec(token, run).value, p);
    C.Reachable(q.start, q.run);
    assert C.CallOk(q.client, i);
  }

  /** In every reachable state, a delivered shutdown can be run exactly when its id is blank or not in the table of the
      process that receives it. */
  lemma DeliveredCanRunIff(token: string, run: seq<Event>, c: H.ConnId, index: nat, now: int)
    requires Exec(token, run).Some? && Enabled(Exec(token, run).value, Deliver(c, index, now))
    requires var m := Exec(token, run).value.hub.conns[c].outbox[index]; m.Control? && m.action == Shutdown
    ensures var s := Exec(token, run).value;
            var q, id := s.procs[s.owner[c]], s.hub.conns[c].outbox[index].requestId;
            CanRun(token, run + [Deliver(c, index, now)], s.owner[c], |q.client.calls|) <==> id == "" || id !in q.client.recent
  {
    hide Exec, Apply, Enabled, CanRun;
    var s := Exec(token, run).value;
    DeliveryIsHandled(s, c, index, now);
    var longer, t := Extend(token, run, s, Deliver(c, index, now));
    OwnerKnown(s, c, index, now);
    var p, i := s.owner[c], |s.procs[s.owner[c]].client.calls|;
    if t.procs[p].client.calls[i].duplicate {
      DuplicatesNeverRun(token, longer, p, i);
    } else {
      AnswerAndRun(token, longer, t, p, i);
    }
  }

  lemma OwnerKnown(s: State, c: H.ConnId, index: nat, now: int)
    requires Enabled(s, Deliver(c, index, now))
    ensures c in s.owner && s.owner[c] in s.procs && c in s.hub.conns && index < |s.hub.conns[c].outbox|
  {
  }

  // -- from the issue on the wire --

  ghost predicate IssuesOnWire(s: H.State) {
    forall k :: 0 <= k < |s.issued| ==> OnWireOf(s, s.issued[k])
  }

  predicate OnWireOf(s: H.State, r: H.Issue) {
    r.conn in s.conns && Control(r.action, RequestId.Make(r.key, r.stamp)) in s.conns[r.conn].outbox
  }

  lemma OnWireStep(s: H.State, e: H.Event, r: H.Issue)
    requires H.Enabled(s, e) && OnWireOf(s, r)
    ensures OnWireOf(H.Apply(s, e), r)
  {
    hide H.Apply, H.Enabled;
    HubMonotone(s, e, r.conn);
  }

  lemma NewOnWire(s: H.State, e: H.Event)
    requires H.Enabled(s, e) && e.Write? && e.written
    ensures var t := H.Apply(s, e); |t.issued| == |s.issued| + 1 && t.issued[..|s.issued|] == s.issued && OnWireOf(t, t.issued[|s.issued|])
  {
  }

  lemma IssuedOtherwise(s: H.State, e: H.Event)
    requires H.Enabled(s, e) && !(e.Write? && e.written)
    ensures H.Apply(s, e).issued == s.issued
  {
  }

  lemma {:induction false} IssuedIsOnWire(token: string, run: seq<H.Event>)
    requires H.Exec(token, run).Some?
    ensures IssuesOnWire(H.Exec(token, run).value)
  {
    if run != [] {
      hide H.Apply, H.Enabled, OnWireOf;
      var n := |run| - 1;
      var s, t := H.Exec(token, run[..n]).value, H.Exec(token, run).value;
      IssuedIsOnWire(token, run[..n]);
      if run[n].Write? && run[n].written { NewOnWire(s, run[n]); } else { IssuedOtherwise(s, run[n]); }
      forall k | 0 <= k < |t.issued| ensures OnWireOf(t, t.issued[k]) {
        if k < |s.issued| { assert t.issued[k] == s.issued[k]; OnWireStep(s, run[n], s.issued[k]); }
      }
    }
  }

  /** Whatever shutdown the hub has issued on a connection of a live session can be delivered to the process that has the
      key, at any time, and then run exactly when that process does not have its id in its table. */
  lemma IssuedCanRunIff(token: string, run: seq<Event>, k: nat, now: int)
    requires Exec(token, run).Some? && k < |Exec(token, run).value.hub.issued|
    requires var s := Exec(token, run).value;
             var r := s.hub.issued[k];
             && r.action == Shutdown && r.conn in s.owner && r.conn in s.sessions && s.sessions[r.conn].Live?
             && s.owner[r.conn] in s.procs && s.procs[s.owner[r.conn]].client.now <= now
    ensures var s := Exec(token, run).value;
            var r := s.hub.issued[k];
            var q, id := s.procs[s.owner[r.conn]], RequestId.Make(r.key, r.stamp);
            && q.key == r.key
            && exists index: nat ::
                 && Enabled(s, Deliver(r.conn, index, now)) && s.hub.conns[r.conn].outbox[index] == Control(Shutdown, id)
                 && (CanRun(token, run + [Deliver(r.conn, index, now)], s.owner[r.conn], |q.client.calls|) <==> id !in q.client.recent)
  {
    hide Exec, H.Exec, CanRun, RequestId.Make, H.Inv;
    Reachable(token, run);
    var s := Exec(token, run).value;
    var r := s.hub.issued[k];
    IssuedIsOnWire(s.token, s.hubRun);
    IssueHasKey(s, k);
    var m := Control(Shutdown, RequestId.Make(r.key, r.stamp));
    assert OnWireOf(s.hub, r);
    var index: nat :| index < |s.hub.conns[r.conn].outbox| && s.hub.conns[r.conn].outbox[index] == m;
    assert Enabled(s, Deliver(r.conn, index, now));
    DeliveredCanRunIff(token, run, r.conn, index, now);
    RequestId.MakeNotBlank(r.key, r.stamp);
  }

  lemma IssueHasKey(s: State, k: nat)
    requires Inv(s) && k < |s.hub.issued| && s.hub.issued[k].conn in s.owner
    ensures s.owner[s.hub.issued[k].conn] in s.procs && s.procs[s.owner[s.hub.issued[k].conn]].key == s.hub.issued[k].key
  {
    hide H.Exec;
    H.Reachable(s.token, s.hubRun);
    var r := s.hub.issued[k];
    assert H.KeyedConn(s.hub, r.conn, r.key) && OwnedOk(s, r.conn);
  }

  // -- and all of it happens --

  /** A process that has dialed and greeted with the key and the token. */
  lemma Greeted(token: string, key: string) returns (run: seq<Event>, s: State)
    requires key != ""
    ensures Exec(token, run) == Some(s) && s.procs == map[0 := Proc(key, 0, [], C.Init(0), [])]
    ensures s.owner == map[0 := 0] && s.sessions == map[0 := AwaitingAnswer] && s.hub.clients == map[] && s.hub.pending == map[]
    ensures s.hub.issued == [] && s.hub.conns == map[0 := H.Conn(Some(H.Hello(key, token, "", [], "", "", "")), H.Checked, false, [])]
  {
    hide Json.Encode, HandleHelloResponse, RequestId.Make;
    var hello := H.Hello(key, token, "", [], "", "", "");
    run, s := Extend(token, [], Init(token), Spawn(0, key, 0));
    run, s := Extend(token, run, s, Open(0, 0));
    hide Exec;
    run, s := Extend(token, run, s, Server(H.Greet(0, Some(Some(hello)), true)));
  }

  /** Then on a live session of connection 0, whatever the token is. */
  lemma LiveSession(token: string, key: string) returns (run: seq<Event>, s: State)
    requires key != ""
    ensures Exec(token, run) == Some(s) && 0 in s.procs && s.procs[0] == Proc(key, 0, [], C.Init(0), [])
    ensures s.owner == map[0 := 0] && s.sessions == map[0 := Live] && key in s.hub.clients && s.hub.clients[key].conn == 0
    ensures s.hub.pending == map[] && s.hub.issued == [] && 0 in s.hub.conns && s.hub.conns[0].outbox == [HelloOk] && !s.hub.conns[0].closed
  {
    hide Json.Encode, RequestId.Make, Exec, H.NewInfo;
    run, s := Greeted(token, key);
    run, s := Extend(token, run, s, Server(H.Register(0, key, "", 0)));
    assert s.hub.conns[0].outbox == [];
    run, s := Extend(token, run, s, Server(H.Event.Welcome(0, true)));
    assert s.hub.conns[0].outbox == [HelloOk];
    run, s := Extend(token, run, s, Answer(0, 0));
  }

  /** For every token, key and time there is a run in which a shutdown for the key is issued at that time, delivered, and
      its command run. */
  lemma ShutdownGetsThrough(token: string, key: string, stamp: int)
    requires key != ""
    ensures exists run, p: nat, i: nat :: RunsIn(token, run, p, i)
                                && Exec(token, run).value.procs[p].key == key
                                && i < |Exec(token, run).value.procs[p].client.calls|
                                && Exec(token, run).value.procs[p].client.calls[i].id == RequestId.Make(key, stamp)
  {
    hide Exec, RequestId.Make;
    var run, s := LiveSession(token, key);
    run, s := Extend(token, run, s, Server(H.Lookup(0, key, Shutdown)));
    run, s := Extend(token, run, s, Server(H.Write(0, stamp, true)));
    var id := RequestId.Make(key, stamp);
    assert s.hub.conns[0].outbox[1] == Control(Shutdown, id);
    run, s := Extend(token, run, s, Deliver(0, 1, 0));
    run, s := Extend(token, run, s, Client(0, C.Acknowledge(0)));
    run, s := Extend(token, run, s, Client(0, C.RunCommand(0, true)));
    assert s.procs[0].client.commands == [0] && s.procs[0].client.calls[0].id == id;
    assert RunsIn(token, run, 0, 0);
  }
}
