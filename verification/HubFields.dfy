/** Where the fields of a hub entry come from. An entry is rewritten by whatever connection presented its key, so each
    field shows the last event of that key which writes it, not necessarily one of the connection the entry holds. */
module HubFields {
  import opened Text
  import opened Config
  import opened Protocol
  import opened HubModel

  /** Groups of fields that are written together. */
  datatype Field = Registration | Nics | Hostname | LastSeen | LastEvent

  predicate Writes(e: Event, f: Field) {
    match e
    case Register(_, _, _, _) => true
    case PongFrame(_, _) => f.LastSeen?
    case Ping(_, nics, hostname, _, _) =>
      (match nics
       case Absent => f.LastSeen?
       case Malformed => false
       case List(_) => f.Nics? || f.LastSeen? || (f.Hostname? && hostname != ""))
    case Ack(_, _, _, _, _) => f.LastSeen? || f.LastEvent?
    case _ => false
  }

  /** The connection an event belongs to. */
  function ConnOf(e: Event): ConnId {
    match e
    case Register(c, _, _, _) => c
    case PongFrame(c, _) => c
    case Ping(c, _, _, _, _) => c
    case Ack(c, _, _, _, _) => c
    case _ => 0
  }

  /** What a connection presented last as its hello. */
  function HelloOf(run: seq<Event>, c: ConnId): Option<Hello> {
    if run == [] then None
    else
      var n := |run| - 1;
      if run[n].Greet? && run[n].c == c && run[n].first.Some? && run[n].first.value.Some? then run[n].first.value
      else HelloOf(run[..n], c)
  }

  /** An event that wrote, and the hello of its connection. */
  datatype Source = Source(event: Event, hello: Hello)

  predicate WritesFor(run: seq<Event>, e: Event, key: string, f: Field) {
    Writes(e, f) && HelloOf(run, ConnOf(e)).Some? && HelloOf(run, ConnOf(e)).value.key == key
  }

  /** The last write of the field by any connection of the key. */
  function LastWrite(run: seq<Event>, key: string, f: Field): Option<Source> {
    if run == [] then None
    else
      var n := |run| - 1;
      if WritesFor(run[..n], run[n], key, f) then Some(Source(run[n], HelloOf(run[..n], ConnOf(run[n])).value))
      else LastWrite(run[..n], key, f)
  }

  /** The last write of the field by one connection. */
  function LastOwnWrite(run: seq<Event>, c: ConnId, f: Field): Option<Source> {
    if run == [] then None
    else
      var n := |run| - 1;
      if Writes(run[n], f) && ConnOf(run[n]) == c && HelloOf(run[..n], c).Some? then Some(Source(run[n], HelloOf(run[..n], c).value))
      else LastOwnWrite(run[..n], c, f)
  }

  /** What the field shows after a write. */
  predicate Shows(info: ClientInfo, w: Source, f: Field) {
    match f
    case Registration =>
      && w.event.Register? && info.key == w.hello.key && info.remote == w.event.remote && info.connected == w.event.now
      && info.version == w.hello.version && info.os == w.hello.os && info.arch == w.hello.arch
    case Nics => info.nics == if w.event.Ping? && w.event.nics.List? then w.event.nics.nics else w.hello.nics
    case Hostname => info.hostname == if w.event.Ping? then w.event.hostname else w.hello.hostname
    case LastSeen =>
      (match w.event
       case Register(_, _, _, now) => info.lastSeen == now
       case PongFrame(_, now) => info.lastSeen == now
       case Ping(_, _, _, now, _) => info.lastSeen == now
       case Ack(_, _, _, _, now) => info.lastSeen == now
       case _ => false)
    case LastEvent =>
      if w.event.Ack? then
        && info.lastEvent == (if w.event.failed then TYPE_SHUTDOWN_ERR else TYPE_SHUTDOWN_ACK)
                             + (if w.event.status != "" then ":" + w.event.status else "")
        && info.lastError == w.event.error && info.lastEventAt == w.event.now
      else info.lastEvent == "" && info.lastError == "" && info.lastEventAt == 0
  }

  // -- one step --

  /** The hello in the state is the one of the run. */
  predicate HelloKnown(run: seq<Event>, s: State, c: ConnId) {
    c in s.conns ==>
      if s.conns[c].phase.Dialed? then s.conns[c].hello.None?
      else s.conns[c].hello.Some? ==> HelloOf(run, c) == s.conns[c].hello
  }

  lemma HelloOfMore(run: seq<Event>, e: Event, c: ConnId)
    ensures HelloOf(run + [e], c) ==
            if e.Greet? && e.c == c && e.first.Some? && e.first.value.Some? then e.first.value else HelloOf(run, c)
  {
    assert (run + [e])[..|run|] == run;
  }

  lemma HelloStep(run: seq<Event>, s: State, e: Event, c: ConnId)
    requires Enabled(s, e) && HelloKnown(run, s, c)
    ensures HelloKnown(run + [e], Apply(s, e), c)
  {
    hide OnEntry, TeardownClients, NewInfo, PingInfo, AckInfo, Seen, RequestId.Make, HelloOf;
    HelloOfMore(run, e, c);
  }

  lemma {:induction false} HellosKnown(token: string, run: seq<Event>, c: ConnId)
    requires Exec(token, run).Some?
    ensures HelloKnown(run, Exec(token, run).value, c)
  {
    if run != [] {
      hide Apply, HelloKnown;
      var n := |run| - 1;
      HellosKnown(token, run[..n], c);
      HelloStep(run[..n], Exec(token, run[..n]).value, run[n], c);
      assert run == run[..n] + [run[n]];
    } else {
      assert HelloKnown(run, Exec(token, run).value, c);
    }
  }

  /** Whoever writes has presented a hello, and the entry written is the one under its key. */
  lemma WriterHasKey(run: seq<Event>, s: State, e: Event, f: Field)
    requires Enabled(s, e) && Writes(e, f) && HelloKnown(run, s, ConnOf(e)) && ReadersOk(s)
    ensures ConnOf(e) in s.conns && HelloOf(run, ConnOf(e)) == s.conns[ConnOf(e)].hello && s.conns[ConnOf(e)].hello.Some?
  {
    hide HelloOf;
    var c := ConnOf(e);
    assert ReaderOk(s.conns[c], Current(s.clients, s.conns[c], c));
  }

  /** An event rewrites at most the entry under the key of its connection, and there exactly the fields it writes. */
  lemma EntryStep(run: seq<Event>, s: State, e: Event, key: string, f: Field)
    requires Enabled(s, e) && key in Apply(s, e).clients
    requires HelloKnown(run, s, ConnOf(e)) && ReadersOk(s)
    ensures if WritesFor(run, e, key, f) then
              Shows(Apply(s, e).clients[key].info, Source(e, HelloOf(run, ConnOf(e)).value), f)
            else
              key in s.clients && forall w :: Shows(s.clients[key].info, w, f) ==> Shows(Apply(s, e).clients[key].info, w, f)
  {
    hide HelloOf, RequestId.Make, CheckHello;
    if Writes(e, f) { WriterHasKey(run, s, e, f); }
  }

  // -- all runs --

  ghost predicate FieldOk(run: seq<Event>, s: State, key: string, f: Field) {
    key in s.clients ==> LastWrite(run, key, f).Some? && Shows(s.clients[key].info, LastWrite(run, key, f).value, f)
  }

  lemma FieldStep(run: seq<Event>, s: State, e: Event, key: string, f: Field)
    requires Enabled(s, e) && HelloKnown(run, s, ConnOf(e)) && ReadersOk(s) && FieldOk(run, s, key, f)
    ensures FieldOk(run + [e], Apply(s, e), key, f)
  {
    hide Apply, Shows, WritesFor, HelloKnown;
    assert (run + [e])[..|run|] == run;
    if key in Apply(s, e).clients { EntryStep(run, s, e, key, f); }
  }

  /** In every reachable state each field of an entry shows what the last event of its key that writes the field put
      there: registration data and a fresh entry's blanks by the registration, the interfaces, host name, last
      contact and last report by whichever connection of the key came last, superseded ones included. */
  lemma {:induction false} FieldsFollowWrites(token: string, run: seq<Event>, key: string, f: Field)
    requires Exec(token, run).Some?
    ensures var s := Exec(token, run).value;
            Online(s, key) ==> LastWrite(run, key, f).Some? && Shows(s.clients[key].info, LastWrite(run, key, f).value, f)
  {
    FieldsOk(token, run, key, f);
  }

  lemma {:induction false} FieldsOk(token: string, run: seq<Event>, key: string, f: Field)
    requires Exec(token, run).Some?
    ensures FieldOk(run, Exec(token, run).value, key, f)
  {
    if run != [] {
      hide Apply, FieldOk, HelloKnown, Inv, ReadersOk;
      var n := |run| - 1;
      var s := Exec(token, run[..n]).value;
      FieldsOk(token, run[..n], key, f);
      HellosKnown(token, run[..n], ConnOf(run[n]));
      AllReadersOk(token, run[..n]);
      FieldStep(run[..n], s, run[n], key, f);
      assert run == run[..n] + [run[n]];
    }
  }

  lemma AllReadersOk(token: string, run: seq<Event>)
    requires Exec(token, run).Some?
    ensures ReadersOk(Exec(token, run).value)
  {
    Reachable(token, run);
  }

  // -- whose field it is --

  predicate Greeted(s: State, c: ConnId) {
    c in s.conns && s.conns[c].hello.Some?
  }

  lemma GreetedStays(s: State, e: Event, c: ConnId)
    requires Enabled(s, e) && Greeted(s, c) && !s.conns[c].phase.Dialed?
    ensures Greeted(Apply(s, e), c) && Apply(s, e).conns[c].hello == s.conns[c].hello
  {
    hide OnEntry, TeardownClients, NewInfo, PingInfo, AckInfo, Seen, RequestId.Make, CheckHello;
  }

  /** A connection that has written has been greeted. */
  lemma {:induction false} WritersGreeted(token: string, run: seq<Event>, key: string, c: ConnId, f: Field)
    requires Exec(token, run).Some?
    ensures LastWrite(run, key, f).Some? ==> Greeted(Exec(token, run).value, ConnOf(LastWrite(run, key, f).value.event))
    ensures LastOwnWrite(run, c, f).Some? ==> Greeted(Exec(token, run).value, c)
  {
    if run != [] {
      hide Apply, Inv, ReadersOk, Writes;
      var n := |run| - 1;
      var s, e := Exec(token, run[..n]).value, run[n];
      WritersGreeted(token, run[..n], key, c, f);
      AllReadersOk(token, run[..n]);
      if Writes(e, f) {
        HellosKnown(token, run[..n], ConnOf(e));
        WriterHasKey(run[..n], s, e, f);
        GreetedOn(token, run[..n], e, ConnOf(e));
      }
      if LastWrite(run[..n], key, f).Some? { GreetedOn(token, run[..n], e, ConnOf(LastWrite(run[..n], key, f).value.event)); }
      if LastOwnWrite(run[..n], c, f).Some? { GreetedOn(token, run[..n], e, c); }
    }
  }

  lemma GreetedOn(token: string, run: seq<Event>, e: Event, c: ConnId)
    requires Exec(token, run).Some? && Enabled(Exec(token, run).value, e) && Greeted(Exec(token, run).value, c)
    ensures Greeted(Apply(Exec(token, run).value, e), c)
    ensures Apply(Exec(token, run).value, e).conns[c].hello == Exec(token, run).value.conns[c].hello
  {
    hide Apply;
    HellosKnown(token, run, c);
    GreetedStays(Exec(token, run).value, e, c);
  }

  /** A field shows the connection's own last write exactly when the last write of its key was that connection's. */
  lemma {:induction false} OwnFieldIff(token: string, run: seq<Event>, c: ConnId, f: Field)
    requires Exec(token, run).Some? && Greeted(Exec(token, run).value, c)
    ensures var last := LastWrite(run, Exec(token, run).value.conns[c].Key(), f);
            last.Some? && ConnOf(last.value.event) == c <==> last.Some? && last == LastOwnWrite(run, c, f)
  {
    if run != [] {
      hide Apply, Inv, ReadersOk, Writes, HelloOf;
      var n := |run| - 1;
      var s, e := Exec(token, run[..n]).value, run[n];
      var key := Exec(token, run).value.conns[c].Key();
      if Greeted(s, c) {
        GreetedOn(token, run[..n], e, c);
        HellosKnown(token, run[..n], c);
        OwnFieldIff(token, run[..n], c, f);
      }
      WritersGreeted(token, run[..n], key, c, f);
      if Writes(e, f) {
        HellosKnown(token, run[..n], ConnOf(e));
        AllReadersOk(token, run[..n]);
        WriterHasKey(run[..n], s, e, f);
      }
      OwnersWrite(run[..n], c, f);
    }
  }

  /** A connection's own last write is its own. */
  lemma {:induction false} OwnersWrite(run: seq<Event>, c: ConnId, f: Field)
    ensures LastOwnWrite(run, c, f).Some? ==> ConnOf(LastOwnWrite(run, c, f).value.event) == c
  {
    if run != [] { OwnersWrite(run[..|run| - 1], c, f); }
  }

  lemma {:induction false} RegistrationIsLatest(token: string, run: seq<Event>, key: string)
    requires Exec(token, run).Some?
    ensures LastWrite(run, key, Registration).Some? ==>
              Latest(run, key) == Some(ConnOf(LastWrite(run, key, Registration).value.event))
  {
    if run != [] {
      hide Apply, Inv, ReadersOk, HelloOf;
      var n := |run| - 1;
      var s, e := Exec(token, run[..n]).value, run[n];
      RegistrationIsLatest(token, run[..n], key);
      if e.Register? {
        HellosKnown(token, run[..n], e.c);
        AllReadersOk(token, run[..n]);
        WriterHasKey(run[..n], s, e, Registration);
      }
    }
  }

  /** The connection the map holds is a greeted one of the key, the latest to register. */
  lemma HolderGreeted(token: string, run: seq<Event>, key: string)
    requires Exec(token, run).Some? && Online(Exec(token, run).value, key)
    ensures var s := Exec(token, run).value;
            var c := s.clients[key].conn;
            Greeted(s, c) && s.conns[c].Key() == key && Latest(run, key) == Some(c)
  {
    Reachable(token, run);
    assert EntryOk(run, Exec(token, run).value, key);
  }

  /** So the entry's field is the held connection's own exactly when no other connection of the key wrote it since that
      one did last; registration data always is. */
  lemma EntryFieldIsOwnIff(token: string, run: seq<Event>, key: string, f: Field)
    requires Exec(token, run).Some? && Online(Exec(token, run).value, key)
    ensures var c := Exec(token, run).value.clients[key].conn;
            var last := LastWrite(run, key, f);
            && last.Some? && (ConnOf(last.value.event) == c <==> last == LastOwnWrite(run, c, f))
            && (f.Registration? ==> ConnOf(last.value.event) == c)
  {
    hide Exec, Inv, LastWrite, LastOwnWrite, Shows;
    HolderGreeted(token, run, key);
    FieldsFollowWrites(token, run, key, f);
    OwnFieldIff(token, run, Exec(token, run).value.clients[key].conn, f);
    RegistrationIsLatest(token, run, key);
  }
}
