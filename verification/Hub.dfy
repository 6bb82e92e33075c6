/** The hub's shared state: the map from client key to live connection. Each method is one critical section of a
    connection's goroutine; `View` is the map component of HubModel.State, and each method does to it exactly what the
    event of the same section does there. */
module Hub {
  import opened Text
  import opened Config
  import opened Protocol
  import opened HubModel
  import RequestId

  /** A websocket connection: writes fail once it is closed. */
  class WsConn {
    const id: ConnId
    var closed: bool
    var outbox: seq<ServerMsg>

    constructor (id: ConnId)
      ensures this.id == id && !closed && outbox == []
    {
      this.id := id;
      closed := false;
      outbox := [];
    }

    /** `fails` is an error of the network. */
    method WriteMessage(m: ServerMsg, fails: bool) returns (ok: bool)
      modifies this`outbox
      ensures ok <==> !closed && !fails
      ensures outbox == if ok then old(outbox) + [m] else old(outbox)
    {
      ok := !closed && !fails;
      if ok { outbox := outbox + [m]; }
    }

    method Close()
      modifies this`closed
      ensures closed
    {
      closed := true;
    }
  }

  class ConnEntry {
    var info: ClientInfo
    const conn: WsConn

    constructor (info: ClientInfo, conn: WsConn)
      ensures this.info == info && this.conn == conn
    {
      this.info := info;
      this.conn := conn;
    }
  }

  class ClientHub {
    var clients: map<string, ConnEntry>
    var token: string

    /** No entry serves two keys, and connection ids name connections. */
    ghost predicate Valid()
      reads this
    {
      forall j, k :: j in clients && k in clients && j != k ==> clients[j] != clients[k]
    }

    ghost predicate Names(conn: WsConn)
      reads this
    {
      forall k :: k in clients && clients[k].conn.id == conn.id ==> clients[k].conn == conn
    }

    ghost function View(): map<string, Entry>
      reads this, clients.Values
    {
      map k | k in clients :: Entry(clients[k].info, clients[k].conn.id)
    }

    constructor (token: string)
      ensures Valid() && View() == Init(token).clients && this.token == Init(token).token
    {
      clients := map[];
      this.token := token;
    }

    method SetToken(t: string)
      modifies this`token
      ensures token == t
    {
      token := t;
    }

    /** The greeting of a new connection; a refused one gets an error message and is closed on return. */
    method Greet(conn: WsConn, first: Option<Hello>, fails: bool) returns (admitted: bool)
      modifies conn
      ensures admitted <==> first.Some? && first.value.key != "" && (token == "" || first.value.token == token)
      ensures admitted <==> CheckHello(token, first).Admit?
      ensures conn.closed == (old(conn.closed) || !admitted)
      ensures conn.outbox == old(conn.outbox) +
              if admitted || old(conn.closed) || fails then []
              else if first.None? || first.value.key == "" then [Error("invalid_hello", "invalid hello")]
              else [Error("token_mismatch", "token mismatch")]
    {
      if first.None? || first.value.key == "" {
        var _ := conn.WriteMessage(Error(CODE_INVALID_HELLO, "invalid hello"), fails);
        conn.Close();
        return false;
      }
      if token != "" && first.value.token != token {
        var _ := conn.WriteMessage(Error(CODE_TOKEN_MISMATCH, "token mismatch"), fails);
        conn.Close();
        return false;
      }
      return true;
    }

    /** Closes the connection that held the key, if any, and installs the new one. */
    method Register(conn: WsConn, hello: Hello, remote: string, now: int)
      requires Valid() && forall k :: k in clients ==> clients[k].conn != conn
      modifies this`clients, (if hello.key in clients then {clients[hello.key].conn} else {})`closed
      ensures Valid()
      ensures View() == old(View())[hello.key := Entry(NewInfo(hello, remote, now), conn.id)]
      ensures old(hello.key in clients) ==> old(clients[hello.key].conn).closed
      ensures conn.closed == old(conn.closed)
    {
      var entry := new ConnEntry(NewInfo(hello, remote, now), conn);
      if hello.key in clients {
        clients[hello.key].conn.Close();
      }
      clients := clients[hello.key := entry];
    }

    /** Rewrites the entry the key has now. */
    method Touch(key: string, f: ClientInfo -> ClientInfo)
      requires Valid()
      modifies (if key in clients then {clients[key]} else {})`info
      ensures Valid()
      ensures View() == OnEntry(old(View()), key, f)
    {
      if key in clients {
        var e := clients[key];
        e.info := f(e.info);
      }
    }

    method HandlePong(key: string, now: int)
      requires Valid()
      modifies (if key in clients then {clients[key]} else {})`info
      ensures Valid()
      ensures View() == OnEntry(old(View()), key, i => Seen(i, now))
    {
      Touch(key, i => Seen(i, now));
    }

    method HandlePing(key: string, nics: PingNics, hostname: string, now: int)
      requires Valid()
      modifies (if key in clients then {clients[key]} else {})`info
      ensures Valid()
      ensures View() == OnEntry(old(View()), key, i => PingInfo(i, nics, hostname, now))
    {
      match nics
      case Malformed => assert OnEntry(View(), key, i => PingInfo(i, nics, hostname, now)) == View();
      case _ => Touch(key, i => PingInfo(i, nics, hostname, now));
    }

    method HandleAck(key: string, failed: bool, status: string, error: string, now: int)
      requires Valid()
      modifies (if key in clients then {clients[key]} else {})`info
      ensures Valid()
      ensures View() == OnEntry(old(View()), key, i => AckInfo(i, failed, status, error, now))
    {
      Touch(key, i => AckInfo(i, failed, status, error, now));
    }

    /** Leaves the map alone when a newer connection holds the key. */
    method Teardown(key: string, conn: WsConn)
      requires Valid() && Names(conn)
      modifies this`clients, conn`closed
      ensures Valid() && conn.closed
      ensures View() == TeardownClients(old(View()), key, conn.id)
    {
      if key in clients && clients[key].conn == conn {
        clients := clients - {key};
      }
      conn.Close();
    }

    method Online(key: string) returns (online: bool)
      ensures online <==> key != "" && key in View()
    {
      online := key != "" && key in clients;
    }

    method Get(key: string) returns (info: Option<ClientInfo>)
      ensures info == if key in View() then Some(View()[key].info) else None
    {
      info := if key in clients then Some(clients[key].info) else None;
    }

    /** The first half of a control push: the connection the key has at this moment. Until the second half the map
        may change, and the connection may be closed. */
    method LookupConn(key: string) returns (conn: Option<WsConn>)
      ensures conn == if key in clients then Some(clients[key].conn) else None
      ensures conn.Some? <==> key in View()
    {
      conn := if key in clients then Some(clients[key].conn) else None;
    }

    /** The second half, under the lock of the entry looked up: writes on that connection, whatever the map holds by
        now. Nothing is pushed when it returns None. */
    static method WriteControl(conn: WsConn, key: string, action: Action, now: int, fails: bool) returns (id: Option<string>)
      modifies conn`outbox
      ensures id == if !conn.closed && !fails then Some(RequestId.Make(key, now)) else None
      ensures conn.outbox == old(conn.outbox) + if id.Some? then [Control(action, RequestId.Make(key, now))] else []
    {
      var ok := conn.WriteMessage(Control(action, RequestId.Make(key, now)), fails);
      id := if ok then Some(RequestId.Make(key, now)) else None;
    }

    /** Both halves with nothing in between. */
    method SendControl(key: string, action: Action, now: int, fails: bool) returns (id: Option<string>)
      modifies (if key in clients then {clients[key].conn} else {})`outbox
      ensures id == if key in clients && !clients[key].conn.closed && !fails then Some(RequestId.Make(key, now)) else None
      ensures key in clients ==>
                clients[key].conn.outbox ==
                old(clients[key].conn.outbox) + (if id.Some? then [Control(action, RequestId.Make(key, now))] else [])
      ensures View() == old(View())
    {
      var conn := LookupConn(key);
      if conn.None? { return None; }
      id := WriteControl(conn.value, key, action, now, fails);
    }
  }
}
