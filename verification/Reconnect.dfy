/** The client's reconnect loop: how long it waits, and when it gives up. */
module Reconnect {
  import opened Text
  import opened Protocol
  import H = HubModel
  import RequestId
  import Json
  import W = HubWire

  /** Durations are nanoseconds. */
  const SECOND: nat := 1_000_000_000
  const INITIAL_BACKOFF: nat := 3 * SECOND
  const MAX_BACKOFF: nat := 60 * SECOND

  function NextBackoff(delay: int, max: int): int {
    var d := if delay <= 0 then INITIAL_BACKOFF else delay;
    var m := if max <= 0 then MAX_BACKOFF else max;
    if d * 2 > m then m else d * 2
  }

  /** Adds up to pct percent, chosen by the seed. */
  function WithJitter(delay: int, pct: int, seed: int): (r: int)
    ensures r >= delay
    ensures delay >= 0 && 0 <= pct <= 100 ==> r <= delay + delay * pct / 100
  {
    if pct <= 0 || delay <= 0 then delay
    else
      var p := if pct > 100 then 100 else pct;
      var j := (if seed < 0 then -seed else seed) % (p + 1);
      ShareGrows(delay, j, p);
      delay + delay * j / 100
  }

  lemma ShareGrows(delay: nat, j: nat, p: nat)
    requires j <= p
    ensures 0 <= delay * j / 100 <= delay * p / 100
  {
    assert delay * j <= delay * p;
  }

  /** Every share from none to the whole percentage occurs. */
  lemma JitterReaches(delay: nat, pct: nat, k: nat)
    requires delay > 0 && 0 < pct <= 100 && k <= pct
    ensures WithJitter(delay, pct, k) == delay + delay * k / 100 && WithJitter(delay, pct, 0 - k) == delay + delay * k / 100
  {
    SmallRemainder(k, pct + 1);
    assert if 0 - k < 0 then 0 - (0 - k) == k else k == 0;
  }

  lemma SmallRemainder(k: nat, m: nat)
    requires k < m
    ensures k % m == k
  {
  }

  // -- sessions --

  datatype Ending = Clean | Cancelled | Refused(code: string) | Dropped

  /** How one session ended, and whether the server had welcomed it. */
  datatype Outcome = Outcome(authed: bool, ending: Ending)

  /** What the first server message makes of a session; `later` is how it ends once it was welcomed. */
  function SessionOutcome(parsed: Option<Option<ServerMsg>>, raw: string, later: Ending): Outcome {
    match HandleHelloResponse(parsed, raw)
    case Welcome => Outcome(true, later)
    case Fatal(code) => Outcome(false, Refused(code))
    case Retry => Outcome(false, Dropped)
  }

  predicate Final(o: Outcome) {
    o.ending.Cancelled? || o.ending.Refused?
  }

  /** The loop's delay before session i. */
  function DelayBefore(os: seq<Outcome>, i: nat): int
    requires i <= |os|
  {
    if i == 0 then INITIAL_BACKOFF
    else if os[i - 1].authed then INITIAL_BACKOFF
    else if os[i - 1].ending.Dropped? then NextBackoff(DelayBefore(os, i - 1), MAX_BACKOFF)
    else DelayBefore(os, i - 1)
  }

  /** The wait after session i; None when the loop does not wait. */
  function WaitAfter(os: seq<Outcome>, i: nat, seed: int): Option<int>
    requires i < |os|
  {
    if os[i].ending.Dropped? then
      Some(WithJitter(if os[i].authed then INITIAL_BACKOFF else DelayBefore(os, i), 20, seed))
    else None
  }

  /** How many of the sessions are run: up to the first final one. */
  function SessionsRun(os: seq<Outcome>): (n: nat)
    ensures n <= |os| && (forall i :: 0 <= i < n - 1 ==> !Final(os[i]))
    ensures n < |os| ==> n > 0 && Final(os[n - 1])
  {
    if os == [] then 0 else if Final(os[0]) then 1 else 1 + SessionsRun(os[1..])
  }

  datatype Stop = StillRunning | Stopped | GaveUp(code: string)

  /** The loop over the sessions the network deals it. */
  method Run(os: seq<Outcome>, seeds: seq<int>) returns (waits: seq<Option<int>>, stop: Stop)
    requires |seeds| == |os|
    ensures |waits| == SessionsRun(os) && forall i :: 0 <= i < |waits| ==> waits[i] == WaitAfter(os, i, seeds[i])
    ensures stop.GaveUp? <==> exists i :: 0 <= i < |waits| && os[i].ending.Refused?
    ensures stop.GaveUp? ==> os[|waits| - 1].ending == Ending.Refused(stop.code)
    ensures stop.StillRunning? <==> forall i :: 0 <= i < |os| ==> !Final(os[i])
  {
    var delay := INITIAL_BACKOFF;
    waits := [];
    stop := StillRunning;
    var i := 0;
    while i < |os|
      invariant 0 <= i <= |os| && |waits| == i && delay == DelayBefore(os, i)
      invariant forall j :: 0 <= j < i ==> waits[j] == WaitAfter(os, j, seeds[j]) && !Final(os[j])
      invariant stop == StillRunning
    {
      var o := os[i];
      if o.authed { delay := INITIAL_BACKOFF; }
      if o.ending.Clean? {
        waits := waits + [None];
        i := i + 1;
        continue;
      }
      if o.ending.Cancelled? {
        waits := waits + [None];
        StopsAt(os, i);
        return waits, Stopped;
      }
      if o.ending.Refused? {
        waits := waits + [None];
        StopsAt(os, i);
        return waits, GaveUp(o.ending.code);
      }
      waits := waits + [Some(WithJitter(delay, 20, seeds[i]))];
      if !o.authed { delay := NextBackoff(delay, MAX_BACKOFF); }
      i := i + 1;
    }
    NeverStops(os);
  }

  lemma {:induction false} StopsAt(os: seq<Outcome>, i: nat)
    requires i < |os| && Final(os[i]) && forall j :: 0 <= j < i ==> !Final(os[j])
    ensures SessionsRun(os) == i + 1
  {
    if i > 0 { StopsAt(os[1..], i - 1); }
  }

  lemma {:induction false} NeverStops(os: seq<Outcome>)
    requires forall j :: 0 <= j < |os| ==> !Final(os[j])
    ensures SessionsRun(os) == |os|
  {
    if os != [] { NeverStops(os[1..]); }
  }

  // -- main results --

  /** Unauthenticated retries before session i since the last authenticated one. */
  function Streak(os: seq<Outcome>, i: nat): nat
    requires i <= |os|
  {
    if i == 0 || os[i - 1].authed then 0
    else if os[i - 1].ending.Dropped? then Streak(os, i - 1) + 1
    else Streak(os, i - 1)
  }

  function Pow2(k: nat): (r: nat)
    ensures r >= 1
  {
    if k == 0 then 1 else 2 * Pow2(k - 1)
  }

  /** 3 * 2^k seconds, at most 60. */
  function Capped(k: nat): nat {
    if 3 * Pow2(k) > 60 then 60 * SECOND else 3 * Pow2(k) * SECOND
  }

  lemma {:induction false} DelayIsCapped(os: seq<Outcome>, i: nat)
    requires i <= |os|
    ensures DelayBefore(os, i) == Capped(Streak(os, i))
  {
    if i > 0 { DelayIsCapped(os, i - 1); }
  }

  /** The k-th consecutive unauthenticated retry, k counted from 0 since the last authenticated session, waits between
      min(3 * 2^k, 60) seconds and 1.2 times that; a dropped authenticated session is retried after 3 to 3.6 seconds. */
  lemma RetryWait(os: seq<Outcome>, i: nat, seed: int)
    requires i < |os| && os[i].ending.Dropped?
    ensures var least := if os[i].authed then Capped(0) else Capped(Streak(os, i));
            var wait := WaitAfter(os, i, seed);
            wait.Some? && least <= wait.value && 5 * wait.value <= 6 * least
  {
    DelayIsCapped(os, i);
  }

  /** The outcome of a session whose first server message is m, read by its own text. */
  function SessionOn(m: ServerMsg, later: Ending): Outcome {
    SessionOutcome(Some(Some(m)), Json.Encode(m), later)
  }

  /** What becomes of a session, from the hub's side: in every reachable hub state, a client that reads the first message
      on its connection gives up for good if the hub refused it; it counts as authenticated exactly when hello_ok came
      first, or a control message did and the key contains the text hello_ok; otherwise it retries, and the control
      message or pong that came first is lost. */
  lemma SessionFollowsWire(token: string, run: seq<H.Event>, c: H.ConnId, later: Ending)
    requires H.Exec(token, run).Some? && W.Outbox(H.Exec(token, run).value, c) != []
    ensures var conn := H.Exec(token, run).value.conns[c];
            var first := conn.outbox[0];
            SessionOn(first, later) ==
            if conn.hello.None? then Outcome(false, Ending.Refused(if first.Error? then first.code else ""))
            else if first.HelloOk? || (first.Control? && Contains(conn.Key(), TYPE_HELLO_OK)) then Outcome(true, later)
            else Outcome(false, Dropped)
  {
    hide H.Exec, Contains, Json.Encode, HandleHelloResponse;
    W.FirstAnswer(token, run, c);
  }

  /** Whatever refusal the hub has sent, the client that reads it runs no further session. */
  lemma RefusalIsFinal(token: string, run: seq<H.Event>, c: H.ConnId, os: seq<Outcome>, i: nat, later: Ending)
    requires H.Exec(token, run).Some? && W.Outbox(H.Exec(token, run).value, c) != []
    requires H.Exec(token, run).value.conns[c].hello.None?
    requires i < |os| && os[i] == SessionOn(H.Exec(token, run).value.conns[c].outbox[0], later)
    requires forall j :: 0 <= j < i ==> !Final(os[j])
    ensures SessionsRun(os) == i + 1 && os[i].ending.Refused? && IsAuthFailure(os[i].ending.code)
  {
    hide H.Exec, Contains, Json.Encode, HandleHelloResponse;
    W.FirstAnswer(token, run, c);
    StopsAt(os, i);
  }

  // -- such a state is reachable --

  const OVERTAKEN: seq<ServerMsg> := [Control(Shutdown, RequestId.Make("pc", 2)), HelloOk]

  lemma RegisteredIsReachable() returns (run: seq<H.Event>, s: H.State)
    ensures H.Exec("", run) == Some(s) && "pc" in s.clients && s.clients["pc"].conn == 0 && s.pending == map[]
    ensures 0 in s.conns && s.conns[0] == H.Conn(Some(H.PC), H.Registered, false, [])
  {
    run, s := H.Extend("", [], H.Init(""), H.Dial(0));
    run, s := H.Extend("", run, s, H.Greet(0, Some(Some(H.PC)), true));
    run, s := H.Extend("", run, s, H.Register(0, "pc", "", 1));
    assert s.conns[0] == H.Conn(Some(H.PC), H.Registered, false, []);
  }

  lemma OvertakenIsReachable() returns (run: seq<H.Event>, s: H.State)
    ensures H.Exec("", run) == Some(s) && 0 in s.conns && s.conns[0].outbox == OVERTAKEN && s.conns[0].hello == Some(H.PC)
  {
    run, s := RegisteredIsReachable();
    hide H.Exec, RequestId.Make;
    run, s := H.Extend("", run, s, H.Lookup(0, "pc", Shutdown));
    assert s.pending[0] == H.Pending("pc", Shutdown, 0);
    run, s := H.Extend("", run, s, H.Write(0, 2, true));
    assert s.conns[0].outbox == [OVERTAKEN[0]];
    run, s := H.Extend("", run, s, H.Event.Welcome(0, true));
  }

  /** A control message does overtake hello_ok in some run, and its client then retries. */
  lemma ControlMayComeFirst(later: Ending)
    ensures exists run, s ::
              && H.Exec("", run) == Some(s) && 0 in s.conns && s.conns[0].outbox == OVERTAKEN
              && SessionOn(s.conns[0].outbox[0], later) == Outcome(false, Dropped)
  {
    var run, s := OvertakenIsReachable();
    SessionFollowsWire("", run, 0, later);
    Json.Lacks("pc", TYPE_HELLO_OK, 7);
  }
}
