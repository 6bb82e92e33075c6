/** One client process handling control messages: the reader dedupes by request id and acknowledges, a goroutine per
    accepted message runs the command and reports, and a prune goroutine per accepted message forgets old ids, looking
    at an entry and deleting it in two steps. All of them interleave freely; a run is a sequence of events. Time stamps
    are nanoseconds of one non-decreasing clock. */
module ControlModel {
  import opened Text
  import opened Protocol

  const TEN_MINUTES := 600_000_000_000

  type Recent = map<string, int>

  datatype Phase =
    | Received            // dedupe decided, nothing written yet
    | Running             // accepted was written, the command goroutine is under way
    | Ran(ok: bool)       // the command returned
    | Concluded(ok: bool) // the outcome was written
    | Ignored             // duplicate was written

  /** The handling of one message; `stamp` is when it was received, `raced` says that a prune had just found an old
      entry of the id and not deleted it yet. */
  datatype Call = Call(id: string, stamp: int, duplicate: bool, raced: bool, phase: Phase)

  /** A prune goroutine: it visits each id at most once, and `doomed` is what it is about to delete. */
  datatype Prune = Prune(cutoff: int, visited: set<string>, doomed: Option<string>)

  /** An attempt to write a report, whether or not the connection took it. */
  datatype Attempt = Attempt(call: nat, report: Report)

  datatype State = State(now: int, recent: Recent, owed: nat, prunes: seq<Prune>, calls: seq<Call>,
                         attempts: seq<Attempt>, commands: seq<nat>)

  datatype Event =
    | Receive(id: string, now: int)
    | Acknowledge(i: nat)
    | RunCommand(i: nat, ok: bool)
    | Conclude(i: nat)
    | StartPrune(now: int)
    | Look(k: nat, id: string)
    | Forget(k: nat)

  function Init(now: int): State {
    State(now, map[], 0, [], [], [], [])
  }

  // -- what the steps do to the table, shared with the imperative handler --

  predicate IsDuplicate(recent: Recent, id: string) {
    id != "" && id in recent
  }

  /** LoadOrStore; the empty id is not deduped. */
  function Remember(recent: Recent, id: string, now: int): Recent {
    if id == "" || id in recent then recent else recent[id := now]
  }

  predicate IsOld(recent: Recent, cutoff: int, id: string) {
    id in recent && recent[id] < cutoff
  }

  /** A delete of this id is about to happen. */
  predicate Doomed(prunes: seq<Prune>, id: string) {
    exists k :: 0 <= k < |prunes| && prunes[k].doomed == Some(id)
  }

  function Outcome(ok: bool): Report {
    if ok then Executed else Failed
  }

  // -- steps --

  predicate Enabled(s: State, e: Event) {
    match e
    case Receive(_, now) => s.now <= now
    case Acknowledge(i) => i < |s.calls| && s.calls[i].phase.Received?
    case RunCommand(i, _) => i < |s.calls| && s.calls[i].phase.Running?
    case Conclude(i) => i < |s.calls| && s.calls[i].phase.Ran?
    case StartPrune(now) => s.now <= now && s.owed > 0
    case Look(k, id) => k < |s.prunes| && s.prunes[k].doomed.None? && id in s.recent && id !in s.prunes[k].visited
    case Forget(k) => k < |s.prunes| && s.prunes[k].doomed.Some?
  }

  function Apply(s: State, e: Event): State
    requires Enabled(s, e)
  {
    match e
    case Receive(id, now) =>
      var duplicate := IsDuplicate(s.recent, id);
      s.(now := now, recent := Remember(s.recent, id, now),
         owed := if id != "" && !duplicate then s.owed + 1 else s.owed,
         calls := s.calls + [Call(id, now, duplicate, Doomed(s.prunes, id), Received)])
    case Acknowledge(i) =>
      var c := s.calls[i];
      s.(calls := s.calls[i := c.(phase := if c.duplicate then Ignored else Running)],
         attempts := s.attempts + [Attempt(i, if c.duplicate then Duplicate else Accepted)])
    case RunCommand(i, ok) =>
      s.(calls := s.calls[i := s.calls[i].(phase := Ran(ok))], commands := s.commands + [i])
    case Conclude(i) =>
      s.(calls := s.calls[i := s.calls[i].(phase := Concluded(s.calls[i].phase.ok))],
         attempts := s.attempts + [Attempt(i, Outcome(s.calls[i].phase.ok))])
    case StartPrune(now) =>
      s.(now := now, owed := s.owed - 1, prunes := s.prunes + [Prune(now - TEN_MINUTES, {}, None)])
    case Look(k, id) =>
      var p := s.prunes[k];
      var doomed := if IsOld(s.recent, p.cutoff, id) then Some(id) else None;
      s.(prunes := s.prunes[k := p.(visited := p.visited + {id}, doomed := doomed)])
    case Forget(k) =>
      var p := s.prunes[k];
      s.(recent := s.recent - {p.doomed.value}, prunes := s.prunes[k := p.(doomed := None)])
  }

  function Exec(start: int, run: seq<Event>): Option<State> {
    if run == [] then Some(Init(start))
    else
      var n := |run| - 1;
      match Exec(start, run[..n])
      case None => None
      case Some(s) => if Enabled(s, run[n]) then Some(Apply(s, run[n])) else None
  }

  // -- dedupe --

  /** The entry of an accepted call that raced with no delete is still its own and no delete is about to hit it, or it
      was received over ten minutes ago. */
  predicate Guarded(s: State, c: Call) {
    && c.stamp <= s.now
    && (c.id != "" && !c.duplicate && !c.raced ==>
          c.stamp + TEN_MINUTES < s.now || (c.id in s.recent && s.recent[c.id] == c.stamp && !Doomed(s.prunes, c.id)))
  }

  predicate Apart(a: Call, b: Call) {
    a.id == b.id && a.id != "" && !a.duplicate && !b.duplicate && !a.raced ==> a.stamp + TEN_MINUTES < b.stamp
  }

  ghost predicate DedupeInv(s: State) {
    && (forall k :: 0 <= k < |s.prunes| ==> s.prunes[k].cutoff + TEN_MINUTES <= s.now)
    && (forall i :: 0 <= i < |s.calls| ==> Guarded(s, s.calls[i]))
    && (forall i, j :: 0 <= i < j < |s.calls| ==> Apart(s.calls[i], s.calls[j]))
  }

  lemma GuardStep(s: State, e: Event, c: Call)
    requires Enabled(s, e) && Guarded(s, c)
    requires forall k :: 0 <= k < |s.prunes| ==> s.prunes[k].cutoff + TEN_MINUTES <= s.now
    ensures Guarded(Apply(s, e), c)
  {
    var t := Apply(s, e);
    if Doomed(t.prunes, c.id) && !Doomed(s.prunes, c.id) {
      var k :| 0 <= k < |t.prunes| && t.prunes[k].doomed == Some(c.id);
      assert e.Look? && k == e.k;
    }
    if e.Forget? { assert s.prunes[e.k].doomed == Some(c.id) ==> Doomed(s.prunes, c.id); }
  }

  lemma DedupeStep(s: State, e: Event)
    requires DedupeInv(s) && Enabled(s, e)
    ensures DedupeInv(Apply(s, e))
  {
    hide Doomed;
    var t := Apply(s, e);
    forall i | 0 <= i < |t.calls|
      ensures Guarded(t, t.calls[i])
    {
      if i < |s.calls| { GuardStep(s, e, s.calls[i]); } else { FreshlyGuarded(s, e); }
    }
    forall i, j | 0 <= i < j < |t.calls|
      ensures Apart(t.calls[i], t.calls[j])
    {
      if j < |s.calls| { assert Apart(s.calls[i], s.calls[j]); }
      else { assert Guarded(s, s.calls[i]); }
    }
  }

  lemma FreshlyGuarded(s: State, e: Event)
    requires Enabled(s, e) && e.Receive?
    ensures Guarded(Apply(s, e), Apply(s, e).calls[|s.calls|])
  {
  }

  /** Call j was accepted earlier for this id. */
  predicate Original(calls: seq<Call>, id: string, before: nat, j: nat) {
    j < before <= |calls| && calls[j].id == id && !calls[j].duplicate
  }

  /** What the table holds stems from an accepted message; what was refused repeats one. */
  ghost predicate TableInv(s: State) {
    && (forall id :: id in s.recent ==> id != "" && exists j :: Original(s.calls, id, |s.calls|, j))
    && (forall i :: 0 <= i < |s.calls| && s.calls[i].duplicate ==>
          s.calls[i].id != "" && exists j :: Original(s.calls, s.calls[i].id, i, j))
  }

  lemma TableStep(s: State, e: Event)
    requires TableInv(s) && Enabled(s, e)
    ensures TableInv(Apply(s, e))
  {
    hide Doomed, IsOld;
    var t := Apply(s, e);
    assert forall id, b: nat, j: nat :: b <= |s.calls| && Original(s.calls, id, b, j) ==> Original(t.calls, id, b, j);
    forall id | id in t.recent
      ensures id != "" && exists j :: Original(t.calls, id, |t.calls|, j)
    {
      if id in s.recent {
        var j :| Original(s.calls, id, |s.calls|, j);
        assert Original(t.calls, id, |t.calls|, j);
      } else {
        assert Original(t.calls, id, |t.calls|, |s.calls|);
      }
    }
    forall i | 0 <= i < |t.calls| && t.calls[i].duplicate
      ensures t.calls[i].id != "" && exists j :: Original(t.calls, t.calls[i].id, i, j)
    {
      var j :| Original(s.calls, t.calls[i].id, i, j);
      assert Original(t.calls, t.calls[i].id, i, j);
    }
  }

  /** Accepted call j for this id came more than ten minutes before `now`. */
  predicate LongBefore(calls: seq<Call>, id: string, before: nat, j: nat, now: int) {
    Original(calls, id, before, j) && calls[j].stamp + TEN_MINUTES < now
  }

  ghost predicate EntryFrom(s: State, id: string)
    requires id in s.recent
  {
    exists j: nat :: Original(s.calls, id, |s.calls|, j) && s.calls[j].stamp == s.recent[id]
  }

  ghost predicate DoomFrom(s: State, id: string) {
    exists j :: LongBefore(s.calls, id, |s.calls|, j, s.now)
  }

  ghost predicate RaceFrom(calls: seq<Call>, i: nat)
    requires i < |calls|
  {
    exists j :: LongBefore(calls, calls[i].id, i, j, calls[i].stamp)
  }

  /** What a prune is about to delete, and hence a call that raced with a delete, had an acceptance over ten minutes ago. */
  ghost predicate RaceInv(s: State) {
    && (forall k :: 0 <= k < |s.prunes| ==> s.prunes[k].cutoff + TEN_MINUTES <= s.now)
    && (forall id :: id in s.recent ==> EntryFrom(s, id))
    && (forall k :: 0 <= k < |s.prunes| && s.prunes[k].doomed.Some? ==> DoomFrom(s, s.prunes[k].doomed.value))
    && (forall i :: 0 <= i < |s.calls| && s.calls[i].raced ==> RaceFrom(s.calls, i))
  }

  lemma CallsStay(s: State, e: Event)
    requires Enabled(s, e)
    ensures var t := Apply(s, e);
            && s.now <= t.now && |s.calls| <= |t.calls|
            && forall j :: 0 <= j < |s.calls| ==>
                 && t.calls[j].id == s.calls[j].id && t.calls[j].stamp == s.calls[j].stamp
                 && t.calls[j].duplicate == s.calls[j].duplicate && t.calls[j].raced == s.calls[j].raced
  {
    hide Doomed;
  }

  lemma EntryStep(s: State, e: Event, id: string)
    requires RaceInv(s) && Enabled(s, e) && id in Apply(s, e).recent
    ensures EntryFrom(Apply(s, e), id)
  {
    hide Doomed, DoomFrom, RaceFrom;
    var t := Apply(s, e);
    CallsStay(s, e);
    if id in s.recent {
      assert EntryFrom(s, id);
      var j: nat :| Original(s.calls, id, |s.calls|, j) && s.calls[j].stamp == s.recent[id];
      assert Original(t.calls, id, |t.calls|, j);
    } else {
      assert Original(t.calls, id, |t.calls|, |s.calls|);
    }
  }

  lemma DoomStep(s: State, e: Event, k: nat)
    requires RaceInv(s) && Enabled(s, e) && k < |Apply(s, e).prunes| && Apply(s, e).prunes[k].doomed.Some?
    ensures DoomFrom(Apply(s, e), Apply(s, e).prunes[k].doomed.value)
  {
    hide Doomed, RaceFrom;
    var t := Apply(s, e);
    CallsStay(s, e);
    var id := t.prunes[k].doomed.value;
    if e.Look? && e.k == k {
      assert EntryFrom(s, id);
      var j: nat :| Original(s.calls, id, |s.calls|, j) && s.calls[j].stamp == s.recent[id];
      assert LongBefore(t.calls, id, |t.calls|, j, t.now);
    } else {
      assert DoomFrom(s, id);
      var j :| LongBefore(s.calls, id, |s.calls|, j, s.now);
      assert LongBefore(t.calls, id, |t.calls|, j, t.now);
    }
  }

  lemma RacedStep(s: State, e: Event, i: nat)
    requires RaceInv(s) && Enabled(s, e) && i < |Apply(s, e).calls| && Apply(s, e).calls[i].raced
    ensures RaceFrom(Apply(s, e).calls, i)
  {
    hide DoomFrom, EntryFrom;
    var t := Apply(s, e);
    CallsStay(s, e);
    var id := t.calls[i].id;
    if i < |s.calls| {
      assert RaceFrom(s.calls, i);
      var j :| LongBefore(s.calls, id, i, j, s.calls[i].stamp);
      assert LongBefore(t.calls, id, i, j, t.calls[i].stamp);
    } else {
      var k :| 0 <= k < |s.prunes| && s.prunes[k].doomed == Some(id);
      DoomedLongBefore(s, t, e, id);
    }
  }

  lemma DoomedLongBefore(s: State, t: State, e: Event, id: string)
    requires DoomFrom(s, id) && Enabled(s, e) && e.Receive? && t == Apply(s, e)
    ensures exists j :: LongBefore(t.calls, id, |s.calls|, j, e.now)
  {
    hide Doomed;
    var j :| LongBefore(s.calls, id, |s.calls|, j, s.now);
    assert LongBefore(t.calls, id, |s.calls|, j, e.now);
  }

  lemma RaceStep(s: State, e: Event)
    requires RaceInv(s) && Enabled(s, e)
    ensures RaceInv(Apply(s, e))
  {
    hide Doomed, DoomFrom, EntryFrom, RaceFrom;
    var t := Apply(s, e);
    forall id | id in t.recent ensures EntryFrom(t, id) { EntryStep(s, e, id); }
    forall k | 0 <= k < |t.prunes| && t.prunes[k].doomed.Some? ensures DoomFrom(t, t.prunes[k].doomed.value) { DoomStep(s, e, k); }
    forall i | 0 <= i < |t.calls| && t.calls[i].raced ensures RaceFrom(t.calls, i) { RacedStep(s, e, i); }
  }

  // -- reports --

  /** What was written about a call, in order. */
  function About(attempts: seq<Attempt>, i: nat): seq<Report> {
    if attempts == [] then []
    else
      var n := |attempts| - 1;
      About(attempts[..n], i) + if attempts[n].call == i then [attempts[n].report] else []
  }

  function Expected(c: Call): seq<Report> {
    match c.phase
    case Received => []
    case Ignored => [Duplicate]
    case Running => [Accepted]
    case Ran(_) => [Accepted]
    case Concluded(ok) => [Accepted, Outcome(ok)]
  }

  predicate HasRun(c: Call) {
    c.phase.Ran? || c.phase.Concluded?
  }

  predicate CallOk(s: State, i: nat)
    requires i < |s.calls|
  {
    var c := s.calls[i];
    && About(s.attempts, i) == Expected(c)
    && (c.duplicate ==> c.phase.Received? || c.phase.Ignored?)
    && (c.phase.Ignored? ==> c.duplicate)
    && (i in s.commands <==> HasRun(c))
  }

  ghost predicate ReportInv(s: State) {
    && (forall i :: 0 <= i < |s.calls| ==> CallOk(s, i))
    && (forall i :: i >= |s.calls| ==> About(s.attempts, i) == [])
    && (forall x :: x in s.commands ==> x < |s.calls|)
    && (forall x, y :: 0 <= x < y < |s.commands| ==> s.commands[x] != s.commands[y])
  }

  lemma AboutMore(attempts: seq<Attempt>, a: Attempt)
    ensures forall i :: About(attempts + [a], i) == About(attempts, i) + if a.call == i then [a.report] else []
  {
    assert (attempts + [a])[..|attempts|] == attempts;
  }

  /** An event that is not about the call leaves what is known of it alone. */
  lemma CallKept(s: State, t: State, i: nat)
    requires i < |s.calls| && CallOk(s, i) && i < |t.calls| && t.calls[i] == s.calls[i]
    requires About(t.attempts, i) == About(s.attempts, i) && (i in t.commands <==> i in s.commands)
    ensures CallOk(t, i)
  {
    hide About, Expected;
  }

  lemma OwnStep(s: State, e: Event)
    requires Enabled(s, e) && (e.Acknowledge? || e.RunCommand? || e.Conclude?) && CallOk(s, e.i)
    ensures CallOk(Apply(s, e), e.i)
  {
    hide About;
    var t := Apply(s, e);
    if !e.RunCommand? { AboutMore(s.attempts, t.attempts[|s.attempts|]); }
  }

  lemma OtherStep(s: State, e: Event, i: nat)
    requires Enabled(s, e) && (e.Acknowledge? || e.RunCommand? || e.Conclude?) && i < |s.calls| && i != e.i && CallOk(s, i)
    ensures CallOk(Apply(s, e), i)
  {
    hide About, CallOk;
    var t := Apply(s, e);
    if !e.RunCommand? {
      AboutMore(s.attempts, t.attempts[|s.attempts|]);
      assert About(s.attempts, i) + [] == About(s.attempts, i);
    }
    CallKept(s, t, i);
  }

  lemma ElseStep(s: State, e: Event, i: nat)
    requires ReportInv(s) && Enabled(s, e) && !(e.Acknowledge? || e.RunCommand? || e.Conclude?) && i < |Apply(s, e).calls|
    ensures CallOk(Apply(s, e), i)
  {
    hide About, Doomed, Remember, IsOld, IsDuplicate;
    var t := Apply(s, e);
    assert t.attempts == s.attempts && t.commands == s.commands;
    if i < |s.calls| {
      assert CallOk(s, i) && t.calls[i] == s.calls[i];
      CallKept(s, t, i);
    }
  }

  lemma CallStep(s: State, e: Event, i: nat)
    requires ReportInv(s) && Enabled(s, e) && i < |Apply(s, e).calls|
    ensures CallOk(Apply(s, e), i)
  {
    hide About, Doomed, Remember, IsOld, IsDuplicate, CallOk;
    if e.Acknowledge? || e.RunCommand? || e.Conclude? {
      assert CallOk(s, e.i) && CallOk(s, i);
      if i == e.i { OwnStep(s, e); } else { OtherStep(s, e, i); }
    } else {
      ElseStep(s, e, i);
    }
  }

  lemma ReportStep(s: State, e: Event)
    requires ReportInv(s) && Enabled(s, e)
    ensures ReportInv(Apply(s, e))
  {
    hide About;
    var t := Apply(s, e);
    forall i | 0 <= i < |t.calls|
      ensures CallOk(t, i)
    {
      CallStep(s, e, i);
    }
    if e.Acknowledge? || e.Conclude? { AboutMore(s.attempts, t.attempts[|s.attempts|]); }
    if e.RunCommand? { assert CallOk(s, e.i); }
  }

  // -- all runs --

  lemma {:induction false} Reachable(start: int, run: seq<Event>)
    requires Exec(start, run).Some?
    ensures DedupeInv(Exec(start, run).value) && TableInv(Exec(start, run).value) && ReportInv(Exec(start, run).value)
    ensures RaceInv(Exec(start, run).value)
  {
    if run != [] {
      var n := |run| - 1;
      Reachable(start, run[..n]);
      DedupeStep(Exec(start, run[..n]).value, run[n]);
      TableStep(Exec(start, run[..n]).value, run[n]);
      ReportStep(Exec(start, run[..n]).value, run[n]);
      RaceStep(Exec(start, run[..n]).value, run[n]);
    }
  }

  lemma CommandsAreCalls(start: int, run: seq<Event>)
    requires Exec(start, run).Some?
    ensures var s := Exec(start, run).value;
            forall x :: 0 <= x < |s.commands| ==> s.commands[x] < |s.calls| && CallOk(s, s.commands[x])
  {
    Reachable(start, run);
    var s := Exec(start, run).value;
    assert forall x :: 0 <= x < |s.commands| ==> s.commands[x] in s.commands;
  }

  /** Two commands run for the same non-empty request id stem from messages received more than ten minutes apart,
      whatever was pruned meanwhile, unless the earlier one was received between a prune's look at an old entry of the
      id and its delete; then the id had been accepted more than ten minutes before that already. */
  lemma CommandsOfOneIdApart(start: int, run: seq<Event>, x: nat, y: nat)
    requires Exec(start, run).Some?
    requires x < |Exec(start, run).value.commands| && y < |Exec(start, run).value.commands| && x != y
    ensures var s := Exec(start, run).value;
            && s.commands[x] < |s.calls| && s.commands[y] < |s.calls| && s.commands[x] != s.commands[y]
            && var i, j := if s.commands[x] < s.commands[y] then s.commands[x] else s.commands[y],
                           if s.commands[x] < s.commands[y] then s.commands[y] else s.commands[x];
               s.calls[i].id == s.calls[j].id && s.calls[i].id != "" ==>
                 || s.calls[i].stamp + TEN_MINUTES < s.calls[j].stamp
                 || (s.calls[i].raced && RaceFrom(s.calls, i))
  {
    Reachable(start, run);
    var s := Exec(start, run).value;
    var i, j := s.commands[x], s.commands[y];
    assert i in s.commands && j in s.commands;
    assert CallOk(s, i) && CallOk(s, j);
    hide RaceFrom, Original;
    if i < j { assert Apart(s.calls[i], s.calls[j]); } else { assert Apart(s.calls[j], s.calls[i]); }
  }

  // -- when an id can be accepted again --

  function ExecFrom(s: State, more: seq<Event>): Option<State> {
    if more == [] then Some(s)
    else
      var n := |more| - 1;
      match ExecFrom(s, more[..n])
      case None => None
      case Some(t) => if Enabled(t, more[n]) then Some(Apply(t, more[n])) else None
  }

  lemma {:induction false} ExecConcat(start: int, run: seq<Event>, more: seq<Event>)
    requires Exec(start, run).Some?
    ensures Exec(start, run + more) == ExecFrom(Exec(start, run).value, more)
  {
    hide Enabled, Apply;
    if more == [] {
      assert run + more == run;
    } else {
      var n := |more| - 1;
      assert (run + more)[..|run| + n] == run + more[..n];
      ExecConcat(start, run, more[..n]);
    }
  }

  lemma {:induction false} CallsStayAll(s: State, more: seq<Event>)
    requires ExecFrom(s, more).Some?
    ensures var t := ExecFrom(s, more).value;
            && |s.calls| <= |t.calls|
            && forall j :: 0 <= j < |s.calls| ==>
                 && t.calls[j].id == s.calls[j].id && t.calls[j].stamp == s.calls[j].stamp
                 && t.calls[j].duplicate == s.calls[j].duplicate && t.calls[j].raced == s.calls[j].raced
  {
    hide Enabled, Apply;
    if more != [] {
      var n := |more| - 1;
      CallsStayAll(s, more[..n]);
      CallsStay(ExecFrom(s, more[..n]).value, more[n]);
    }
  }

  /** Call j accepts the id again within ten minutes of call i. */
  predicate Repeats(calls: seq<Call>, i: nat, j: nat) {
    i < j < |calls| && calls[j].id == calls[i].id && !calls[j].duplicate && calls[j].stamp <= calls[i].stamp + TEN_MINUTES
  }

  /** A message just accepted can be accepted again within ten minutes exactly when it raced with a delete. */
  lemma RepeatPossibleIff(start: int, run: seq<Event>, id: string, now: int)
    requires Exec(start, run).Some? && Enabled(Exec(start, run).value, Receive(id, now))
    requires id != "" && id !in Exec(start, run).value.recent
    ensures var s := Exec(start, run).value;
            var t := Apply(s, Receive(id, now));
            (exists more, j :: ExecFrom(t, more).Some? && Repeats(ExecFrom(t, more).value.calls, |s.calls|, j))
            <==> Doomed(s.prunes, id)
  {
    hide Enabled, Apply, Repeats;
    var s := Exec(start, run).value;
    var t := Apply(s, Receive(id, now));
    if exists more, j :: ExecFrom(t, more).Some? && Repeats(ExecFrom(t, more).value.calls, |s.calls|, j) {
      var more, j :| ExecFrom(t, more).Some? && Repeats(ExecFrom(t, more).value.calls, |s.calls|, j);
      NoRepeat(start, run, id, now, more, j);
    }
    if Doomed(s.prunes, id) {
      var more := RepeatAtOnce(s, id, now);
    }
  }

  lemma NoRepeat(start: int, run: seq<Event>, id: string, now: int, more: seq<Event>, j: nat)
    requires Exec(start, run).Some? && Enabled(Exec(start, run).value, Receive(id, now))
    requires id != "" && id !in Exec(start, run).value.recent
    requires var t := Apply(Exec(start, run).value, Receive(id, now));
             ExecFrom(t, more).Some? && Repeats(ExecFrom(t, more).value.calls, |Exec(start, run).value.calls|, j)
    ensures Doomed(Exec(start, run).value.prunes, id)
  {
    hide Doomed, TableInv, ReportInv, RaceInv, Guarded;
    var s, e := Exec(start, run).value, Receive(id, now);
    var t := Apply(s, e);
    assert (run + [e])[..|run|] == run;
    ExecConcat(start, run + [e], more);
    CallsStayAll(t, more);
    Reachable(start, run + [e] + more);
    var u := ExecFrom(t, more).value;
    assert Apart(u.calls[|s.calls|], u.calls[j]);
  }

  lemma RepeatAtOnce(s: State, id: string, now: int) returns (more: seq<Event>)
    requires Enabled(s, Receive(id, now)) && id != "" && id !in s.recent && Doomed(s.prunes, id)
    ensures var t := Apply(s, Receive(id, now));
            ExecFrom(t, more).Some? && Repeats(ExecFrom(t, more).value.calls, |s.calls|, |s.calls| + 1)
  {
    var k :| 0 <= k < |s.prunes| && s.prunes[k].doomed == Some(id);
    var t := Apply(s, Receive(id, now));
    var u := Apply(t, Forget(k));
    more := [Forget(k), Receive(id, now)];
    assert more[..1] == [Forget(k)] && more[..1][..0] == [];
    assert ExecFrom(t, []) == Some(t);
    assert ExecFrom(t, more[..1]) == Some(u);
    assert Enabled(u, Receive(id, now));
  }

  lemma Extend(start: int, run: seq<Event>, s: State, e: Event) returns (longer: seq<Event>, t: State)
    requires Exec(start, run) == Some(s) && Enabled(s, e)
    ensures longer == run + [e] && t == Apply(s, e) && Exec(start, longer) == Some(t)
  {
    longer, t := run + [e], Apply(s, e);
    assert longer[..|run|] == run;
  }

  lemma TwoAccepted() returns (run: seq<Event>, s: State)
    ensures Exec(0, run) == Some(s) && s.now == 0 && s.owed == 2 && s.prunes == []
    ensures "a" in s.recent && s.recent["a"] == 0
  {
    hide Doomed;
    run, s := Extend(0, [], Init(0), Receive("a", 0));
    hide Exec;
    run, s := Extend(0, run, s, Receive("b", 0));
  }

  lemma TwoPrunes() returns (run: seq<Event>, s: State)
    ensures Exec(0, run) == Some(s) && s.now == TEN_MINUTES + 1 && "a" in s.recent && s.recent["a"] == 0
    ensures |s.prunes| == 2 && s.prunes[0] == Prune(1, {}, None) && s.prunes[1] == Prune(1, {}, None)
  {
    hide Exec, Doomed;
    run, s := TwoAccepted();
    run, s := Extend(0, run, s, StartPrune(TEN_MINUTES + 1));
    run, s := Extend(0, run, s, StartPrune(TEN_MINUTES + 1));
  }

  /** Such a race is reachable: two prunes find the old entry, one of them deletes it before the message comes, the
      other one afterwards. */
  lemma RaceIsReachable() returns (run: seq<Event>, s: State)
    ensures Exec(0, run) == Some(s) && Enabled(s, Receive("a", TEN_MINUTES + 1)) && "a" !in s.recent && Doomed(s.prunes, "a")
  {
    hide Exec;
    run, s := TwoPrunes();
    run, s := Extend(0, run, s, Look(0, "a"));
    assert s.prunes[0].doomed == Some("a") && s.prunes[1] == Prune(1, {}, None);
    run, s := Extend(0, run, s, Look(1, "a"));
    assert s.prunes[1].doomed == Some("a");
    run, s := Extend(0, run, s, Forget(0));
    assert s.prunes[1].doomed == Some("a");
  }

  /** A message is refused as a duplicate only when an earlier one with its id was accepted. */
  lemma OnlyRepeatsRefused(start: int, run: seq<Event>, i: nat)
    requires Exec(start, run).Some? && i < |Exec(start, run).value.calls|
    requires Exec(start, run).value.calls[i].duplicate
    ensures exists j :: Original(Exec(start, run).value.calls, Exec(start, run).value.calls[i].id, i, j)
  {
    Reachable(start, run);
  }

  /** Every message is answered by one accepted or one duplicate attempt and nothing before it; an outcome is written
      only after the acceptance, at most once, and a command runs only for a message whose acceptance was written. */
  lemma ReportsOfOneCall(start: int, run: seq<Event>, i: nat)
    requires Exec(start, run).Some? && i < |Exec(start, run).value.calls|
    ensures var s := Exec(start, run).value;
            && About(s.attempts, i) in {[], [Duplicate], [Accepted], [Accepted, Executed], [Accepted, Failed]}
            && (About(s.attempts, i) == [] <==> s.calls[i].phase.Received?)
            && (s.calls[i].duplicate ==> About(s.attempts, i) <= [Duplicate])
            && (!s.calls[i].duplicate ==> Duplicate !in About(s.attempts, i))
            && (i in s.commands ==> !s.calls[i].duplicate && [Accepted] <= About(s.attempts, i))
  {
    Reachable(start, run);
    assert CallOk(Exec(start, run).value, i);
  }

  predicate OutcomeIn(run: seq<Event>, c: Call, i: nat) {
    match c.phase
    case Ran(ok) => RunCommand(i, ok) in run
    case Concluded(ok) => RunCommand(i, ok) in run
    case _ => true
  }

  lemma {:induction false} OutcomesOf(start: int, run: seq<Event>, i: nat)
    requires Exec(start, run).Some?
    ensures i < |Exec(start, run).value.calls| ==> OutcomeIn(run, Exec(start, run).value.calls[i], i)
  {
    if run != [] {
      hide Doomed, IsOld, Remember, IsDuplicate;
      var n := |run| - 1;
      OutcomesOf(start, run[..n], i);
      assert run == run[..n] + [run[n]];
    }
  }

  /** What is reported about a command is how it ended. */
  lemma OutcomeIsTrue(start: int, run: seq<Event>, i: nat)
    requires Exec(start, run).Some? && i < |Exec(start, run).value.calls|
    ensures Executed in About(Exec(start, run).value.attempts, i) ==> RunCommand(i, true) in run
    ensures Failed in About(Exec(start, run).value.attempts, i) ==> RunCommand(i, false) in run
  {
    Reachable(start, run);
    OutcomesOf(start, run, i);
    assert CallOk(Exec(start, run).value, i);
  }

  function Count(attempts: seq<Attempt>, reports: set<Report>): nat {
    if attempts == [] then 0
    else Count(attempts[..|attempts| - 1], reports) + if attempts[|attempts| - 1].report in reports then 1 else 0
  }

  /** Calls that were accepted but have not reported their outcome. */
  function Open(calls: seq<Call>): nat {
    if calls == [] then 0
    else
      var c := calls[|calls| - 1];
      Open(calls[..|calls| - 1]) + if c.phase.Running? || c.phase.Ran? then 1 else 0
  }

  lemma {:induction false} OpenAfter(calls: seq<Call>, i: nat, c: Call)
    requires i < |calls|
    ensures Open(calls[i := c]) - Open(calls) ==
            (if c.phase.Running? || c.phase.Ran? then 1 else 0) - (if calls[i].phase.Running? || calls[i].phase.Ran? then 1 else 0)
  {
    var n := |calls| - 1;
    if i < n {
      assert calls[i := c][..n] == calls[..n][i := c];
      OpenAfter(calls[..n], i, c);
    } else {
      assert calls[i := c][..n] == calls[..n];
    }
  }

  predicate Balanced(s: State) {
    Count(s.attempts, {Accepted}) == Count(s.attempts, {Executed, Failed}) + Open(s.calls)
  }

  lemma CountMore(attempts: seq<Attempt>, a: Attempt, reports: set<Report>)
    ensures Count(attempts + [a], reports) == Count(attempts, reports) + if a.report in reports then 1 else 0
  {
    assert (attempts + [a])[..|attempts|] == attempts;
  }

  lemma BalanceStep(s: State, e: Event)
    requires Balanced(s) && Enabled(s, e)
    ensures Balanced(Apply(s, e))
  {
    hide Doomed, Remember, IsOld, IsDuplicate;
    var t := Apply(s, e);
    if e.Receive? {
      assert t.calls[..|s.calls|] == s.calls;
    } else if e.Acknowledge? || e.RunCommand? || e.Conclude? {
      OpenAfter(s.calls, e.i, t.calls[e.i]);
      if e.Acknowledge? || e.Conclude? {
        CountMore(s.attempts, t.attempts[|s.attempts|], {Accepted});
        CountMore(s.attempts, t.attempts[|s.attempts|], {Executed, Failed});
      }
    }
  }

  /** Acceptances and outcomes balance: what is accepted is either still under way or reported once. */
  lemma {:induction false} OutcomesNeverOutnumber(start: int, run: seq<Event>)
    requires Exec(start, run).Some?
    ensures Balanced(Exec(start, run).value)
  {
    if run != [] {
      var n := |run| - 1;
      OutcomesNeverOutnumber(start, run[..n]);
      BalanceStep(Exec(start, run[..n]).value, run[n]);
    }
  }
}
