/** What the scheduler asks for: every firing of a run comes from a schedule that the tick before it listed, and its call
    is the one that schedule names. */
module ScheduleCalls {
  import opened Text
  import opened Config
  import opened StoreModel
  import opened ScheduleModel

  /** The group where one is named, otherwise the device; a wake for "wake" and a shutdown for every other action. */
  predicate AsksFor(call: Call, sc: Schedule) {
    && call.id == (if sc.groupID != "" then sc.groupID else sc.deviceID)
    && (call.WakeGroup? || call.ShutdownGroup? <==> sc.groupID != "")
    && (call.Wake? || call.WakeGroup? <==> sc.action == "wake")
  }

  /** At position k the run fires schedule sc, listed by the tick at position j, the last one before. */
  ghost predicate FiresAt(start: State, run: seq<Event>, j: nat, k: nat, sc: Schedule, f: Firing) {
    && j < k < |run| && run[j].Tick? && run[k].Fire?
    && (forall i :: j < i < k ==> !run[i].Tick?)
    && Exec(start, run[..j]).Some? && sc in Exec(start, run[..j]).value.lists.schedules
    && IsDue(sc, ReadClock(run[j].sec))
    && f.id == sc.id && f.day == ReadClock(run[j].sec).day && AsksFor(f.call, sc)
  }

  /** The schedule at hand was listed by the last tick. */
  ghost predicate ListedAt(start: State, run: seq<Event>, j: nat, sc: Schedule, now: int) {
    && j < |run| && run[j].Tick? && run[j].sec == now
    && (forall i :: j < i < |run| ==> !run[i].Tick?)
    && Exec(start, run[..j]).Some? && sc in Exec(start, run[..j]).value.lists.schedules
    && IsDue(sc, ReadClock(now))
  }

  ghost predicate Listed(start: State, run: seq<Event>, s: State, sc: Schedule) {
    exists j: nat :: ListedAt(start, run, j, sc, s.now)
  }

  ghost predicate Traced(start: State, run: seq<Event>, f: Firing) {
    exists j: nat, k: nat, sc :: FiresAt(start, run, j, k, sc, f)
  }

  lemma ListedMore(start: State, run: seq<Event>, s: State, e: Event, sc: Schedule)
    requires Listed(start, run, s, sc) && Enabled(s, e) && !e.Tick?
    ensures Listed(start, run + [e], Apply(s, e), sc)
  {
    hide Exec, IsDue, ReadClock, Step, Filter;
    var j: nat :| ListedAt(start, run, j, sc, s.now);
    assert (run + [e])[..j] == run[..j] && (run + [e])[|run|] == e;
    assert ListedAt(start, run + [e], j, sc, Apply(s, e).now);
  }

  lemma TickLists(start: State, run: seq<Event>, s: State, sec: int, sc: Schedule)
    requires Exec(start, run) == Some(s) && Enabled(s, Tick(sec)) && sc in Apply(s, Tick(sec)).todo
    ensures Listed(start, run + [Tick(sec)], Apply(s, Tick(sec)), sc)
  {
    FilterMembers(s.lists.schedules, DueAt(ReadClock(sec)));
    var longer := run + [Tick(sec)];
    assert longer[..|run|] == run && longer[|run|] == Tick(sec);
    assert DueAt(ReadClock(sec))(sc);
    assert ListedAt(start, longer, |run|, sc, sec);
  }

  lemma FireTraces(start: State, run: seq<Event>, s: State, f: Firing)
    requires Enabled(s, Fire) && Listed(start, run, s, s.todo[0]) && f == Apply(s, Fire).fired[|s.fired|]
    ensures Traced(start, run + [Fire], f)
  {
    hide Exec, IsDue;
    var sc := s.todo[0];
    var j: nat :| ListedAt(start, run, j, sc, s.now);
    var longer := run + [Fire];
    assert longer[..j] == run[..j] && longer[|run|] == Fire;
    assert FiresAt(start, longer, j, |run|, sc, f);
  }

  lemma TracedMore(start: State, run: seq<Event>, e: Event, f: Firing)
    requires Traced(start, run, f)
    ensures Traced(start, run + [e], f)
  {
    hide Exec, IsDue, ReadClock, AsksFor;
    var j: nat, k: nat, sc :| FiresAt(start, run, j, k, sc, f);
    assert (run + [e])[..j] == run[..j];
    assert FiresAt(start, run + [e], j, k, sc, f);
  }

  /** In every run each firing stems from a schedule that the last tick before it found due in the store, and its call
      goes to that schedule's group where it names one, otherwise to its device, and is a wake exactly when its action
      is "wake". */
  lemma {:induction false} FiringsComeFromSchedules(start: State, run: seq<Event>)
    requires start.todo == [] && start.fired == [] && Exec(start, run).Some?
    ensures forall f :: f in Exec(start, run).value.fired ==> Traced(start, run, f)
    ensures forall sc :: sc in Exec(start, run).value.todo ==> Listed(start, run, Exec(start, run).value, sc)
  {
    if run != [] {
      hide Traced, Listed, Apply, Enabled;
      var n := |run| - 1;
      assert run == run[..n] + [run[n]];
      FiringsComeFromSchedules(start, run[..n]);
      TodoStays(start, run[..n], Exec(start, run[..n]).value, run[n]);
      FiredStays(start, run[..n], Exec(start, run[..n]).value, run[n]);
    }
  }

  lemma TodoStays(start: State, run: seq<Event>, s: State, e: Event)
    requires Exec(start, run) == Some(s) && Enabled(s, e) && forall sc :: sc in s.todo ==> Listed(start, run, s, sc)
    ensures forall sc :: sc in Apply(s, e).todo ==> Listed(start, run + [e], Apply(s, e), sc)
  {
    hide Listed, Apply, Enabled, Exec;
    TodoStep(s, e);
    forall sc | sc in Apply(s, e).todo ensures Listed(start, run + [e], Apply(s, e), sc) {
      if e.Tick? { TickLists(start, run, s, e.sec, sc); } else { ListedMore(start, run, s, e, sc); }
    }
  }

  lemma FiredStays(start: State, run: seq<Event>, s: State, e: Event)
    requires Enabled(s, e) && forall sc :: sc in s.todo ==> Listed(start, run, s, sc)
    requires forall f :: f in s.fired ==> Traced(start, run, f)
    ensures forall f :: f in Apply(s, e).fired ==> Traced(start, run + [e], f)
  {
    hide Listed, Traced, Apply, Exec;
    TodoStep(s, e);
    forall f | f in Apply(s, e).fired ensures Traced(start, run + [e], f) {
      if f in s.fired { TracedMore(start, run, e, f); } else { FireTraces(start, run, s, f); }
    }
  }

  lemma TodoStep(s: State, e: Event)
    requires Enabled(s, e)
    ensures !e.Tick? ==> forall sc :: sc in Apply(s, e).todo ==> sc in s.todo
    ensures forall f :: f in Apply(s, e).fired && f !in s.fired ==> e == Fire && f == Apply(s, e).fired[|s.fired|]
    ensures e == Fire ==> s.todo[0] in s.todo
  {
    hide Step, CallOf, ReadClock, Filter;
  }

  // -- which actions there are --

  ghost predicate KnownActions(ss: seq<Schedule>) {
    forall i :: 0 <= i < |ss| ==> ss[i].action == "wake" || ss[i].action == "shutdown"
  }

  lemma StoredAction(ss: seq<Schedule>, sc: Schedule, now: int, freshId: string)
    requires StoredSchedule(ss, sc, now, freshId).Done?
    ensures var n := StoredSchedule(ss, sc, now, freshId).value; n.action == "wake" || n.action == "shutdown"
  {
    hide Trim, Canonical;
  }

  /** The store admits no third action. */
  lemma StepKeepsActions(l: Lists, op: Op)
    requires KnownActions(l.schedules)
    ensures KnownActions(Step(l, op).schedules)
  {
    match op
    case PutSchedule(sc, now, freshId) =>
      hide StoredSchedule;
      if StoredSchedule(l.schedules, sc, now, freshId).Done? { StoredAction(l.schedules, sc, now, freshId); }
    case DropSchedule(id) =>
      FilterMembers(l.schedules, OtherSchedule(id));
      var after := WithoutSchedule(l.schedules, id);
      forall i | 0 <= i < |after| ensures after[i].action == "wake" || after[i].action == "shutdown" { assert after[i] in after && after[i] in l.schedules; }
    case _ =>
  }

  lemma {:induction false} ActionsKnown(lists: Lists, now: int, run: seq<Event>)
    requires KnownActions(lists.schedules) && Exec(Start(lists, now), run).Some?
    ensures KnownActions(Exec(Start(lists, now), run).value.lists.schedules)
  {
    if run != [] {
      hide KnownActions, Step;
      var n := |run| - 1;
      ActionsKnown(lists, now, run[..n]);
      var s := Exec(Start(lists, now), run[..n]).value;
      match run[n]
      case Mark => StepKeepsActions(s.lists, MarkRun(s.todo[0].id, s.Today()));
      case Edit(op) => StepKeepsActions(s.lists, op);
      case _ =>
    }
  }

  /** Hence, where the schedules had no third action to begin with, each firing is a wake of a "wake" schedule or a
      shutdown of a "shutdown" schedule. */
  lemma WakeOrShutdown(lists: Lists, now: int, run: seq<Event>, f: Firing)
    requires KnownActions(lists.schedules) && Exec(Start(lists, now), run).Some?
    requires f in Exec(Start(lists, now), run).value.fired
    ensures exists j: nat, k: nat, sc :: FiresAt(Start(lists, now), run, j, k, sc, f)
                                 && (f.call.Wake? || f.call.WakeGroup? <==> sc.action == "wake")
                                 && (f.call.Shutdown? || f.call.ShutdownGroup? <==> sc.action == "shutdown")
  {
    hide Exec, KnownActions, IsDue, ReadClock;
    FiringsComeFromSchedules(Start(lists, now), run);
    var j: nat, k: nat, sc :| FiresAt(Start(lists, now), run, j, k, sc, f);
    ActionsKnownAt(lists, now, run, j);
    var ss := Exec(Start(lists, now), run[..j]).value.lists.schedules;
    KnownMember(ss, sc);
  }

  lemma KnownMember(ss: seq<Schedule>, sc: Schedule)
    requires KnownActions(ss) && sc in ss
    ensures sc.action == "wake" || sc.action == "shutdown"
  {
  }

  lemma ActionsKnownAt(lists: Lists, now: int, run: seq<Event>, j: nat)
    requires KnownActions(lists.schedules) && j <= |run| && Exec(Start(lists, now), run[..j]).Some?
    ensures KnownActions(Exec(Start(lists, now), run[..j]).value.lists.schedules)
  {
    ActionsKnown(lists, now, run[..j]);
  }

  // -- the promise, with what is asked for --

  /** Firing i of the list is the one of this schedule on this day. */
  predicate OnDay(fired: seq<Firing>, i: nat, id: string, day: int) {
    i < |fired| && fired[i].id == id && fired[i].day == day
  }

  lemma {:induction false} DayHasFiring(fired: seq<Firing>, id: string, day: int)
    requires day in DaysOf(fired, id)
    ensures exists i: nat :: OnDay(fired, i, id, day)
  {
    var n := |fired| - 1;
    if fired[n].id == id && fired[n].day == day {
      assert OnDay(fired, n, id, day);
    } else {
      DayHasFiring(fired[..n], id, day);
      var i: nat :| OnDay(fired[..n], i, id, day);
      assert OnDay(fired, i, id, day);
    }
  }

  lemma {:induction false} FiringHasDay(fired: seq<Firing>, i: nat, id: string, day: int)
    requires OnDay(fired, i, id, day)
    ensures day in DaysOf(fired, id)
  {
    var n := |fired| - 1;
    if i < n { FiringHasDay(fired[..n], i, id, day); }
  }

  lemma LastIsNew(front: seq<int>, day: int)
    ensures Increasing(front + [day]) ==> day !in front
  {
    var days := front + [day];
    if Increasing(days) {
      forall a | 0 <= a < |front| ensures front[a] != day { assert days[a] < days[|front|]; }
    }
  }

  lemma {:induction false} OneFiringPerDay(fired: seq<Firing>, id: string, day: int, i: nat, k: nat)
    requires Increasing(DaysOf(fired, id)) && OnDay(fired, i, id, day) && OnDay(fired, k, id, day) && i < k
    ensures false
  {
    var n := |fired| - 1;
    var days, front := DaysOf(fired, id), DaysOf(fired[..n], id);
    assert forall a :: 0 <= a < |front| ==> front[a] == days[a];
    if k < n {
      OneFiringPerDay(fired[..n], id, day, i, k);
    } else {
      LastIsNew(front, day);
      FiringHasDay(fired[..n], i, id, day);
    }
  }

  /** With ticks at most a minute apart a matching day sees exactly one firing, and that one asks for what the schedule
      named when the tick in its minute listed it. */
  lemma OneCallPerMatchingDay(lists: Lists, now: int, run: seq<Event>, id: string, day: int, t: Timing)
    requires WellFormed(lists) && Stored(lists, id) && Runs(FindSchedule(lists.schedules, id).value, t)
    requires FindSchedule(lists.schedules, id).value.lastRunDay != Some(day) && Matches(t, day)
    requires Exec(Start(lists, now), run).Some? && GentleRun(Start(lists, now), run, id) && TimingKept(run, id, t)
    requires Exec(Start(lists, now), run).value.Idle()
    requires var times := TickTimes(run);
             times != [] && CloseTicks(times) && times[0] < SlotStart(day, t) + 60 && SlotStart(day, t) <= times[|times| - 1]
    ensures var fired := Exec(Start(lists, now), run).value.fired;
            exists i: nat :: OnDay(fired, i, id, day) && Traced(Start(lists, now), run, fired[i])
                             && forall k: nat :: OnDay(fired, k, id, day) ==> k == i
  {
    hide Exec, GentleRun, Traced, WellFormed, Matches, CloseTicks, TimingKept, FindSchedule;
    ExactlyOncePerMatchingDay(lists, now, run, id, day, t);
    AtMostOncePerDay(lists, now, run, id);
    FiringsComeFromSchedules(Start(lists, now), run);
    var fired := Exec(Start(lists, now), run).value.fired;
    DayHasFiring(fired, id, day);
    var i: nat :| OnDay(fired, i, id, day);
    assert fired[i] in fired;
    forall k: nat | OnDay(fired, k, id, day) ensures k == i {
      if k < i { OneFiringPerDay(fired, id, day, k, i); }
      if i < k { OneFiringPerDay(fired, id, day, i, k); }
    }
  }
}
