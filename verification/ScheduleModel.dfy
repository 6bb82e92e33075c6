/** The schedule runner over whole runs: ticks at given seconds of a local clock, the firing of each due schedule,
    the mark in the store after it, and edits of the store by others between any two of these. */
module ScheduleModel {
  import opened Text
  import opened Config
  import opened StoreModel

  const DAY := 86400

  datatype Reading = Reading(day: int, weekday: int, hour: int, minute: int)

  /** Day 0 is a Thursday; Sunday is 0. */
  function ReadClock(sec: int): Reading {
    Reading(sec / DAY, (sec / DAY + 4) % 7, sec % DAY / 3600, sec % DAY % 3600 / 60)
  }

  predicate OnWeekday(sc: Schedule, weekday: int) {
    |sc.weekdays| > 0 ==> weekday in sc.weekdays
  }

  predicate IsDue(sc: Schedule, now: Reading) {
    sc.enabled && sc.lastRunDay != Some(now.day) && sc.hour == now.hour && sc.minute == now.minute && OnWeekday(sc, now.weekday)
  }

  function DueAt(now: Reading): Schedule -> bool {
    (sc: Schedule) => IsDue(sc, now)
  }

  /** What a schedule asks of the actor; a group target wins over a device. */
  datatype Call = Wake(id: string) | Shutdown(id: string) | WakeGroup(id: string) | ShutdownGroup(id: string)

  function CallOf(sc: Schedule): Call {
    if sc.groupID != "" then (if sc.action == "wake" then WakeGroup(sc.groupID) else ShutdownGroup(sc.groupID))
    else if sc.action == "wake" then Wake(sc.deviceID) else Shutdown(sc.deviceID)
  }

  datatype Firing = Firing(id: string, day: int, call: Call)

  /** `todo` is what is left of the current tick; `marking` when its head has fired but is not marked yet. */
  datatype State = State(lists: Lists, todo: seq<Schedule>, marking: bool, now: int, fired: seq<Firing>) {
    function Today(): int { ReadClock(now).day }
    predicate Idle() { todo == [] }
  }

  datatype Event = Tick(sec: int) | Fire | Mark | Edit(op: Op)

  predicate Enabled(s: State, e: Event) {
    match e
    case Tick(sec) => s.Idle() && s.now <= sec
    case Fire => !s.Idle() && !s.marking
    case Mark => !s.Idle() && s.marking
    case Edit(op) => !op.MarkRun? && FreshId(s.lists, op)
  }

  function Apply(s: State, e: Event): State
    requires Enabled(s, e)
  {
    match e
    case Tick(sec) => s.(todo := Filter(s.lists.schedules, DueAt(ReadClock(sec))), marking := false, now := sec)
    case Fire => s.(fired := s.fired + [Firing(s.todo[0].id, s.Today(), CallOf(s.todo[0]))], marking := true)
    case Mark =>
      s.(lists := Step(s.lists, MarkRun(s.todo[0].id, s.Today())), todo := s.todo[1..], marking := false)
    case Edit(op) => s.(lists := Step(s.lists, op))
  }

  function Start(lists: Lists, now: int): State {
    State(lists, [], false, now, [])
  }

  function Exec(start: State, run: seq<Event>): Option<State> {
    if run == [] then Some(start)
    else
      var n := |run| - 1;
      match Exec(start, run[..n])
      case None => None
      case Some(s) => if Enabled(s, run[n]) then Some(Apply(s, run[n])) else None
  }

  /** The days on which a schedule fired, in order. */
  function DaysOf(fired: seq<Firing>, id: string): seq<int> {
    if fired == [] then []
    else
      var n := |fired| - 1;
      DaysOf(fired[..n], id) + if fired[n].id == id then [fired[n].day] else []
  }

  predicate Increasing(days: seq<int>) {
    forall i, j :: 0 <= i < j < |days| ==> days[i] < days[j]
  }

  // -- what an edit may do to the schedule under study --

  /** It is not deleted, and an edit of it leaves `lastRunDay` empty or as stored. */
  predicate Gentle(ss: seq<Schedule>, op: Op, id: string) {
    match op
    case DropSchedule(x) => x != id
    case PutSchedule(sc, _, _) =>
      sc.id == id && FindSchedule(ss, id).Some? ==> sc.lastRunDay.None? || sc.lastRunDay == FindSchedule(ss, id).value.lastRunDay
    case _ => true
  }

  /** The timing of a schedule. */
  datatype Timing = Timing(hour: int, minute: int, weekdays: seq<int>)

  predicate Runs(sc: Schedule, t: Timing) {
    sc.enabled && sc.hour == t.hour && sc.minute == t.minute && sc.weekdays == t.weekdays
  }

  /** Moreover an edit keeps it enabled with the same timing. */
  predicate KeepsTiming(op: Op, id: string, t: Timing) {
    op.PutSchedule? && op.sc.id == id ==> Runs(op.sc, t)
  }

  // -- finding a record after a step --

  lemma FindIs(ss: seq<Schedule>, id: string, i: nat)
    requires i < |ss| && ss[i].id == id && forall j :: 0 <= j < i ==> ss[j].id != id
    ensures FindSchedule(ss, id) == Some(ss[i])
  {
    IndexIs(ScheduleIds(ss), id, i);
  }

  lemma FindAfterPut(ss: seq<Schedule>, requested: string, sc: Schedule, id: string)
    requires FindSchedule(ss, id).Some?
    requires Slot(ScheduleIds(ss), requested) < |ss| ==> sc.id == requested
    ensures FindSchedule(WithSchedule(ss, requested, sc), id) ==
            if requested == id && id != "" then Some(sc) else FindSchedule(ss, id)
  {
    var i := IndexOf(ScheduleIds(ss), id);
    FindIs(WithSchedule(ss, requested, sc), id, i);
  }

  lemma {:induction false} FindAfterDrop(ss: seq<Schedule>, other: string, id: string)
    requires other != id
    ensures FindSchedule(WithoutSchedule(ss, other), id) == FindSchedule(ss, id)
  {
    if ss != [] {
      var n := |ss| - 1;
      FindAfterDrop(ss[..n], other, id);
      FindInFront(ss, id);
      var front := WithoutSchedule(ss[..n], other);
      assert (front + [ss[n]])[..|front|] == front;
      FindInFront(front + [ss[n]], id);
      assert WithoutSchedule(ss, other) == if ss[n].id != other then front + [ss[n]] else front;
    }
  }

  lemma FindInFront(ss: seq<Schedule>, id: string)
    requires ss != []
    ensures var n := |ss| - 1;
            FindSchedule(ss, id) ==
            if FindSchedule(ss[..n], id).Some? then FindSchedule(ss[..n], id)
            else if ss[n].id == id then Some(ss[n]) else None
  {
    var n := |ss| - 1;
    var i := IndexOf(ScheduleIds(ss[..n]), id);
    assert forall j :: 0 <= j < n ==> ScheduleIds(ss[..n])[j] == ss[j].id;
    if i < n { FindIs(ss, id, i); }
    else if ss[n].id == id { FindIs(ss, id, n); }
    else { IndexIs(ScheduleIds(ss), id, |ss|); }
  }

  lemma FindAfterMark(ss: seq<Schedule>, marked: string, day: int, id: string)
    requires FindSchedule(ss, id).Some?
    ensures FindSchedule(Marked(ss, marked, day), id) ==
            if marked == id then Some(FindSchedule(ss, id).value.(lastRunDay := Some(day))) else FindSchedule(ss, id)
  {
    FindIs(Marked(ss, marked, day), id, IndexOf(ScheduleIds(ss), id));
  }

  lemma PutKeeps(ss: seq<Schedule>, sc: Schedule, now: int, freshId: string, id: string)
    requires FindSchedule(ss, id).Some? && id != "" && Gentle(ss, PutSchedule(sc, now, freshId), id)
    requires StoredSchedule(ss, sc, now, freshId).Done?
    ensures var after := FindSchedule(WithSchedule(ss, sc.id, StoredSchedule(ss, sc, now, freshId).value), id);
            && after.Some? && after.value.lastRunDay == FindSchedule(ss, id).value.lastRunDay
            && (forall t :: Runs(FindSchedule(ss, id).value, t) && InRange(t) && (sc.id == id ==> Runs(sc, t)) ==> Runs(after.value, t))
  {
    FindAfterPut(ss, sc.id, StoredSchedule(ss, sc, now, freshId).value, id);
  }

  /** A gentle edit keeps the schedule and the day it ran last; one that keeps the timing keeps that as well. */
  lemma EditKeeps(l: Lists, op: Op, id: string)
    requires FindSchedule(l.schedules, id).Some? && id != "" && !op.MarkRun? && Gentle(l.schedules, op, id)
    ensures var after := FindSchedule(Step(l, op).schedules, id);
            && after.Some? && after.value.lastRunDay == FindSchedule(l.schedules, id).value.lastRunDay
            && (forall t :: Runs(FindSchedule(l.schedules, id).value, t) && InRange(t) && KeepsTiming(op, id, t) ==> Runs(after.value, t))
  {
    if op.PutSchedule? {
      if StoredSchedule(l.schedules, op.sc, op.now, op.freshId).Done? {
        PutKeeps(l.schedules, op.sc, op.now, op.freshId, id);
      }
    } else if op.DropSchedule? {
      FindAfterDrop(l.schedules, op.id, id);
    } else {
      assert Step(l, op).schedules == l.schedules;
    }
  }

  predicate InRange(t: Timing) {
    0 <= t.hour <= 23 && 0 <= t.minute <= 59
  }

  // -- at most once --

  /** The last day of a non-empty list of days. */
  predicate EndsBefore(days: seq<int>, day: int) {
    days != [] ==> days[|days| - 1] < day
  }

  predicate Waiting(s: State, id: string, i: nat) {
    i < |s.todo| && s.todo[i].id == id
  }

  /** The stored day is the day it fired last, except between a firing and its mark; while it waits in the current
      tick, it has not fired today. */
  ghost predicate OnceInv(s: State, id: string) {
    && Distinct(ScheduleIds(s.lists.schedules))
    && Distinct(ScheduleIds(s.todo))
    && FindSchedule(s.lists.schedules, id).Some? && id != ""
    && (s.marking ==> s.todo != [])
    && var days := DaysOf(s.fired, id);
       && Increasing(days)
       && (days != [] ==> days[|days| - 1] <= s.Today())
       && (forall i: nat :: Waiting(s, id, i) && !(s.marking && i == 0) ==> EndsBefore(days, s.Today()))
       && (if s.marking && s.todo[0].id == id then days != [] && days[|days| - 1] == s.Today()
           else days != [] ==> FindSchedule(s.lists.schedules, id).value.lastRunDay == Some(days[|days| - 1]))
  }

  lemma DayMonotone(a: int, b: int)
    requires a <= b
    ensures ReadClock(a).day <= ReadClock(b).day
  {
  }

  lemma {:induction false} DueAreStored(ss: seq<Schedule>, now: Reading)
    requires Distinct(ScheduleIds(ss))
    ensures var due := Filter(ss, DueAt(now));
            && Distinct(ScheduleIds(due))
            && (forall i :: 0 <= i < |due| ==> IsDue(due[i], now) && FindSchedule(ss, due[i].id) == Some(due[i]))
  {
    var due := Filter(ss, DueAt(now));
    FilterKeepsDistinct(ss, DueAt(now), ScheduleIds(ss), ScheduleIds(due), (sc: Schedule) => sc.id);
    forall i | 0 <= i < |due|
      ensures IsDue(due[i], now) && FindSchedule(ss, due[i].id) == Some(due[i])
    {
      var j := KeptFrom(ss, DueAt(now), i);
      assert forall k :: 0 <= k < |ss| ==> ScheduleIds(ss)[k] == ss[k].id;
      FindIs(ss, due[i].id, j);
    }
  }

  lemma TickStep(s: State, sec: int, id: string)
    requires OnceInv(s, id) && Enabled(s, Tick(sec))
    ensures OnceInv(Apply(s, Tick(sec)), id)
  {
    DayMonotone(s.now, sec);
    DueAreStored(s.lists.schedules, ReadClock(sec));
  }

  lemma DaysMore(fired: seq<Firing>, f: Firing, id: string)
    ensures DaysOf(fired + [f], id) == DaysOf(fired, id) + if f.id == id then [f.day] else []
  {
    assert (fired + [f])[..|fired|] == fired;
  }

  lemma FireOwn(s: State, id: string)
    requires OnceInv(s, id) && Enabled(s, Fire) && s.todo[0].id == id
    ensures OnceInv(Apply(s, Fire), id)
  {
    hide Marked, Filter, ReadClock;
    var t := Apply(s, Fire);
    DaysMore(s.fired, t.fired[|s.fired|], id);
    assert Waiting(s, id, 0);
    assert ScheduleIds(s.todo)[0] == id;
    assert forall i :: 0 < i < |s.todo| ==> s.todo[i].id == ScheduleIds(s.todo)[i] != id;
  }

  lemma FireOther(s: State, id: string)
    requires OnceInv(s, id) && Enabled(s, Fire) && s.todo[0].id != id
    ensures OnceInv(Apply(s, Fire), id)
  {
    var t := Apply(s, Fire);
    DaysMore(s.fired, t.fired[|s.fired|], id);
    assert forall i: nat :: Waiting(t, id, i) ==> Waiting(s, id, i);
  }

  lemma MarkStep(s: State, id: string)
    requires OnceInv(s, id) && Enabled(s, Mark)
    ensures OnceInv(Apply(s, Mark), id)
  {
    hide Filter, ReadClock;
    var t := Apply(s, Mark);
    var ss := s.lists.schedules;
    FindAfterMark(ss, s.todo[0].id, s.Today(), id);
    assert ScheduleIds(t.lists.schedules) == ScheduleIds(ss);
    assert ScheduleIds(t.todo) == ScheduleIds(s.todo)[1..];
    assert forall i: nat :: Waiting(t, id, i) ==> Waiting(s, id, i + 1);
  }

  lemma EditStep(s: State, op: Op, id: string)
    requires OnceInv(s, id) && WellFormed(s.lists) && Enabled(s, Edit(op)) && Gentle(s.lists.schedules, op, id)
    ensures OnceInv(Apply(s, Edit(op)), id)
  {
    hide Filter, Marked, StoredSchedule, WithSchedule, WithoutSchedule;
    var t := Apply(s, Edit(op));
    EditKeeps(s.lists, op, id);
    StepOk(s.lists, op);
    assert forall i: nat :: Waiting(t, id, i) <==> Waiting(s, id, i);
  }

  lemma StaysWellFormed(s: State, e: Event)
    requires WellFormed(s.lists) && Enabled(s, e)
    ensures WellFormed(Apply(s, e).lists)
  {
    if e.Edit? { StepOk(s.lists, e.op); }
    if e.Mark? { StepOk(s.lists, MarkRun(s.todo[0].id, s.Today())); }
  }

  /** Every edit of the run is gentle on the schedule. */
  predicate GentleRun(start: State, run: seq<Event>, id: string) {
    run == [] ||
    var n := |run| - 1;
    && GentleRun(start, run[..n], id)
    && (run[n].Edit? && Exec(start, run[..n]).Some? ==>
          Gentle(Exec(start, run[..n]).value.lists.schedules, run[n].op, id))
  }

  predicate Stored(lists: Lists, id: string) {
    id != "" && FindSchedule(lists.schedules, id).Some?
  }

  lemma {:induction false} OnceReachable(lists: Lists, now: int, run: seq<Event>, id: string)
    requires WellFormed(lists) && Stored(lists, id)
    requires Exec(Start(lists, now), run).Some? && GentleRun(Start(lists, now), run, id)
    ensures OnceInv(Exec(Start(lists, now), run).value, id) && WellFormed(Exec(Start(lists, now), run).value.lists)
  {
    if run != [] {
      var n := |run| - 1;
      OnceReachable(lists, now, run[..n], id);
      var s := Exec(Start(lists, now), run[..n]).value;
      StaysWellFormed(s, run[n]);
      match run[n]
      case Tick(sec) => TickStep(s, sec, id);
      case Fire => if s.todo[0].id == id { FireOwn(s, id); } else { FireOther(s, id); }
      case Mark => MarkStep(s, id);
      case Edit(op) => EditStep(s, op, id);
    }
  }

  /** A schedule that is never deleted and whose `lastRunDay` nobody else rewrites fires at most once on any day,
      however often and whenever the runner ticks and whatever else is edited. */
  lemma AtMostOncePerDay(lists: Lists, now: int, run: seq<Event>, id: string)
    requires WellFormed(lists) && Stored(lists, id)
    requires Exec(Start(lists, now), run).Some? && GentleRun(Start(lists, now), run, id)
    ensures Increasing(DaysOf(Exec(Start(lists, now), run).value.fired, id))
  {
    OnceReachable(lists, now, run, id);
  }

  // -- exactly once --

  /** The minute of a timing on a day, in seconds. */
  function SlotStart(day: int, t: Timing): int {
    day * DAY + t.hour * 3600 + t.minute * 60
  }

  predicate InSlot(sec: int, day: int, t: Timing) {
    SlotStart(day, t) <= sec < SlotStart(day, t) + 60
  }

  predicate SlotTicked(run: seq<Event>, day: int, t: Timing) {
    exists j :: 0 <= j < |run| && run[j].Tick? && InSlot(run[j].sec, day, t)
  }

  lemma SlotIsReading(sec: int, day: int, t: Timing)
    requires InRange(t)
    ensures InSlot(sec, day, t) <==> ReadClock(sec).day == day && ReadClock(sec).hour == t.hour && ReadClock(sec).minute == t.minute
  {
    var d, rest := sec / DAY, sec % DAY;
    var h, rest' := rest / 3600, rest % 3600;
    var m, r := rest' / 60, rest' % 60;
    assert sec == d * DAY + h * 3600 + m * 60 + r && 0 <= r < 60 && 0 <= m < 60 && 0 <= h < 24;
    SlotUnique(d, h, m, r, day, t.hour, t.minute);
  }

  lemma SlotUnique(d: int, h: int, m: int, r: int, day: int, hour: int, minute: int)
    requires 0 <= r < 60 && 0 <= m < 60 && 0 <= h < 24 && 0 <= hour < 24 && 0 <= minute < 60
    ensures var start := day * DAY + hour * 3600 + minute * 60;
            start <= d * DAY + h * 3600 + m * 60 + r < start + 60 <==> d == day && h == hour && m == minute
  {
    var a, b := d * 1440 + h * 60 + m, day * 1440 + hour * 60 + minute;
    assert d * DAY + h * 3600 + m * 60 + r == 60 * a + r && day * DAY + hour * 3600 + minute * 60 == 60 * b;
    if a == b {
      assert (d - day) * 1440 == (hour - h) * 60 + (minute - m);
      assert d == day;
      assert h == hour;
    }
  }

  /** A schedule with this timing is due at a moment exactly when the moment lies in its minute on a matching day on
      which it has not run. */
  predicate Matches(t: Timing, day: int) {
    |t.weekdays| > 0 ==> (day + 4) % 7 in t.weekdays
  }

  predicate Served(s: State, id: string, day: int) {
    day in DaysOf(s.fired, id)
  }

  predicate InTodo(s: State, id: string) {
    exists i :: 0 <= i < |s.todo| && Waiting(s, id, i)
  }

  ghost predicate ServeInv(s: State, run: seq<Event>, id: string, day: int, t: Timing) {
    && FindSchedule(s.lists.schedules, id).Some? && Runs(FindSchedule(s.lists.schedules, id).value, t)
    && (s.todo != [] ==> Tick(s.now) in run)
    && (forall i: nat :: Waiting(s, id, i) ==> Runs(s.todo[i], t) && IsDue(s.todo[i], ReadClock(s.now)))
    && (FindSchedule(s.lists.schedules, id).value.lastRunDay == Some(day) ==> Served(s, id, day))
    && (Served(s, id, day) ==> SlotTicked(run, day, t))
    && (SlotTicked(run, day, t) ==> Served(s, id, day) || (s.Today() == day && InTodo(s, id)))
  }

  lemma SlotTickedMore(run: seq<Event>, e: Event, day: int, t: Timing)
    ensures SlotTicked(run + [e], day, t) <==> SlotTicked(run, day, t) || (e.Tick? && InSlot(e.sec, day, t))
  {
    var more := run + [e];
    assert more[|run|] == e && forall j :: 0 <= j < |run| ==> more[j] == run[j];
  }

  /** A tick in the minute lists the schedule unless it has run that day. */
  lemma TickLists(s: State, sec: int, id: string, day: int, t: Timing)
    requires Distinct(ScheduleIds(s.lists.schedules)) && Enabled(s, Tick(sec)) && InRange(t) && Matches(t, day)
    requires FindSchedule(s.lists.schedules, id).Some? && Runs(FindSchedule(s.lists.schedules, id).value, t)
    requires FindSchedule(s.lists.schedules, id).value.lastRunDay != Some(day) && InSlot(sec, day, t)
    ensures InTodo(Apply(s, Tick(sec)), id)
  {
    var ss, now := s.lists.schedules, ReadClock(sec);
    SlotIsReading(sec, day, t);
    FilterMembers(ss, DueAt(now));
    var x := FindSchedule(ss, id).value;
    assert x in ss && DueAt(now)(x);
    var todo := Filter(ss, DueAt(now));
    var i :| 0 <= i < |todo| && todo[i] == x;
    assert Waiting(Apply(s, Tick(sec)), id, i) by {
      assert FindSchedule(ss, id).value.id == id;
    }
  }

  lemma ServeTick(s: State, run: seq<Event>, sec: int, id: string, day: int, t: Timing)
    requires OnceInv(s, id) && ServeInv(s, run, id, day, t) && Enabled(s, Tick(sec)) && InRange(t) && Matches(t, day)
    ensures ServeInv(Apply(s, Tick(sec)), run + [Tick(sec)], id, day, t)
  {
    SlotTickedMore(run, Tick(sec), day, t);
    DueAreStored(s.lists.schedules, ReadClock(sec));
    if InSlot(sec, day, t) {
      SlotIsReading(sec, day, t);
      if FindSchedule(s.lists.schedules, id).value.lastRunDay != Some(day) {
        TickLists(s, sec, id, day, t);
      }
    }
    assert (run + [Tick(sec)])[|run|] == Tick(sec);
    assert !InTodo(s, id);
  }

  /** A schedule that is about to fire was listed by a tick in its minute. */
  lemma FiringWasTicked(s: State, run: seq<Event>, id: string, day: int, t: Timing)
    requires ServeInv(s, run, id, day, t) && Enabled(s, Fire) && InRange(t)
    ensures s.todo[0].id == id && s.Today() == day ==> SlotTicked(run, day, t)
  {
    if s.todo[0].id == id {
      assert Waiting(s, id, 0);
      SlotIsReading(s.now, s.Today(), t);
    }
  }

  lemma ServeFire(s: State, run: seq<Event>, id: string, day: int, t: Timing)
    requires OnceInv(s, id) && ServeInv(s, run, id, day, t) && Enabled(s, Fire) && InRange(t)
    ensures ServeInv(Apply(s, Fire), run + [Fire], id, day, t)
  {
    hide OnceInv, Marked, Filter, ReadClock, IsDue, SlotTicked, FindSchedule, CallOf, InRange;
    var u := Apply(s, Fire);
    FiringWasTicked(s, run, id, day, t);
    SlotTickedMore(run, Fire, day, t);
    DaysMore(s.fired, u.fired[|s.fired|], id);
    assert Served(u, id, day) <==> Served(s, id, day) || (s.todo[0].id == id && s.Today() == day);
    assert forall i: nat :: Waiting(u, id, i) <==> Waiting(s, id, i);
    assert InTodo(u, id) <==> InTodo(s, id);
  }

  lemma ServeMark(s: State, run: seq<Event>, id: string, day: int, t: Timing)
    requires OnceInv(s, id) && ServeInv(s, run, id, day, t) && Enabled(s, Mark)
    ensures ServeInv(Apply(s, Mark), run + [Mark], id, day, t)
  {
    hide Filter, ReadClock, IsDue, SlotTicked, Marked, FindSchedule;
    var u := Apply(s, Mark);
    SlotTickedMore(run, Mark, day, t);
    FindAfterMark(s.lists.schedules, s.todo[0].id, s.Today(), id);
    assert forall i: nat :: Waiting(u, id, i) <==> Waiting(s, id, i + 1);
    if InTodo(s, id) && s.todo[0].id != id {
      var i :| 0 <= i < |s.todo| && Waiting(s, id, i);
      assert Waiting(u, id, i - 1);
    }
  }

  lemma ServeEdit(s: State, run: seq<Event>, op: Op, id: string, day: int, t: Timing)
    requires OnceInv(s, id) && ServeInv(s, run, id, day, t) && Enabled(s, Edit(op)) && InRange(t)
    requires Gentle(s.lists.schedules, op, id) && KeepsTiming(op, id, t)
    ensures ServeInv(Apply(s, Edit(op)), run + [Edit(op)], id, day, t)
  {
    var u := Apply(s, Edit(op));
    SlotTickedMore(run, Edit(op), day, t);
    EditKeeps(s.lists, op, id);
    assert forall i: nat :: Waiting(u, id, i) <==> Waiting(s, id, i);
  }

  predicate TimingKept(run: seq<Event>, id: string, t: Timing) {
    forall j :: 0 <= j < |run| && run[j].Edit? ==> KeepsTiming(run[j].op, id, t)
  }

  lemma {:induction false} ServeReachable(lists: Lists, now: int, run: seq<Event>, id: string, day: int, t: Timing)
    requires WellFormed(lists) && Stored(lists, id) && Runs(FindSchedule(lists.schedules, id).value, t)
    requires FindSchedule(lists.schedules, id).value.lastRunDay != Some(day) && InRange(t) && Matches(t, day)
    requires Exec(Start(lists, now), run).Some? && GentleRun(Start(lists, now), run, id) && TimingKept(run, id, t)
    ensures ServeInv(Exec(Start(lists, now), run).value, run, id, day, t)
  {
    if run != [] {
      hide ServeInv, OnceInv, FindSchedule, Runs, InRange;
      var n := |run| - 1;
      assert run == run[..n] + [run[n]];
      ServeReachable(lists, now, run[..n], id, day, t);
      OnceReachable(lists, now, run[..n], id);
      var s := Exec(Start(lists, now), run[..n]).value;
      match run[n]
      case Tick(sec) => ServeTick(s, run[..n], sec, id, day, t);
      case Fire => ServeFire(s, run[..n], id, day, t);
      case Mark => ServeMark(s, run[..n], id, day, t);
      case Edit(op) => ServeEdit(s, run[..n], op, id, day, t);
    }
  }

  /** With its timing left alone, a schedule that has not run on a matching day fires on it exactly when the runner
      ticks within its minute; the runner is between ticks at the end of the run. */
  lemma FiresIffTicked(lists: Lists, now: int, run: seq<Event>, id: string, day: int, t: Timing)
    requires WellFormed(lists) && Stored(lists, id) && Runs(FindSchedule(lists.schedules, id).value, t)
    requires FindSchedule(lists.schedules, id).value.lastRunDay != Some(day) && Matches(t, day)
    requires Exec(Start(lists, now), run).Some? && GentleRun(Start(lists, now), run, id) && TimingKept(run, id, t)
    requires Exec(Start(lists, now), run).value.Idle()
    ensures day in DaysOf(Exec(Start(lists, now), run).value.fired, id) <==> SlotTicked(run, day, t)
  {
    TimingInRange(lists, id, t);
    ServeReachable(lists, now, run, id, day, t);
  }

  lemma TimingInRange(lists: Lists, id: string, t: Timing)
    requires WellFormed(lists) && Stored(lists, id) && Runs(FindSchedule(lists.schedules, id).value, t)
    ensures InRange(t)
  {
    assert ScheduleInRange(FindSchedule(lists.schedules, id).value);
  }

  /** The seconds of the ticks of a run. */
  function TickTimes(run: seq<Event>): seq<int> {
    if run == [] then []
    else
      var n := |run| - 1;
      TickTimes(run[..n]) + if run[n].Tick? then [run[n].sec] else []
  }

  predicate CloseTicks(times: seq<int>) {
    forall i :: 0 < i < |times| ==> times[i] <= times[i - 1] + 60
  }

  lemma {:induction false} TimesAreTicks(run: seq<Event>, i: nat)
    requires i < |TickTimes(run)|
    ensures exists j :: 0 <= j < |run| && run[j].Tick? && run[j].sec == TickTimes(run)[i]
  {
    var n := |run| - 1;
    if i < |TickTimes(run[..n])| {
      TimesAreTicks(run[..n], i);
      var j :| 0 <= j < n && run[..n][j].Tick? && run[..n][j].sec == TickTimes(run[..n])[i];
      assert run[j].sec == TickTimes(run)[i];
    } else {
      assert run[n].sec == TickTimes(run)[i];
    }
  }

  /** Ticks at most a minute apart that reach from before the end of a minute into or past it hit that minute. */
  lemma {:induction false} CloseTicksHit(times: seq<int>, start: int) returns (i: nat)
    requires times != [] && CloseTicks(times) && times[0] < start + 60 && start <= times[|times| - 1]
    ensures i < |times| && start <= times[i] < start + 60
  {
    var n := |times| - 1;
    if times[n] < start + 60 {
      i := n;
    } else {
      i := CloseTicksHit(times[..n], start);
    }
  }

  /** The promise: with ticks at most a minute apart, each matching day sees the schedule fire exactly once. */
  lemma ExactlyOncePerMatchingDay(lists: Lists, now: int, run: seq<Event>, id: string, day: int, t: Timing)
    requires WellFormed(lists) && Stored(lists, id) && Runs(FindSchedule(lists.schedules, id).value, t)
    requires FindSchedule(lists.schedules, id).value.lastRunDay != Some(day) && Matches(t, day)
    requires Exec(Start(lists, now), run).Some? && GentleRun(Start(lists, now), run, id) && TimingKept(run, id, t)
    requires Exec(Start(lists, now), run).value.Idle()
    requires var times := TickTimes(run);
             times != [] && CloseTicks(times) && times[0] < SlotStart(day, t) + 60 && SlotStart(day, t) <= times[|times| - 1]
    ensures multiset(DaysOf(Exec(Start(lists, now), run).value.fired, id))[day] == 1
  {
    var days := DaysOf(Exec(Start(lists, now), run).value.fired, id);
    var i := CloseTicksHit(TickTimes(run), SlotStart(day, t));
    TimesAreTicks(run, i);
    FiresIffTicked(lists, now, run, id, day, t);
    AtMostOncePerDay(lists, now, run, id);
    IncreasingCount(days, day);
  }

  lemma {:induction false} IncreasingCount(days: seq<int>, day: int)
    requires Increasing(days)
    ensures multiset(days)[day] == if day in days then 1 else 0
  {
    if days != [] {
      var n := |days| - 1;
      IncreasingCount(days[..n], day);
      assert days == days[..n] + [days[n]];
      assert forall i :: 0 <= i < n ==> days[i] < days[n];
    }
  }
}
