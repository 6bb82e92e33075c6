/** The schedule runner: one tick over a copy of the stored schedules. */
module Schedule {
  import opened Text
  import opened Config
  import opened Slices
  import opened Store
  import opened ScheduleModel
  import opened ScheduleCalls

  method ContainsInt(list: seq<int>, v: int) returns (found: bool)
    ensures found <==> v in list
  {
    for i := 0 to |list|
      invariant v !in list[..i]
    {
      if list[i] == v { return true; }
    }
    return false;
  }

  /** What firing the listed schedules one after the other leaves in the store. */
  function MarkEach(ss: seq<Config.Schedule>, due: seq<Config.Schedule>, day: int): seq<Config.Schedule> {
    if due == [] then ss
    else
      var n := |due| - 1;
      Marked(MarkEach(ss, due[..n], day), due[n].id, day)
  }

  function Firings(due: seq<Config.Schedule>, day: int): (r: seq<Firing>)
    ensures |r| == |due|
  {
    seq(|due|, i requires 0 <= i < |due| => Firing(due[i].id, day, CallOf(due[i])))
  }

  /** Playing Fire and Mark for every listed schedule, as the transition system does, is what a tick does at once. */
  lemma {:induction false} TickIsFireAndMarkEach(s: State, done: nat)
    requires done <= |s.todo| && !s.marking
    ensures var due := s.todo[..done];
            Worked(s, done) == s.(lists := s.lists.(schedules := MarkEach(s.lists.schedules, due, s.Today())),
                                  todo := s.todo[done..], fired := s.fired + Firings(due, s.Today()))
  {
    hide Marked, IsDue, CallOf, Filter;
    if done == 0 {
      assert s.todo[0..] == s.todo && s.fired + [] == s.fired;
    } else {
      TickIsFireAndMarkEach(s, done - 1);
      var due := s.todo[..done];
      assert due[..done - 1] == s.todo[..done - 1];
      assert Firings(due, s.Today()) == Firings(s.todo[..done - 1], s.Today()) + [Firing(due[done - 1].id, s.Today(), CallOf(due[done - 1]))];
      assert s.todo[done - 1..][1..] == s.todo[done..];
      assert s.fired + Firings(due, s.Today()) ==
             s.fired + Firings(s.todo[..done - 1], s.Today()) + [Firing(due[done - 1].id, s.Today(), CallOf(due[done - 1]))];
    }
  }

  /** The transition system after firing and marking the first `done` schedules of the tick. */
  function Worked(s: State, done: nat): (r: State)
    requires done <= |s.todo| && !s.marking
    ensures r.todo == s.todo[done..] && !r.marking && r.now == s.now
  {
    if done == 0 then s
    else
      var r := Worked(s, done - 1);
      Apply(Apply(r, Fire), Mark)
  }

  class Runner {
    const store: ConfigStore
    /** What the actor was asked to do. */
    var fired: seq<Firing>

    constructor (store: ConfigStore)
      ensures this.store == store && fired == []
    {
      this.store := store;
      fired := [];
    }

    /** Asks the actor, then marks the schedule whatever the actor answered; the save of the mark may fail. */
    method Fire(sc: Config.Schedule, day: int, io: IO)
      requires store.Valid()
      modifies this, store`disk, store.schedules.arr
      ensures store.Valid()
      ensures store.Schedules() == Marked(old(store.Schedules()), sc.id, day)
      ensures fired == old(fired) + [Firing(sc.id, day, CallOf(sc))]
      ensures |fired| == |old(fired)| + 1 && AsksFor(fired[|fired| - 1].call, sc)
    {
      var call;
      if sc.groupID != "" {
        call := if sc.action == "wake" then WakeGroup(sc.groupID) else ShutdownGroup(sc.groupID);
      } else {
        call := if sc.action == "wake" then Wake(sc.deviceID) else Shutdown(sc.deviceID);
      }
      fired := fired + [Firing(sc.id, day, call)];
      var _ := store.MarkScheduleRun(sc.id, day, io);
    }

    /** The body of the tick's loop. */
    method Consider(sc: Config.Schedule, now: Reading, io: IO) returns (due: bool)
      requires store.Valid()
      modifies this, store`disk, store.schedules.arr
      ensures store.Valid() && (due <==> IsDue(sc, now))
      ensures store.Schedules() == if due then Marked(old(store.Schedules()), sc.id, now.day) else old(store.Schedules())
      ensures fired == if due then old(fired) + [Firing(sc.id, now.day, CallOf(sc))] else old(fired)
    {
      if !sc.enabled { return false; }
      if sc.lastRunDay == Some(now.day) { return false; }
      if sc.hour != now.hour || sc.minute != now.minute { return false; }
      if |sc.weekdays| > 0 {
        var found := ContainsInt(sc.weekdays, now.weekday);
        if !found { return false; }
      }
      Fire(sc, now.day, io);
      return true;
    }

    /** The tick's loop over its copy of the schedules. */
    method ConsiderEach(list: Slice<Config.Schedule>, now: Reading, io: IO)
      requires store.Valid() && list.Valid() && list.arr != store.schedules.arr
      modifies this, store`disk, store.schedules.arr
      ensures store.Valid()
      ensures store.Schedules() == MarkEach(old(store.Schedules()), Filter(list.Elems(), DueAt(now)), now.day)
      ensures fired == old(fired) + Firings(Filter(list.Elems(), DueAt(now)), now.day)
    {
      ghost var was, copy := store.Schedules(), list.Elems();
      NothingYet(was, copy, now);
      hide CellValues, MemberArrays, CellsSound, Filter, MarkEach, Firings, Marked, ReadClock, IsDue, CallOf, Left, Asked;
      for i := 0 to list.len
        invariant store.Valid() && list.Elems() == copy
        invariant store.Schedules() == Left(was, copy, i, now) && fired == old(fired) + Asked(copy, i, now)
      {
        var sc := list.arr[i];
        assert sc == copy[i];
        var _ := Consider(sc, now, io);
        TickMore(was, copy, i, now);
      }
      AllDone(was, copy, now);
    }

    method Tick(sec: int, io: IO)
      requires store.Valid()
      modifies this, store`disk, store.schedules.arr
      ensures store.Valid()
      ensures var due := Filter(old(store.Schedules()), DueAt(ReadClock(sec)));
              && store.Schedules() == MarkEach(old(store.Schedules()), due, ReadClock(sec).day)
              && fired == old(fired) + Firings(due, ReadClock(sec).day)
    {
      hide Filter, MarkEach, Firings, Marked, ReadClock, IsDue, CallOf;
      var now := ReadClock(sec);
      var list := store.ListSchedules();
      ConsiderEach(list, now, io);
    }
  }

  /** The store and the firings after the first i schedules of the copy. */
  function Left(was: seq<Config.Schedule>, list: seq<Config.Schedule>, i: nat, now: Reading): seq<Config.Schedule>
    requires i <= |list|
  {
    MarkEach(was, Filter(list[..i], DueAt(now)), now.day)
  }

  function Asked(list: seq<Config.Schedule>, i: nat, now: Reading): seq<Firing>
    requires i <= |list|
  {
    Firings(Filter(list[..i], DueAt(now)), now.day)
  }

  lemma NothingYet(was: seq<Config.Schedule>, list: seq<Config.Schedule>, now: Reading)
    ensures Left(was, list, 0, now) == was && Asked(list, 0, now) == []
  {
  }

  lemma AllDone(was: seq<Config.Schedule>, list: seq<Config.Schedule>, now: Reading)
    ensures Left(was, list, |list|, now) == MarkEach(was, Filter(list, DueAt(now)), now.day)
    ensures Asked(list, |list|, now) == Firings(Filter(list, DueAt(now)), now.day)
  {
    hide Filter, MarkEach, Firings;
    assert list[..|list|] == list;
  }

  /** What the next schedule of the list adds to a tick. */
  lemma TickMore(was: seq<Config.Schedule>, list: seq<Config.Schedule>, i: nat, now: Reading)
    requires i < |list|
    ensures if IsDue(list[i], now) then
              && Left(was, list, i + 1, now) == Marked(Left(was, list, i, now), list[i].id, now.day)
              && Asked(list, i + 1, now) == Asked(list, i, now) + [Firing(list[i].id, now.day, CallOf(list[i]))]
            else Left(was, list, i + 1, now) == Left(was, list, i, now) && Asked(list, i + 1, now) == Asked(list, i, now)
  {
    hide Filter, Marked, MarkEach, Firings, IsDue, CallOf;
    var done := Filter(list[..i], DueAt(now));
    FilterNext(list, i, DueAt(now));
    assert DueAt(now)(list[i]) <==> IsDue(list[i], now);
    assert done + [] == done;
    DueMore(was, done, list[i], now.day);
  }

  lemma DueMore(ss: seq<Config.Schedule>, due: seq<Config.Schedule>, sc: Config.Schedule, day: int)
    ensures MarkEach(ss, due + [sc], day) == Marked(MarkEach(ss, due, day), sc.id, day)
    ensures Firings(due + [sc], day) == Firings(due, day) + [Firing(sc.id, day, CallOf(sc))]
  {
    assert (due + [sc])[..|due|] == due;
  }
}
