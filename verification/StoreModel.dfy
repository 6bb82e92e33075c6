/** The store over whole runs of operations. */
module StoreModel {
  import opened Text
  import opened Config

  datatype Op =
    | PutDevice(d: Device, now: int, freshId: string)
    | DropDevice(id: string)
    | PutGroup(g: Group, now: int, freshId: string)
    | DropGroup(id: string)
    | PutSchedule(sc: Schedule, now: int, freshId: string)
    | DropSchedule(id: string)
    | MarkRun(id: string, day: int)

  function Step(l: Lists, op: Op): Lists {
    match op
    case PutDevice(d, now, freshId) =>
      var stored := StoredDevice(l.devices, d, now, freshId);
      if stored.Fail? then l else l.(devices := WithDevice(l.devices, d.id, stored.value))
    case DropDevice(id) =>
      if id in DeviceIds(l.devices) then
        l.(devices := WithoutDevice(l.devices, id), groups := DropMembers(l.groups, id))
      else l
    case PutGroup(g, now, freshId) =>
      var stored := StoredGroup(l.groups, g, now, freshId);
      if stored.Fail? then l else l.(groups := WithGroup(l.groups, g.id, stored.value))
    case DropGroup(id) => l.(groups := WithoutGroup(l.groups, id))
    case PutSchedule(sc, now, freshId) =>
      var stored := StoredSchedule(l.schedules, sc, now, freshId);
      if stored.Fail? then l else l.(schedules := WithSchedule(l.schedules, sc.id, stored.value))
    case DropSchedule(id) => l.(schedules := WithoutSchedule(l.schedules, id))
    case MarkRun(id, day) => l.(schedules := Marked(l.schedules, id, day))
  }

  function Run(l: Lists, ops: seq<Op>): Lists
    decreases |ops|
  {
    if ops == [] then l else Run(Step(l, ops[0]), ops[1..])
  }

  lemma {:induction false} RunMore(l: Lists, ops: seq<Op>, op: Op)
    ensures Run(l, ops + [op]) == Step(Run(l, ops), op)
    decreases |ops|
  {
    hide Step;
    if ops == [] {
      assert [op] + [] == [op] && ([op])[1..] == [];
      assert ops + [op] == [op];
      assert Run(Step(l, op), []) == Step(l, op);
    } else {
      assert (ops + [op])[1..] == ops[1..] + [op];
      RunMore(Step(l, ops[0]), ops[1..], op);
    }
  }

  // -- well-formedness --

  predicate Distinct(ids: seq<string>) {
    && (forall i :: 0 <= i < |ids| ==> ids[i] != "")
    && (forall i, j :: 0 <= i < j < |ids| ==> ids[i] != ids[j])
  }

  ghost predicate DevicesOk(ds: seq<Device>) {
    Distinct(DeviceIds(ds)) && forall i :: 0 <= i < |ds| ==> DeviceInRange(ds[i])
  }

  ghost predicate GroupsOk(gs: seq<Group>) {
    Distinct(GroupIds(gs))
  }

  ghost predicate SchedulesOk(ss: seq<Schedule>) {
    Distinct(ScheduleIds(ss)) && forall i :: 0 <= i < |ss| ==> ScheduleInRange(ss[i])
  }

  ghost predicate WellFormed(l: Lists) {
    DevicesOk(l.devices) && GroupsOk(l.groups) && SchedulesOk(l.schedules)
  }

  /** The random id of an insertion is not empty and not taken. */
  predicate FreshId(l: Lists, op: Op) {
    match op
    case PutDevice(d, now, freshId) => d.id == "" ==> freshId != "" && freshId !in DeviceIds(l.devices)
    case PutGroup(g, now, freshId) => g.id == "" ==> freshId != "" && freshId !in GroupIds(l.groups)
    case PutSchedule(sc, now, freshId) => sc.id == "" ==> freshId != "" && freshId !in ScheduleIds(l.schedules)
    case _ => true
  }

  predicate FreshAlong(l: Lists, ops: seq<Op>)
    decreases |ops|
  {
    ops == [] || (FreshId(l, ops[0]) && FreshAlong(Step(l, ops[0]), ops[1..]))
  }

  /** Filtering by a predicate keeps ids distinct; `idOf` reads the id of a record. */
  lemma {:induction false} FilterKeepsDistinct<T>(s: seq<T>, keep: T -> bool, ids: seq<string>, kept: seq<string>, idOf: T -> string)
    requires |ids| == |s| && forall i :: 0 <= i < |s| ==> ids[i] == idOf(s[i])
    requires |kept| == |Filter(s, keep)| && forall i :: 0 <= i < |kept| ==> kept[i] == idOf(Filter(s, keep)[i])
    requires Distinct(ids)
    ensures Distinct(kept)
  {
    hide Filter;
    if s != [] {
      var n := |s| - 1;
      var f := Filter(s[..n], keep);
      FilterNext(s, n, keep);
      assert s[..n + 1] == s;
      FilterKeepsDistinct(s[..n], keep, ids[..n], kept[..|f|], idOf);
      if keep(s[n]) {
        assert kept == kept[..|f|] + [ids[n]];
        forall i | 0 <= i < |f| ensures kept[i] != ids[n] {
          var j := KeptFrom(s[..n], keep, i);
          assert ids[j] != ids[n];
        }
      } else {
        assert kept == kept[..|f|];
      }
    }
  }

  /** Where a kept element comes from. */
  lemma {:induction false} KeptFrom<T>(s: seq<T>, keep: T -> bool, i: nat) returns (j: nat)
    requires i < |Filter(s, keep)|
    ensures j < |s| && s[j] == Filter(s, keep)[i] && keep(s[j])
  {
    j := |s| - 1;
    if i < |Filter(s[..j], keep)| { j := KeptFrom(s[..j], keep, i); }
  }

  lemma PutKeepsDistinct(ids: seq<string>, requested: string, id: string, after: seq<string>)
    requires Distinct(ids) && after == PutAt(ids, Slot(ids, requested), id)
    requires if Slot(ids, requested) < |ids| then id == requested else id != "" && id !in ids
    ensures Distinct(after)
  {
  }

  lemma PutDeviceOk(ds: seq<Device>, requested: string, d: Device)
    requires DevicesOk(ds) && DeviceInRange(d)
    requires if Slot(DeviceIds(ds), requested) < |ds| then d.id == requested else d.id != "" && d.id !in DeviceIds(ds)
    ensures DevicesOk(WithDevice(ds, requested, d))
  {
    hide NormalizeDevice, Trim;
    var ids, after := DeviceIds(ds), WithDevice(ds, requested, d);
    assert DeviceIds(after) == PutAt(ids, Slot(ids, requested), d.id);
    PutKeepsDistinct(ids, requested, d.id, DeviceIds(after));
  }

  lemma PutGroupOk(gs: seq<Group>, requested: string, g: Group)
    requires GroupsOk(gs)
    requires if Slot(GroupIds(gs), requested) < |gs| then g.id == requested else g.id != "" && g.id !in GroupIds(gs)
    ensures GroupsOk(WithGroup(gs, requested, g))
  {
    var ids, after := GroupIds(gs), WithGroup(gs, requested, g);
    assert GroupIds(after) == PutAt(ids, Slot(ids, requested), g.id);
    PutKeepsDistinct(ids, requested, g.id, GroupIds(after));
  }

  lemma PutScheduleOk(ss: seq<Schedule>, requested: string, sc: Schedule)
    requires SchedulesOk(ss) && ScheduleInRange(sc)
    requires if Slot(ScheduleIds(ss), requested) < |ss| then sc.id == requested else sc.id != "" && sc.id !in ScheduleIds(ss)
    ensures SchedulesOk(WithSchedule(ss, requested, sc))
  {
    var ids, after := ScheduleIds(ss), WithSchedule(ss, requested, sc);
    assert ScheduleIds(after) == PutAt(ids, Slot(ids, requested), sc.id);
    PutKeepsDistinct(ids, requested, sc.id, ScheduleIds(after));
  }

  lemma MarkOk(ss: seq<Schedule>, id: string, day: int)
    requires SchedulesOk(ss)
    ensures SchedulesOk(Marked(ss, id, day))
  {
    assert ScheduleIds(Marked(ss, id, day)) == ScheduleIds(ss);
  }

  lemma DropsOk(l: Lists, id: string)
    requires WellFormed(l)
    ensures DevicesOk(WithoutDevice(l.devices, id)) && GroupsOk(DropMembers(l.groups, id))
    ensures GroupsOk(WithoutGroup(l.groups, id)) && SchedulesOk(WithoutSchedule(l.schedules, id))
  {
    hide Filter, DeviceInRange, ScheduleInRange;
    var ds, gs, ss := WithoutDevice(l.devices, id), WithoutGroup(l.groups, id), WithoutSchedule(l.schedules, id);
    FilterKeepsDistinct(l.devices, OtherDevice(id), DeviceIds(l.devices), DeviceIds(ds), (d: Device) => d.id);
    FilterKeepsDistinct(l.groups, OtherGroup(id), GroupIds(l.groups), GroupIds(gs), (g: Group) => g.id);
    FilterKeepsDistinct(l.schedules, OtherSchedule(id), ScheduleIds(l.schedules), ScheduleIds(ss), (sc: Schedule) => sc.id);
    assert GroupIds(DropMembers(l.groups, id)) == GroupIds(l.groups);
    StaysInRange(l, id);
  }

  lemma StaysInRange(l: Lists, id: string)
    requires WellFormed(l)
    ensures var ds, ss := WithoutDevice(l.devices, id), WithoutSchedule(l.schedules, id);
            && (forall i :: 0 <= i < |ds| ==> DeviceInRange(ds[i])) && (forall i :: 0 <= i < |ss| ==> ScheduleInRange(ss[i]))
  {
    hide Filter, DeviceInRange, ScheduleInRange;
    var ds, ss := WithoutDevice(l.devices, id), WithoutSchedule(l.schedules, id);
    forall i | 0 <= i < |ds| ensures DeviceInRange(ds[i]) { var j := KeptFrom(l.devices, OtherDevice(id), i); }
    forall i | 0 <= i < |ss| ensures ScheduleInRange(ss[i]) { var j := KeptFrom(l.schedules, OtherSchedule(id), i); }
  }

  lemma PutOk(l: Lists, op: Op)
    requires WellFormed(l) && FreshId(l, op)
    ensures op.PutDevice? ==> DevicesOk(Step(l, op).devices)
    ensures op.PutGroup? ==> GroupsOk(Step(l, op).groups)
  {
    hide NormalizeDevice, Trim;
    match op
    case PutDevice(d, now, freshId) =>
      var stored := StoredDevice(l.devices, d, now, freshId);
      if stored.Done? { PutDeviceOk(l.devices, d.id, stored.value); }
    case PutGroup(g, now, freshId) =>
      var stored := StoredGroup(l.groups, g, now, freshId);
      if stored.Done? { PutGroupOk(l.groups, g.id, stored.value); }
    case _ =>
  }

  lemma PutScheduleStep(l: Lists, op: Op)
    requires WellFormed(l) && FreshId(l, op) && op.PutSchedule?
    ensures SchedulesOk(Step(l, op).schedules)
  {
    var stored := StoredSchedule(l.schedules, op.sc, op.now, op.freshId);
    if stored.Done? { PutScheduleOk(l.schedules, op.sc.id, stored.value); }
  }

  lemma StepOk(l: Lists, op: Op)
    requires WellFormed(l) && FreshId(l, op)
    ensures WellFormed(Step(l, op))
  {
    PutOk(l, op);
    if op.PutSchedule? { PutScheduleStep(l, op); }
    if op.MarkRun? { MarkOk(l.schedules, op.id, op.day); }
    if op.DropDevice? || op.DropGroup? || op.DropSchedule? { DropsOk(l, op.id); }
  }

  /** From a well-formed store, every run of operations with fresh random ids keeps ids unique and non-empty and the
      fields of devices and schedules in range. */
  lemma {:induction false} RunsStayWellFormed(l: Lists, ops: seq<Op>)
    requires WellFormed(l) && FreshAlong(l, ops)
    ensures WellFormed(Run(l, ops))
    decreases |ops|
  {
    if ops != [] {
      StepOk(l, ops[0]);
      RunsStayWellFormed(Step(l, ops[0]), ops[1..]);
    }
  }

  /** An insertion: an upsert without an id that the store accepts. */
  predicate Inserts(l: Lists, op: Op) {
    match op
    case PutDevice(d, now, freshId) => d.id == "" && StoredDevice(l.devices, d, now, freshId).Done?
    case PutGroup(g, now, freshId) => g.id == "" && StoredGroup(l.groups, g, now, freshId).Done?
    case PutSchedule(sc, now, freshId) => sc.id == "" && StoredSchedule(l.schedules, sc, now, freshId).Done?
    case _ => false
  }

  lemma AppendedDistinct(ids: seq<string>, id: string)
    requires Distinct(ids + [id])
    ensures id != "" && id !in ids
  {
    var more := ids + [id];
    assert more[|ids|] == id && forall i :: 0 <= i < |ids| ==> more[i] == ids[i];
  }

  lemma InsertedDevice(l: Lists, op: Op)
    requires op.PutDevice? && Inserts(l, op) && DevicesOk(Step(l, op).devices)
    ensures FreshId(l, op)
  {
    hide NormalizeDevice, Trim;
    assert DeviceIds(Step(l, op).devices) == DeviceIds(l.devices) + [op.freshId];
    AppendedDistinct(DeviceIds(l.devices), op.freshId);
  }

  lemma InsertedGroup(l: Lists, op: Op)
    requires op.PutGroup? && Inserts(l, op) && GroupsOk(Step(l, op).groups)
    ensures FreshId(l, op)
  {
    hide Trim;
    assert GroupIds(Step(l, op).groups) == GroupIds(l.groups) + [op.freshId];
    AppendedDistinct(GroupIds(l.groups), op.freshId);
  }

  lemma InsertedSchedule(l: Lists, op: Op)
    requires op.PutSchedule? && Inserts(l, op) && SchedulesOk(Step(l, op).schedules)
    ensures FreshId(l, op)
  {
    hide CheckedSchedule, Trim, Canonical;
    assert ScheduleIds(Step(l, op).schedules) == ScheduleIds(l.schedules) + [op.freshId];
    AppendedDistinct(ScheduleIds(l.schedules), op.freshId);
  }

  /** An accepted insertion of a device, a group or a schedule keeps the store well-formed exactly when its random id is
      fresh; the constant fallback id of a failed random source is not, from the second use on. */
  lemma InsertionNeedsFreshId(l: Lists, op: Op)
    requires WellFormed(l) && Inserts(l, op)
    ensures WellFormed(Step(l, op)) <==> FreshId(l, op)
  {
    hide Step, Inserts, DevicesOk, GroupsOk, SchedulesOk;
    if FreshId(l, op) { StepOk(l, op); }
    if WellFormed(Step(l, op)) { InsertedFresh(l, op); }
  }

  lemma InsertedFresh(l: Lists, op: Op)
    requires Inserts(l, op) && WellFormed(Step(l, op))
    ensures FreshId(l, op)
  {
    hide Step;
    if op.PutDevice? { InsertedDevice(l, op); }
    if op.PutGroup? { InsertedGroup(l, op); }
    if op.PutSchedule? { InsertedSchedule(l, op); }
  }

  /** Deleting a device removes exactly it, keeps the order of the others, and leaves no group mentioning it; a failed
      lookup changes nothing. */
  lemma DeviceGoneEverywhere(l: Lists, id: string)
    requires WellFormed(l)
    ensures var m := Step(l, DropDevice(id));
            && (id !in DeviceIds(l.devices) ==> m == l)
            && (id in DeviceIds(l.devices) ==>
                  && (exists i :: 0 <= i < |l.devices| && l.devices[i].id == id
                                  && m.devices == l.devices[..i] + l.devices[i + 1..])
                  && (forall k :: 0 <= k < |m.groups| ==> id !in m.groups[k].deviceIDs))
            && |m.groups| == |l.groups|
            && (forall k, x :: 0 <= k < |m.groups| && x in l.groups[k].deviceIDs && x != id ==> x in m.groups[k].deviceIDs)
  {
    var m := Step(l, DropDevice(id));
    if id in DeviceIds(l.devices) {
      var i := IndexOf(DeviceIds(l.devices), id);
      FilterOutOne(l.devices, i, OtherDevice(id));
      forall k | 0 <= k < |l.groups|
        ensures id !in m.groups[k].deviceIDs
        ensures forall x :: x in l.groups[k].deviceIDs && x != id ==> x in m.groups[k].deviceIDs
      {
        FilterMembers(l.groups[k].deviceIDs, OtherThan(id));
      }
    }
  }

  lemma {:induction false} FilterOutOne<T>(s: seq<T>, i: nat, keep: T -> bool)
    requires i < |s| && forall j :: 0 <= j < |s| ==> (keep(s[j]) <==> j != i)
    ensures Filter(s, keep) == s[..i] + s[i + 1..]
  {
    var n := |s| - 1;
    if i < n {
      FilterOutOne(s[..n], i, keep);
      assert s[..i] + s[i + 1..] == s[..n][..i] + s[..n][i + 1..] + [s[n]];
    } else {
      FilterMembers(s[..n], keep);
      assert s[..i] + s[i + 1..] == s[..n];
    }
  }
}
