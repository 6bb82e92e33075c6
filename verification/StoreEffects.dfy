/** What each store operation leaves behind, field by field and after any run of operations before it. */
module StoreEffects {
  import opened Text
  import opened Config
  import opened StoreModel

  // -- where a record goes --

  /** The first record with the requested id, or the end. */
  predicate SlotFor(ids: seq<string>, requested: string, i: nat) {
    && i <= |ids|
    && (if i < |ids| then requested != "" && ids[i] == requested else requested == "" || requested !in ids)
    && forall j :: 0 <= j < i ==> requested == "" || ids[j] != requested
  }

  /** The record replaces the one in its slot, or is appended; the others stay where they are. */
  predicate Placed<T(==)>(before: seq<T>, after: seq<T>, i: nat, n: T) {
    i <= |before| && after == if i < |before| then before[..i] + [n] + before[i + 1..] else before + [n]
  }

  function There<T>(s: seq<T>, i: nat): Option<T> {
    if i < |s| then Some(s[i]) else None
  }

  lemma PutIsPlaced<T>(s: seq<T>, i: nat, n: T)
    requires i <= |s|
    ensures Placed(s, PutAt(s, i, n), i, n)
  {
    if i < |s| { assert s[i := n] == s[..i] + [n] + s[i + 1..]; }
  }

  lemma SlotIs(ids: seq<string>, requested: string)
    ensures SlotFor(ids, requested, Slot(ids, requested))
  {
    hide IndexOf;
  }

  function IdFor(requested: string, freshId: string): string {
    if requested == "" then freshId else requested
  }

  // -- schedules --

  predicate ScheduleComplete(sc: Schedule) {
    && !Blank(sc.name) && (Canonical(sc.action) == "wake" || Canonical(sc.action) == "shutdown")
    && (sc.deviceID != "" || sc.groupID != "")
  }

  /** Schedule n is what the request sc becomes where `was` stood. */
  predicate ScheduleWritten(n: Schedule, sc: Schedule, was: Option<Schedule>, now: int, freshId: string) {
    && n.id == IdFor(sc.id, freshId)
    && n.name == Trim(sc.name) && n.action == Canonical(sc.action)
    && n.deviceID == sc.deviceID && n.groupID == sc.groupID
    && n.enabled == sc.enabled && n.weekdays == sc.weekdays
    && n.hour == (if 0 <= sc.hour <= 23 then sc.hour else 0)
    && n.minute == (if 0 <= sc.minute <= 59 then sc.minute else 0)
    && n.lastRunDay == (if sc.lastRunDay.None? && was.Some? then was.value.lastRunDay else sc.lastRunDay)
    && n.createdAt == (if was.Some? then was.value.createdAt else now) && n.updatedAt == now
  }

  ghost predicate ScheduleUpserted(before: seq<Schedule>, after: seq<Schedule>, sc: Schedule, now: int, freshId: string) {
    exists i: nat, n :: SlotFor(ScheduleIds(before), sc.id, i) && Placed(before, after, i, n)
                        && ScheduleWritten(n, sc, There(before, i), now, freshId)
  }

  lemma CheckedIs(sc: Schedule)
    ensures CheckedSchedule(sc).Done? <==> ScheduleComplete(sc)
    ensures CheckedSchedule(sc).Done? ==>
              var r := CheckedSchedule(sc).value;
              && r.name == Trim(sc.name) && r.action == Canonical(sc.action) && r.deviceID == sc.deviceID && r.groupID == sc.groupID
              && r.hour == (if 0 <= sc.hour <= 23 then sc.hour else 0) && r.minute == (if 0 <= sc.minute <= 59 then sc.minute else 0)
              && r.id == sc.id && r.enabled == sc.enabled && r.weekdays == sc.weekdays && r.lastRunDay == sc.lastRunDay
              && r.createdAt == sc.createdAt && r.updatedAt == sc.updatedAt
  {
    hide Trim, Canonical, Blank;
    TrimBlank(sc.name);
  }

  /** Why a schedule is refused. */
  lemma ScheduleFaults(ss: seq<Schedule>, sc: Schedule, now: int, freshId: string)
    ensures var r := StoredSchedule(ss, sc, now, freshId);
            && (r.Done? <==> ScheduleComplete(sc)) && r != Fail(SaveFailed)
            && (r == Fail(NameRequired) <==> Blank(sc.name))
            && (r == Fail(BadAction) <==> !Blank(sc.name) && Canonical(sc.action) != "wake" && Canonical(sc.action) != "shutdown")
            && (r == Fail(TargetRequired) <==>
                  && !Blank(sc.name) && (Canonical(sc.action) == "wake" || Canonical(sc.action) == "shutdown")
                  && sc.deviceID == "" && sc.groupID == "")
  {
    hide Trim, Canonical, Blank;
    TrimBlank(sc.name);
  }

  lemma ScheduleStored(ss: seq<Schedule>, sc: Schedule, now: int, freshId: string)
    requires ScheduleComplete(sc)
    ensures StoredSchedule(ss, sc, now, freshId).Done?
    ensures ScheduleUpserted(ss, WithSchedule(ss, sc.id, StoredSchedule(ss, sc, now, freshId).value), sc, now, freshId)
  {
    hide Trim, Canonical, Blank, CheckedSchedule, IndexOf;
    CheckedIs(sc);
    var i := Slot(ScheduleIds(ss), sc.id);
    var n := StoredSchedule(ss, sc, now, freshId).value;
    SlotIs(ScheduleIds(ss), sc.id);
    PutIsPlaced(ss, i, n);
    assert ScheduleWritten(n, sc, There(ss, i), now, freshId);
  }

  /** After any run, an upsert of a schedule is accepted exactly when it has a name, an action the runner knows and a
      target; it then stores what was asked for, in the slot of the requested id, and changes nothing else. */
  lemma UpsertSchedule(l: Lists, ops: seq<Op>, sc: Schedule, now: int, freshId: string)
    ensures var before, after := Run(l, ops), Run(l, ops + [PutSchedule(sc, now, freshId)]);
            && after.devices == before.devices && after.groups == before.groups
            && if ScheduleComplete(sc) then ScheduleUpserted(before.schedules, after.schedules, sc, now, freshId)
               else after.schedules == before.schedules
  {
    hide Run, ScheduleUpserted, ScheduleComplete, StoredSchedule;
    RunMore(l, ops, PutSchedule(sc, now, freshId));
    ScheduleFaults(Run(l, ops).schedules, sc, now, freshId);
    if ScheduleComplete(sc) { ScheduleStored(Run(l, ops).schedules, sc, now, freshId); }
  }

  /** Found under its id, unless it was inserted under an id that was taken. */
  lemma UpsertedIsFound(before: seq<Schedule>, after: seq<Schedule>, sc: Schedule, now: int, freshId: string)
    requires ScheduleUpserted(before, after, sc, now, freshId) && (sc.id == "" ==> freshId !in ScheduleIds(before))
    ensures var found := FindSchedule(after, IdFor(sc.id, freshId));
            found.Some? && ScheduleWritten(found.value, sc, if sc.id == "" then None else FindSchedule(before, sc.id), now, freshId)
  {
    hide Trim, Canonical;
    var i: nat, n :| SlotFor(ScheduleIds(before), sc.id, i) && Placed(before, after, i, n)
                     && ScheduleWritten(n, sc, There(before, i), now, freshId);
    assert after[i] == n && forall j :: 0 <= j < i ==> after[j] == before[j] && ScheduleIds(before)[j] == before[j].id;
    IndexIs(ScheduleIds(after), IdFor(sc.id, freshId), i);
    if sc.id != "" { IndexIs(ScheduleIds(before), sc.id, i); }
  }

  // -- devices --

  predicate DeviceComplete(d: Device) { d.name != "" && d.mac != "" }

  /** The probe method in lower case and without outer white space, "off" for a blank one. */
  function MethodOf(d: Device): string {
    if Blank(d.probeMethod) then "off" else Canonical(d.probeMethod)
  }

  predicate DeviceWritten(n: Device, d: Device, was: Option<Device>, now: int, freshId: string) {
    && n.id == IdFor(d.id, freshId) && n.name == d.name && n.mac == d.mac && n.broadcast == d.broadcast
    && n.port == (if 1 <= d.port <= 65535 then d.port else 9)
    && n.repeats == (if 1 <= d.repeats <= 20 then d.repeats else 3)
    && n.bemfaEnable == d.bemfaEnable && n.bemfaTopic == d.bemfaTopic && n.bemfaName == d.bemfaName
    && n.boundClientKey == d.boundClientKey && n.preferredNIC == d.preferredNIC
    && n.probeMethod == MethodOf(d) && n.probeHost == d.probeHost
    && n.probePort == (if n.probeMethod == "tcp" && !(1 <= d.probePort <= 65535) then 3389 else d.probePort)
    && n.probeInterval == (if d.probeInterval <= 0 then 60 else if d.probeInterval < 15 then 15 else d.probeInterval)
    && n.createdAt == (if was.Some? && was.value.createdAt != 0 then was.value.createdAt else now) && n.updatedAt == now
  }

  ghost predicate DeviceUpserted(before: seq<Device>, after: seq<Device>, d: Device, now: int, freshId: string) {
    exists i: nat, n :: SlotFor(DeviceIds(before), d.id, i) && Placed(before, after, i, n)
                        && DeviceWritten(n, d, There(before, i), now, freshId)
  }

  lemma MethodIs(d: Device)
    ensures ProbeMethod(d.probeMethod) == MethodOf(d)
  {
    hide Trim, Blank;
    TrimBlank(d.probeMethod);
    assert Canonical(d.probeMethod) == "" <==> Trim(d.probeMethod) == "";
  }

  lemma StoredDeviceIs(ds: seq<Device>, d: Device, now: int, freshId: string)
    requires DeviceComplete(d)
    ensures var r := StoredDevice(ds, d, now, freshId);
            r.Done? && DeviceWritten(r.value, d, There(ds, Slot(DeviceIds(ds), d.id)), now, freshId)
  {
    hide Trim, Canonical, Blank, ProbeMethod, MethodOf, IndexOf;
    MethodIs(d);
  }

  lemma DeviceStored(ds: seq<Device>, d: Device, now: int, freshId: string)
    requires DeviceComplete(d)
    ensures StoredDevice(ds, d, now, freshId).Done?
    ensures DeviceUpserted(ds, WithDevice(ds, d.id, StoredDevice(ds, d, now, freshId).value), d, now, freshId)
  {
    hide NormalizeDevice, DeviceWritten, IndexOf;
    StoredDeviceIs(ds, d, now, freshId);
    SlotIs(DeviceIds(ds), d.id);
    PutIsPlaced(ds, Slot(DeviceIds(ds), d.id), StoredDevice(ds, d, now, freshId).value);
  }

  lemma DeviceFaults(ds: seq<Device>, d: Device, now: int, freshId: string)
    ensures var r := StoredDevice(ds, d, now, freshId);
            && (r.Done? <==> DeviceComplete(d))
            && (r == Fail(NameRequired) <==> d.name == "") && (r == Fail(MacRequired) <==> d.name != "" && d.mac == "")
  {
    hide NormalizeDevice;
  }

  /** After any run, an upsert of a device is accepted exactly when it has a name and a MAC. */
  lemma UpsertDevice(l: Lists, ops: seq<Op>, d: Device, now: int, freshId: string)
    ensures var before, after := Run(l, ops), Run(l, ops + [PutDevice(d, now, freshId)]);
            && after.schedules == before.schedules && after.groups == before.groups
            && if DeviceComplete(d) then DeviceUpserted(before.devices, after.devices, d, now, freshId)
               else after.devices == before.devices
  {
    hide Run, NormalizeDevice, DeviceUpserted, WithDevice;
    RunMore(l, ops, PutDevice(d, now, freshId));
    if DeviceComplete(d) { DeviceStored(Run(l, ops).devices, d, now, freshId); }
  }

  // -- groups --

  predicate GroupWritten(n: Group, g: Group, was: Option<Group>, now: int, freshId: string) {
    && n.id == IdFor(g.id, freshId) && n.name == Trim(g.name) && n.deviceIDs == g.deviceIDs
    && n.createdAt == (if was.Some? then was.value.createdAt else now) && n.updatedAt == now
  }

  ghost predicate GroupUpserted(before: seq<Group>, after: seq<Group>, g: Group, now: int, freshId: string) {
    exists i: nat, n :: SlotFor(GroupIds(before), g.id, i) && Placed(before, after, i, n)
                        && GroupWritten(n, g, There(before, i), now, freshId)
  }

  lemma GroupStored(gs: seq<Group>, g: Group, now: int, freshId: string)
    ensures StoredGroup(gs, g, now, freshId).Done? <==> !Blank(g.name)
    ensures !Blank(g.name) ==> GroupUpserted(gs, WithGroup(gs, g.id, StoredGroup(gs, g, now, freshId).value), g, now, freshId)
  {
    hide Trim, Blank, IndexOf;
    TrimBlank(g.name);
    var stored := StoredGroup(gs, g, now, freshId);
    if stored.Done? {
      var i := Slot(GroupIds(gs), g.id);
      SlotIs(GroupIds(gs), g.id);
      PutIsPlaced(gs, i, stored.value);
      assert GroupWritten(stored.value, g, There(gs, i), now, freshId);
    }
  }

  /** And of a group exactly when it has a name. */
  lemma UpsertGroup(l: Lists, ops: seq<Op>, g: Group, now: int, freshId: string)
    ensures var before, after := Run(l, ops), Run(l, ops + [PutGroup(g, now, freshId)]);
            && after.schedules == before.schedules && after.devices == before.devices
            && if !Blank(g.name) then GroupUpserted(before.groups, after.groups, g, now, freshId)
               else after.groups == before.groups
  {
    hide Run, Blank, GroupUpserted, WithGroup, StoredGroup;
    RunMore(l, ops, PutGroup(g, now, freshId));
    GroupStored(Run(l, ops).groups, g, now, freshId);
  }

  // -- deletes and marks --

  /** Exactly the record with the id is gone. */
  ghost predicate Dropped<T(!new)>(before: seq<T>, after: seq<T>, ids: seq<string>, id: string)
    requires |ids| == |before|
  {
    if id in ids then exists i :: 0 <= i < |ids| && ids[i] == id && after == before[..i] + before[i + 1..]
    else after == before
  }

  lemma FilterDrops<T(!new)>(s: seq<T>, keep: T -> bool, ids: seq<string>, id: string)
    requires |ids| == |s| && Distinct(ids) && forall i :: 0 <= i < |s| ==> (keep(s[i]) <==> ids[i] != id)
    ensures Dropped(s, Filter(s, keep), ids, id)
  {
    FilterIds(s, keep, ids, id);
    if id in ids {
      var i :| 0 <= i < |ids| && ids[i] == id;
      FilterOutOne(s, i, keep);
    }
  }

  /** Deleting a group or a schedule removes exactly it. */
  lemma DropsOne(l: Lists, id: string)
    requires WellFormed(l)
    ensures Dropped(l.groups, Step(l, DropGroup(id)).groups, GroupIds(l.groups), id)
    ensures Dropped(l.schedules, Step(l, DropSchedule(id)).schedules, ScheduleIds(l.schedules), id)
    ensures Step(l, DropGroup(id)) == l.(groups := Step(l, DropGroup(id)).groups)
    ensures Step(l, DropSchedule(id)) == l.(schedules := Step(l, DropSchedule(id)).schedules)
  {
    hide Filter;
    FilterDrops(l.groups, OtherGroup(id), GroupIds(l.groups), id);
    FilterDrops(l.schedules, OtherSchedule(id), ScheduleIds(l.schedules), id);
  }

  /** A mark writes the day into the first schedule with the id and nothing else. */
  lemma MarksOne(l: Lists, id: string, day: int)
    ensures var after := Step(l, MarkRun(id, day));
            && after == l.(schedules := after.schedules)
            && if id in ScheduleIds(l.schedules) then
                 exists i :: 0 <= i < |l.schedules| && l.schedules[i].id == id && (forall j :: 0 <= j < i ==> l.schedules[j].id != id)
                             && after.schedules == l.schedules[i := l.schedules[i].(lastRunDay := Some(day))]
               else after == l
  {
    var ids := ScheduleIds(l.schedules);
    var i := IndexOf(ids, id);
    if i < |ids| { assert ids[i] == id; }
  }
}
