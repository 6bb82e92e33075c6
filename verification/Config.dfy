/** The records of the configuration file and what a store operation does to them: the meaning of the
    store's methods as functions on the stored lists. */
module Config {
  import opened Text

  datatype NIC = NIC(name: string, mac: string, ipv4: seq<string>, broadcast: seq<string>)

  datatype Device = Device(
    id: string, name: string, mac: string, broadcast: string, port: int, repeats: int,
    bemfaEnable: bool, bemfaTopic: string, bemfaName: string, boundClientKey: string, preferredNIC: string,
    probeMethod: string, probeHost: string, probePort: int, probeInterval: int, createdAt: int, updatedAt: int)

  datatype Group = Group(id: string, name: string, deviceIDs: seq<string>, createdAt: int, updatedAt: int)

  /** `lastRunDay` is a day number; None stands for the empty text. */
  datatype Schedule = Schedule(
    id: string, name: string, enabled: bool, action: string, deviceID: string, groupID: string,
    hour: int, minute: int, weekdays: seq<int>, lastRunDay: Option<int>, createdAt: int, updatedAt: int)

  datatype Settings = Settings(
    listen: string, bemfaUID: string, clientToken: string, wsPath: string,
    basicAuthEnable: bool, basicAuthUser: string, basicAuthPassword: string,
    globalManagedByLuci: bool, webGlobalMode: string, notifyWebhook: string,
    notifyOnWake: bool, notifyOnShutdown: bool, notifyOnProbeChange: bool, notifyOnSchedule: bool)

  /** The stored lists. */
  datatype Lists = Lists(devices: seq<Device>, groups: seq<Group>, schedules: seq<Schedule>)

  /** The content of the configuration file. */
  datatype File = File(version: int, settings: Settings, lists: Lists)

  // -- field ranges --

  predicate IsTcp(m: string) { m == "tcp" }

  predicate DeviceInRange(d: Device) {
    1 <= d.port <= 65535 && 1 <= d.repeats <= 20 && ProbeInRange(d)
  }

  predicate ScheduleInRange(sc: Schedule) {
    0 <= sc.hour <= 23 && 0 <= sc.minute <= 59 && IsCanonical(sc.action)
  }

  /** The probe method as stored; "off" stands for a blank one. */
  function ProbeMethod(m: string): (r: string)
    ensures IsCanonical(r) && r != ""
    ensures IsCanonical(m) && m != "" ==> r == m
  {
    var lowered := Canonical(m);
    if lowered != "" then lowered else OffIsCanonical(); OFF
  }

  const OFF := "off"

  lemma OffIsCanonical()
    ensures IsCanonical(OFF)
  {
  }

  /** The sending fields of normalizeDeviceFields. */
  function NormalizeSending(d: Device): (r: Device)
    ensures 1 <= r.port <= 65535 && 1 <= r.repeats <= 20
    ensures 1 <= d.port <= 65535 && 1 <= d.repeats <= 20 ==> r == d
    ensures r == d.(port := r.port, repeats := r.repeats)
  {
    d.(port := if d.port <= 0 || d.port > 65535 then 9 else d.port,
       repeats := if d.repeats <= 0 || d.repeats > 20 then 3 else d.repeats)
  }

  predicate ProbeInRange(d: Device) {
    && d.probeInterval >= 15 && d.probeMethod != "" && IsCanonical(d.probeMethod)
    && (IsTcp(d.probeMethod) ==> 1 <= d.probePort <= 65535)
  }

  /** The probe fields of normalizeDeviceFields. */
  function NormalizeProbe(d: Device): (r: Device)
    ensures ProbeInRange(r)
    ensures ProbeInRange(d) ==> r == d
    ensures r == d.(probeMethod := r.probeMethod, probePort := r.probePort, probeInterval := r.probeInterval)
  {
    hide Trim, Canonical, ProbeMethod, IsTcp, IsCanonical;
    var probeMethod := ProbeMethod(d.probeMethod);
    var interval := if d.probeInterval <= 0 then 60 else d.probeInterval;
    d.(probeMethod := probeMethod,
       probePort := if IsTcp(probeMethod) && (d.probePort <= 0 || d.probePort > 65535) then 3389 else d.probePort,
       probeInterval := if interval < 15 then 15 else interval)
  }

  /** normalizeDeviceFields: leaves a device that is in range alone. */
  function NormalizeDevice(d: Device): (r: Device)
    ensures DeviceInRange(r)
    ensures DeviceInRange(d) ==> r == d
    ensures r.id == d.id && r.name == d.name && r.mac == d.mac && r.bemfaEnable == d.bemfaEnable && r.bemfaTopic == d.bemfaTopic
    ensures r.broadcast == d.broadcast && r.boundClientKey == d.boundClientKey && r.preferredNIC == d.preferredNIC
  {
    hide NormalizeSending, NormalizeProbe, IsTcp, IsCanonical;
    NormalizeProbe(NormalizeSending(d))
  }

  /** normalizeScheduleFields */
  function NormalizeSchedule(sc: Schedule): (r: Schedule)
    ensures ScheduleInRange(r)
    ensures ScheduleInRange(sc) ==> r == sc
    ensures r.id == sc.id && r.enabled == sc.enabled && r.weekdays == sc.weekdays && r.lastRunDay == sc.lastRunDay
    ensures r.name == sc.name && r.action == Canonical(sc.action) && (0 <= sc.hour <= 23 ==> r.hour == sc.hour) && (0 <= sc.minute <= 59 ==> r.minute == sc.minute)
  {
    sc.(action := Canonical(sc.action),
        hour := if sc.hour < 0 || sc.hour > 23 then 0 else sc.hour,
        minute := if sc.minute < 0 || sc.minute > 59 then 0 else sc.minute)
  }

  lemma CanonicalActionFirst(sc: Schedule)
    ensures NormalizeSchedule(sc.(action := Canonical(sc.action))) == NormalizeSchedule(sc)
  {
  }

  // -- lists of records with ids --

  /** Order-preserving filter. */
  function Filter<T>(s: seq<T>, keep: T -> bool): (r: seq<T>)
    ensures |r| <= |s|
  {
    if s == [] then []
    else
      var n := |s| - 1;
      Filter(s[..n], keep) + if keep(s[n]) then [s[n]] else []
  }

  lemma FilterNext<T>(s: seq<T>, i: nat, keep: T -> bool)
    requires i < |s|
    ensures Filter(s[..i + 1], keep) == Filter(s[..i], keep) + if keep(s[i]) then [s[i]] else []
  {
    assert s[..i + 1][..i] == s[..i];
  }

  /** A filter has the elements that are kept and no others, and drops something unless it keeps everything. */
  lemma {:induction false} FilterMembers<T>(s: seq<T>, keep: T -> bool)
    ensures forall x | x in Filter(s, keep) :: x in s && keep(x)
    ensures forall x | x in s && keep(x) :: x in Filter(s, keep)
    ensures |Filter(s, keep)| == |s| <==> forall x | x in s :: keep(x)
    ensures |Filter(s, keep)| == |s| ==> Filter(s, keep) == s
  {
    if s != [] {
      var n := |s| - 1;
      FilterMembers(s[..n], keep);
      assert s == s[..n] + [s[n]];
    }
  }

  lemma {:induction false} FilterFull<T>(s: seq<T>, keep: T -> bool)
    ensures |Filter(s, keep)| == |s| ==> Filter(s, keep) == s
  {
    if s != [] { FilterFull(s[..|s| - 1], keep); }
  }

  /** Filtering out an id changes the list exactly when some record has it. */
  lemma {:induction false} FilterIds<T>(s: seq<T>, keep: T -> bool, ids: seq<string>, id: string)
    requires |ids| == |s| && forall i :: 0 <= i < |s| ==> (keep(s[i]) <==> ids[i] != id)
    ensures |Filter(s, keep)| == |s| <==> id !in ids
    ensures id !in ids ==> Filter(s, keep) == s
  {
    if s != [] {
      var n := |s| - 1;
      FilterIds(s[..n], keep, ids[..n], id);
      assert s == s[..n] + [s[n]] && ids == ids[..n] + [ids[n]];
    }
  }

  /** Position of the first record with this id; |ids| when there is none. */
  function IndexOf(ids: seq<string>, id: string): (i: nat)
    ensures i <= |ids|
    ensures i < |ids| ==> ids[i] == id
    ensures forall j :: 0 <= j < i ==> ids[j] != id
  {
    if ids == [] then 0
    else if ids[0] == id then 0
    else 1 + IndexOf(ids[1..], id)
  }

  lemma IndexIs(ids: seq<string>, id: string, i: nat)
    requires i <= |ids| && (i < |ids| ==> ids[i] == id) && forall j :: 0 <= j < i ==> ids[j] != id
    ensures IndexOf(ids, id) == i
  {
  }

  function DeviceIds(ds: seq<Device>): (r: seq<string>)
    ensures |r| == |ds|
    ensures forall i :: 0 <= i < |r| ==> r[i] == ds[i].id
  {
    seq(|ds|, i requires 0 <= i < |ds| => ds[i].id)
  }

  function GroupIds(gs: seq<Group>): (r: seq<string>)
    ensures |r| == |gs|
    ensures forall i :: 0 <= i < |r| ==> r[i] == gs[i].id
  {
    seq(|gs|, i requires 0 <= i < |gs| => gs[i].id)
  }

  function ScheduleIds(ss: seq<Schedule>): (r: seq<string>)
    ensures |r| == |ss|
    ensures forall i :: 0 <= i < |r| ==> r[i] == ss[i].id
  {
    seq(|ss|, i requires 0 <= i < |ss| => ss[i].id)
  }

  function FindDevice(ds: seq<Device>, id: string): Option<Device> {
    var i := IndexOf(DeviceIds(ds), id);
    if i < |ds| then Some(ds[i]) else None
  }

  function FindGroup(gs: seq<Group>, id: string): Option<Group> {
    var i := IndexOf(GroupIds(gs), id);
    if i < |gs| then Some(gs[i]) else None
  }

  function FindSchedule(ss: seq<Schedule>, id: string): Option<Schedule> {
    var i := IndexOf(ScheduleIds(ss), id);
    if i < |ss| then Some(ss[i]) else None
  }

  /** Where an upsert writes: the record with this id, or the end. An empty id never matches. */
  function Slot(ids: seq<string>, id: string): (i: nat)
    ensures i <= |ids|
    ensures i < |ids| ==> ids[i] == id != ""
    ensures i == |ids| ==> id == "" || id !in ids
  {
    if id == "" then |ids| else IndexOf(ids, id)
  }

  function PutAt<T>(s: seq<T>, i: nat, x: T): (r: seq<T>)
    requires i <= |s|
    ensures |r| == if i < |s| then |s| else |s| + 1
    ensures r[i] == x && forall j :: 0 <= j < |s| && j != i ==> r[j] == s[j]
  {
    if i < |s| then s[i := x] else s + [x]
  }

  // -- what the operations do --

  datatype Fault = NameRequired | MacRequired | BadAction | TargetRequired | SaveFailed

  datatype Outcome<+T> = Done(value: T) | Fail(fault: Fault)

  function StoredDevice(ds: seq<Device>, d: Device, now: int, freshId: string): (r: Outcome<Device>)
    ensures r.Done? ==> DeviceInRange(r.value) && r.value.name == d.name != "" && r.value.mac == d.mac != ""
  {
    if d.name == "" then Fail(NameRequired)
    else if d.mac == "" then Fail(MacRequired)
    else
      var d := NormalizeDevice(d);
      var i := Slot(DeviceIds(ds), d.id);
      if i < |ds| then
        Done(d.(createdAt := if ds[i].createdAt == 0 then now else ds[i].createdAt, updatedAt := now))
      else
        Done(d.(id := if d.id == "" then freshId else d.id, createdAt := now, updatedAt := now))
  }

  function StoredGroup(gs: seq<Group>, g: Group, now: int, freshId: string): (r: Outcome<Group>)
    ensures r.Fail? ==> r.fault.NameRequired?
  {
    var name := Trim(g.name);
    if name == "" then Fail(NameRequired)
    else
      var i := Slot(GroupIds(gs), g.id);
      if i < |gs| then Done(g.(name := name, createdAt := gs[i].createdAt, updatedAt := now))
      else Done(g.(id := if g.id == "" then freshId else g.id, name := name, createdAt := now, updatedAt := now))
  }

  function CheckedSchedule(sc: Schedule): (r: Outcome<Schedule>)
    ensures r.Done? ==>
              && ScheduleInRange(r.value) && r.value.name != ""
              && r.value.id == sc.id && r.value.lastRunDay == sc.lastRunDay
              && r.value.enabled == sc.enabled && r.value.weekdays == sc.weekdays
              && (0 <= sc.hour <= 23 ==> r.value.hour == sc.hour) && (0 <= sc.minute <= 59 ==> r.value.minute == sc.minute)
  {
    hide Trim, Canonical, NormalizeSchedule;
    var name, action := Trim(sc.name), Canonical(sc.action);
    if name == "" then Fail(NameRequired)
    else if action != "wake" && action != "shutdown" then Fail(BadAction)
    else if sc.deviceID == "" && sc.groupID == "" then Fail(TargetRequired)
    else Done(NormalizeSchedule(sc.(name := name)))
  }

  /** An edit that leaves `lastRunDay` empty keeps the stored one. */
  function CompleteSchedule(ss: seq<Schedule>, sc: Schedule, now: int, freshId: string): Schedule {
    var i := Slot(ScheduleIds(ss), sc.id);
    if i < |ss| then
      sc.(createdAt := ss[i].createdAt, updatedAt := now,
          lastRunDay := if sc.lastRunDay.None? then ss[i].lastRunDay else sc.lastRunDay)
    else
      sc.(id := if sc.id == "" then freshId else sc.id, createdAt := now, updatedAt := now)
  }

  function StoredSchedule(ss: seq<Schedule>, sc: Schedule, now: int, freshId: string): Outcome<Schedule> {
    var checked := CheckedSchedule(sc);
    if checked.Fail? then checked else Done(CompleteSchedule(ss, checked.value, now, freshId))
  }

  /** Writes a record into the slot of the requested id, which is empty for a record not stored before. */
  function WithDevice(ds: seq<Device>, requested: string, d: Device): seq<Device> {
    PutAt(ds, Slot(DeviceIds(ds), requested), d)
  }

  function WithGroup(gs: seq<Group>, requested: string, g: Group): seq<Group> {
    PutAt(gs, Slot(GroupIds(gs), requested), g)
  }

  function WithSchedule(ss: seq<Schedule>, requested: string, sc: Schedule): seq<Schedule> {
    PutAt(ss, Slot(ScheduleIds(ss), requested), sc)
  }

  function OtherDevice(id: string): Device -> bool { (d: Device) => d.id != id }
  function OtherGroup(id: string): Group -> bool { (g: Group) => g.id != id }
  function OtherSchedule(id: string): Schedule -> bool { (sc: Schedule) => sc.id != id }
  function OtherThan(id: string): string -> bool { (x: string) => x != id }

  function WithoutDevice(ds: seq<Device>, id: string): seq<Device> {
    Filter(ds, OtherDevice(id))
  }

  function WithoutGroup(gs: seq<Group>, id: string): seq<Group> {
    Filter(gs, OtherGroup(id))
  }

  function WithoutSchedule(ss: seq<Schedule>, id: string): seq<Schedule> {
    Filter(ss, OtherSchedule(id))
  }

  function DropMember(g: Group, id: string): Group {
    g.(deviceIDs := Filter(g.deviceIDs, OtherThan(id)))
  }

  function DropMembers(gs: seq<Group>, id: string): (r: seq<Group>)
    ensures |r| == |gs|
    ensures forall i :: 0 <= i < |gs| ==> r[i] == DropMember(gs[i], id)
  {
    seq(|gs|, i requires 0 <= i < |gs| => DropMember(gs[i], id))
  }

  function Marked(ss: seq<Schedule>, id: string, day: int): (r: seq<Schedule>)
    ensures |r| == |ss|
  {
    var i := IndexOf(ScheduleIds(ss), id);
    if i < |ss| then ss[i := ss[i].(lastRunDay := Some(day))] else ss
  }
}
