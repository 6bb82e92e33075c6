/** The configuration store: lists kept in slices that deletes compact in place, saved as a whole after each change. */
module Store {
  import opened Text
  import opened Config
  import E = StoreEffects
  import opened Slices

  /** A group as it lies in memory: its members are a slice of their own. */
  datatype GroupCell = GroupCell(id: string, name: string, members: Slice<string>, createdAt: int, updatedAt: int) {
    ghost function Value(): Group
      requires members.Valid()
      reads members.arr
    {
      Group(id, name, members.Elems(), createdAt, updatedAt)
    }
  }

  /** How far a save gets: the directory, the temporary file, the rename. */
  datatype IO = MkdirFails | WriteFails | RenameFails | Succeeds

  function IdOfDevice(d: Device): string { d.id }
  function IdOfGroup(g: GroupCell): string { g.id }
  function IdOfSchedule(sc: Schedule): string { sc.id }

  function OtherCell(id: string): GroupCell -> bool { (g: GroupCell) => g.id != id }

  /** Every group has a sound member slice, and no two share a backing array. */
  ghost predicate CellsSound(cells: seq<GroupCell>) {
    && (forall i :: 0 <= i < |cells| ==> cells[i].members.Valid())
    && (forall i, j :: 0 <= i < j < |cells| ==> cells[i].members.arr != cells[j].members.arr)
  }

  ghost function MemberArrays(cells: seq<GroupCell>): (r: seq<array<string>>)
    ensures |r| == |cells| && forall i :: 0 <= i < |r| ==> r[i] == cells[i].members.arr
  {
    seq(|cells|, i requires 0 <= i < |cells| => cells[i].members.arr)
  }

  ghost function CellValues(cells: seq<GroupCell>): (r: seq<Group>)
    requires CellsSound(cells)
    reads MemberArrays(cells)
    ensures |r| == |cells| && forall i :: 0 <= i < |cells| ==> r[i] == cells[i].Value()
  {
    seq(|cells|, i requires 0 <= i < |cells| && CellsSound(cells) reads MemberArrays(cells) =>
          assert MemberArrays(cells)[i] == cells[i].members.arr; cells[i].Value())
  }

  /** Groups whose member arrays were left alone read the same. */
  twostate lemma CellsKept(cells: seq<GroupCell>)
    requires CellsSound(cells)
    requires forall a :: a in MemberArrays(cells) ==> unchanged(a)
    ensures CellValues(cells) == old(CellValues(cells))
  {
    assert forall i :: 0 <= i < |cells| ==> MemberArrays(cells)[i] in MemberArrays(cells);
    assert forall i :: 0 <= i < |cells| ==> cells[i].Value() == old(cells[i].Value());
  }

  class ConfigStore {
    var version: int
    var settings: Settings
    var devices: Slice<Device>
    var groups: Slice<GroupCell>
    var schedules: Slice<Schedule>
    /** The file at the configured path. */
    var disk: File

    /** The slices are sound and their backing arrays are all different. */
    ghost predicate Valid()
      reads this, groups.arr
    {
      && devices.Valid() && schedules.Valid() && groups.Valid() && CellsSound(groups.Elems())
      && devices.arr as object != groups.arr as object && devices.arr as object != schedules.arr as object
      && groups.arr as object != schedules.arr as object
      && (forall i :: 0 <= i < groups.len ==> Apart(groups.arr[i].members.arr))
    }

    /** A member slice is none of the three list arrays. */
    ghost predicate Apart(a: array<string>)
      reads this
    {
      a as object != devices.arr as object && a as object != groups.arr as object && a as object != schedules.arr as object
    }

    ghost function Devices(): seq<Device>
      requires devices.Valid()
      reads this`devices, devices.arr
    {
      devices.Elems()
    }

    ghost function Groups(): seq<Group>
      requires groups.Valid() && CellsSound(groups.Elems())
      reads this`groups, groups.arr, MemberArrays(groups.Elems())
    {
      CellValues(groups.Elems())
    }

    ghost function Schedules(): seq<Schedule>
      requires schedules.Valid()
      reads this`schedules, schedules.arr
    {
      schedules.Elems()
    }

    /** What a save would write. */
    ghost function Memory(): File
      requires Valid()
      reads this, devices.arr, groups.arr, MemberArrays(groups.Elems()), schedules.arr
    {
      File(version, settings, Lists(Devices(), Groups(), Schedules()))
    }

    method SaveLocked(io: IO) returns (ok: bool)
      requires Valid()
      modifies this`disk
      ensures Valid() && Memory() == old(Memory())
      ensures ok <==> io.Succeeds?
      ensures disk == if ok then Memory() else old(disk)
    {
      var gs := ReadGroups(groups);
      if io.MkdirFails? { return false; }
      var image := File(version, settings, Lists(devices.arr[..devices.len], gs, schedules.arr[..schedules.len]));
      if io.WriteFails? { return false; }
      if io.RenameFails? { return false; }
      disk := image;
      return true;
    }

    method ListDevices() returns (out: Slice<Device>)
      requires Valid()
      ensures out.Valid() && fresh(out.arr) && out.Elems() == Devices()
    {
      out := Clone(devices);
    }

    method GetDevice(id: string) returns (d: Option<Device>)
      requires Valid()
      ensures d == FindDevice(Devices(), id)
    {
      var i := Search(devices, id, IdOfDevice, DeviceIds(Devices()));
      d := if i < devices.len then Some(devices.arr[i]) else None;
    }

    method PutDevice(i: nat, d: Device, io: IO) returns (ok: bool)
      requires Valid() && i <= devices.len
      modifies this`devices, this`disk, devices.arr
      ensures Valid() && (devices.arr == old(devices.arr) || fresh(devices.arr))
      ensures Devices() == PutAt(old(Devices()), i, d) && Groups() == old(Groups()) && Schedules() == old(Schedules())
      ensures (ok <==> io.Succeeds?) && disk == if ok then Memory() else old(disk)
    {
      devices := Place(devices, i, d);
      assert groups.Elems() == old(groups.Elems());
      CellsKept(groups.Elems());
      ok := SaveLocked(io);
    }

    method UpsertDevice(d: Device, now: int, freshId: string, io: IO) returns (r: Outcome<Device>)
      requires Valid()
      modifies this`devices, this`disk, devices.arr
      ensures Valid() && (devices.arr == old(devices.arr) || fresh(devices.arr))
      ensures Groups() == old(Groups()) && Schedules() == old(Schedules())
      ensures var stored := StoredDevice(old(Devices()), d, now, freshId);
              if stored.Fail? then r == stored && Devices() == old(Devices()) && disk == old(disk)
              else
                && Devices() == WithDevice(old(Devices()), d.id, stored.value)
                && disk == (if io.Succeeds? then Memory() else old(disk))
                && r == (if io.Succeeds? then stored else Fail(SaveFailed))
      ensures r.Done? <==> E.DeviceComplete(d) && io.Succeeds?
      ensures E.DeviceComplete(d) ==> E.DeviceUpserted(old(Devices()), Devices(), d, now, freshId)
    {
      E.DeviceFaults(Devices(), d, now, freshId);
      if E.DeviceComplete(d) { E.DeviceStored(Devices(), d, now, freshId); }
      hide E.DeviceComplete, E.DeviceUpserted, StoredDevice, CellValues, MemberArrays;
      var i;
      i, r := PrepareDevice(devices, d, now, freshId);
      CellsKept(groups.Elems());
      if r.Done? {
        var ok := PutDevice(i, r.value, io);
        if !ok { r := Fail(SaveFailed); }
      }
    }

    /** Compacts the devices, then the members of every group. */
    method DeleteDevice(id: string, io: IO) returns (ok: bool)
      requires Valid()
      modifies this`devices, this`disk, devices.arr, groups.arr, MemberArrays(groups.Elems())
      ensures Valid() && devices.arr == old(devices.arr) && groups == old(groups) && MemberArrays(groups.Elems()) == old(MemberArrays(groups.Elems()))
      ensures id !in DeviceIds(old(Devices())) ==> !ok && Memory() == old(Memory()) && disk == old(disk)
      ensures id in DeviceIds(old(Devices())) ==>
                && Devices() == WithoutDevice(old(Devices()), id)
                && Groups() == DropMembers(old(Groups()), id)
                && WholeArrays(groups.Elems(), MemberArrays(groups.Elems()), old(ArrayTexts(MemberArrays(groups.Elems()))))
                && disk == (if io.Succeeds? then Memory() else old(disk)) && (ok <==> io.Succeeds?)
    {
      hide CellValues, MemberArrays, Filter, ArrayTexts, SameEnd;
      var found;
      devices, found := Compact(devices, OtherDevice(id));
      FilterIds(old(Devices()), OtherDevice(id), DeviceIds(old(Devices())), id);
      CellsKept(groups.Elems());
      if found {
        DropFromGroups(groups, id);
        ok := SaveLocked(io);
      } else {
        ok := false;
      }
    }

    /** A copy whose groups have their own member slices. */
    method ListGroups() returns (out: Slice<GroupCell>)
      requires Valid()
      ensures out.Valid() && fresh(out.arr) && CellsSound(out.Elems()) && fresh(MemberArrays(out.Elems()))
      ensures CellValues(out.Elems()) == Groups()
    {
      out := CloneGroups(groups);
    }

    method GetGroup(id: string) returns (g: Option<GroupCell>)
      requires Valid()
      ensures g.Some? ==> g.value.members.Valid() && fresh(g.value.members.arr)
      ensures (if g.None? then None else Some(g.value.Value())) == FindGroup(Groups(), id)
    {
      var i := Search(groups, id, IdOfGroup, GroupIds(Groups()));
      if i == groups.len { return None; }
      var cell := groups.arr[i];
      var members := Clone(cell.members);
      g := Some(cell.(members := members));
    }

    method PutGroup(i: nat, c: GroupCell, io: IO) returns (ok: bool)
      requires Valid() && i <= groups.len && Free(c.members, i)
      modifies this`groups, this`disk, groups.arr
      ensures Valid() && (groups.arr == old(groups.arr) || fresh(groups.arr))
      ensures forall a :: a in MemberArrays(groups.Elems()) ==> a in old(MemberArrays(groups.Elems())) || a == c.members.arr
      ensures Groups() == PutAt(old(Groups()), i, c.Value()) && Devices() == old(Devices()) && Schedules() == old(Schedules())
      ensures i < groups.len && groups.arr[i] == c
      ensures (ok <==> io.Succeeds?) && disk == if ok then Memory() else old(disk)
    {
      PlaceCell(groups.Elems(), i, c);
      groups := Place(groups, i, c);
      CellsKept(groups.Elems());
      ok := SaveLocked(io);
    }

    /** A member slice that no stored list uses, and no stored group but the one at position i. */
    ghost predicate Free(members: Slice<string>, i: nat)
      requires groups.Valid()
      reads this, groups.arr
    {
      && members.Valid() && Apart(members.arr)
      && forall j :: 0 <= j < groups.len && j != i ==> groups.arr[j].members.arr != members.arr
    }

    /** Stores the caller's member slice itself, so no other stored group may be using it already. */
    method UpsertGroup(g: GroupCell, now: int, freshId: string, io: IO) returns (r: Outcome<GroupCell>)
      requires Valid() && Free(g.members, Slot(GroupIds(Groups()), g.id))
      modifies this`groups, this`disk, groups.arr
      ensures Valid() && (groups.arr == old(groups.arr) || fresh(groups.arr))
      ensures forall a :: a in MemberArrays(groups.Elems()) ==> a in old(MemberArrays(groups.Elems())) || a == g.members.arr
      ensures var stored := StoredGroup(old(Groups()), old(g.Value()), now, freshId);
              if stored.Fail? then r == Fail(stored.fault) && groups == old(groups) && groups.Elems() == old(groups.Elems()) && Groups() == old(Groups()) && disk == old(disk)
              else
                && Groups() == WithGroup(old(Groups()), g.id, stored.value)
                && disk == (if io.Succeeds? then Memory() else old(disk))
                && (if io.Succeeds? then r.Done? else r == Fail(SaveFailed))
                && (r.Done? ==> r.value.members == g.members && r.value.Value() == stored.value)
                && Slot(old(GroupIds(Groups())), g.id) < groups.len
                && groups.arr[Slot(old(GroupIds(Groups())), g.id)].members == g.members
    {
      hide CellValues, MemberArrays, StoredGroup, GroupIds;
      var i;
      i, r := PrepareGroup(groups, g, now, freshId);
      CellsKept(groups.Elems());
      if r.Done? {
        var ok := PutGroup(i, r.value, io);
        if !ok { r := Fail(SaveFailed); }
      }
    }

    method CompactGroups(id: string) returns (found: bool)
      requires Valid()
      modifies this`groups, groups.arr
      ensures Valid() && groups.arr == old(groups.arr) && disk == old(disk)
      ensures forall a :: a in MemberArrays(groups.Elems()) ==> a in old(MemberArrays(groups.Elems()))
      ensures found <==> id in GroupIds(old(Groups()))
      ensures Memory() == old(Memory()).(lists := old(Memory()).lists.(groups := WithoutGroup(old(Groups()), id)))
      ensures !found ==> Groups() == old(Groups())
    {
      hide CellValues, MemberArrays, Filter;
      CellsFilterAsValues(groups.Elems(), id);
      FilterIds(groups.Elems(), OtherCell(id), GroupIds(Groups()), id);
      groups, found := Compact(groups, OtherCell(id));
      CellsKept(groups.Elems());
    }

    method DeleteGroup(id: string, io: IO) returns (ok: bool)
      requires Valid()
      modifies this`groups, this`disk, groups.arr
      ensures Valid() && groups.arr == old(groups.arr)
      ensures forall a :: a in MemberArrays(groups.Elems()) ==> a in old(MemberArrays(groups.Elems()))
      ensures id !in GroupIds(old(Groups())) ==> !ok && Memory() == old(Memory()) && disk == old(disk)
      ensures id in GroupIds(old(Groups())) ==>
                && Groups() == WithoutGroup(old(Groups()), id)
                && disk == (if io.Succeeds? then Memory() else old(disk)) && (ok <==> io.Succeeds?)
    {
      var found := CompactGroups(id);
      if found { ok := SaveLocked(io); } else { ok := false; }
    }

    method ListSchedules() returns (out: Slice<Schedule>)
      requires Valid()
      ensures out.Valid() && fresh(out.arr) && out.Elems() == Schedules()
    {
      out := Clone(schedules);
    }

    method PutSchedule(i: nat, sc: Schedule, io: IO) returns (ok: bool)
      requires Valid() && i <= schedules.len
      modifies this`schedules, this`disk, schedules.arr
      ensures Valid() && (schedules.arr == old(schedules.arr) || fresh(schedules.arr))
      ensures Schedules() == PutAt(old(Schedules()), i, sc) && Devices() == old(Devices()) && Groups() == old(Groups())
      ensures (ok <==> io.Succeeds?) && disk == if ok then Memory() else old(disk)
    {
      schedules := Place(schedules, i, sc);
      assert groups.Elems() == old(groups.Elems());
      CellsKept(groups.Elems());
      ok := SaveLocked(io);
    }

    /** A copy of everything, down to the member slices. */
    method Snapshot() returns (ds: Slice<Device>, gs: Slice<GroupCell>, ss: Slice<Schedule>)
      requires Valid()
      ensures ds.Valid() && fresh(ds.arr) && ds.Elems() == Devices()
      ensures gs.Valid() && fresh(gs.arr) && CellsSound(gs.Elems()) && fresh(MemberArrays(gs.Elems()))
      ensures CellValues(gs.Elems()) == Groups()
      ensures ss.Valid() && fresh(ss.arr) && ss.Elems() == Schedules()
    {
      ds := Clone(devices);
      ss := Clone(schedules);
      CellsKept(groups.Elems());
      gs := CloneGroups(groups);
    }

    /** Accepted exactly when it is complete; what was asked for is then stored, whether or not the save succeeds. */
    method UpsertSchedule(sc: Schedule, now: int, freshId: string, io: IO) returns (r: Outcome<Schedule>)
      requires Valid()
      modifies this`schedules, this`disk, schedules.arr
      ensures Valid() && (schedules.arr == old(schedules.arr) || fresh(schedules.arr))
      ensures Devices() == old(Devices()) && Groups() == old(Groups())
      ensures var stored := StoredSchedule(old(Schedules()), sc, now, freshId);
              if stored.Fail? then r == stored && Schedules() == old(Schedules()) && disk == old(disk)
              else
                && Schedules() == WithSchedule(old(Schedules()), sc.id, stored.value)
                && disk == (if io.Succeeds? then Memory() else old(disk))
                && r == (if io.Succeeds? then stored else Fail(SaveFailed))
      ensures r.Done? <==> E.ScheduleComplete(sc) && io.Succeeds?
      ensures E.ScheduleComplete(sc) ==> E.ScheduleUpserted(old(Schedules()), Schedules(), sc, now, freshId)
    {
      hide E.ScheduleComplete, E.ScheduleUpserted, StoredSchedule, WithSchedule, CellValues, MemberArrays;
      ghost var was := Schedules();
      r := PrepareAndPut(sc, now, freshId, io);
      E.ScheduleFaults(was, sc, now, freshId);
      if E.ScheduleComplete(sc) { E.ScheduleStored(was, sc, now, freshId); }
    }

    method PrepareAndPut(sc: Schedule, now: int, freshId: string, io: IO) returns (r: Outcome<Schedule>)
      requires Valid()
      modifies this`schedules, this`disk, schedules.arr
      ensures Valid() && (schedules.arr == old(schedules.arr) || fresh(schedules.arr))
      ensures Devices() == old(Devices()) && Groups() == old(Groups())
      ensures var stored := StoredSchedule(old(Schedules()), sc, now, freshId);
              if stored.Fail? then r == stored && Schedules() == old(Schedules()) && disk == old(disk)
              else
                && Schedules() == WithSchedule(old(Schedules()), sc.id, stored.value)
                && disk == (if io.Succeeds? then Memory() else old(disk))
                && r == (if io.Succeeds? then stored else Fail(SaveFailed))
    {
      var i;
      i, r := PrepareSchedule(schedules, sc, now, freshId);
      CellsKept(groups.Elems());
      if r.Done? {
        var ok := PutSchedule(i, r.value, io);
        if !ok { r := Fail(SaveFailed); }
      }
    }

    /** The mark is in memory even when the save fails. */
    method MarkScheduleRun(id: string, day: int, io: IO) returns (ok: bool)
      requires Valid()
      modifies this`disk, schedules.arr
      ensures Valid() && Schedules() == Marked(old(Schedules()), id, day)
      ensures if id in ScheduleIds(old(Schedules())) then disk == (if io.Succeeds? then Memory() else old(disk)) && (ok <==> io.Succeeds?) else !ok && disk == old(disk)
    {
      var i := Search(schedules, id, IdOfSchedule, ScheduleIds(Schedules()));
      if i == schedules.len { return false; }
      assert ScheduleIds(Schedules())[i] == id;
      schedules.arr[i] := schedules.arr[i].(lastRunDay := Some(day));
      assert Schedules() == Marked(old(Schedules()), id, day);
      ok := SaveLocked(io);
    }

    method DeleteSchedule(id: string, io: IO) returns (ok: bool)
      requires Valid()
      modifies this`schedules, this`disk, schedules.arr
      ensures Valid() && schedules.arr == old(schedules.arr)
      ensures id !in ScheduleIds(old(Schedules())) ==> !ok && Memory() == old(Memory()) && disk == old(disk)
      ensures id in ScheduleIds(old(Schedules())) ==>
                && Schedules() == WithoutSchedule(old(Schedules()), id)
                && disk == (if io.Succeeds? then Memory() else old(disk)) && (ok <==> io.Succeeds?)
    {
      hide Filter, CellValues, MemberArrays, ScheduleIds;
      var out, found := Compact(schedules, OtherSchedule(id));
      CellsKept(groups.Elems());
      FilterIds(old(Schedules()), OtherSchedule(id), ScheduleIds(old(Schedules())), id);
      if !found { return false; }
      schedules := out;
      ok := SaveLocked(io);
    }
  }

  // -- checking and completing a record before it is stored: its slot, and the record or the refusal --

  method PrepareDevice(s: Slice<Device>, d: Device, now: int, freshId: string) returns (i: nat, r: Outcome<Device>)
    requires s.Valid()
    ensures r == StoredDevice(s.Elems(), d, now, freshId)
    ensures r.Done? ==> i == Slot(DeviceIds(s.Elems()), d.id)
  {
    if d.name == "" { return 0, Fail(NameRequired); }
    if d.mac == "" { return 0, Fail(MacRequired); }
    var d' := NormalizeDevice(d);
    i := SearchSlot(s, d'.id, IdOfDevice, DeviceIds(s.Elems()));
    if i == s.len {
      d' := d'.(id := if d'.id == "" then freshId else d'.id, createdAt := now, updatedAt := now);
    } else {
      var created := s.arr[i].createdAt;
      d' := d'.(createdAt := if created == 0 then now else created, updatedAt := now);
    }
    r := Done(d');
  }

  method PrepareGroup(s: Slice<GroupCell>, g: GroupCell, now: int, freshId: string) returns (i: nat, r: Outcome<GroupCell>)
    requires s.Valid() && CellsSound(s.Elems()) && g.members.Valid()
    ensures match StoredGroup(CellValues(s.Elems()), g.Value(), now, freshId)
            case Fail(why) => r == Fail(why)
            case Done(x) =>
              && r.Done? && r.value.members == g.members && r.value.Value() == x
              && i == Slot(GroupIds(CellValues(s.Elems())), g.id)
  {
    hide CellValues, MemberArrays, Trim, GroupIds;
    var name := Trim(g.name);
    if name == "" { return 0, Fail(NameRequired); }
    i := SearchSlot(s, g.id, IdOfGroup, GroupIds(CellValues(s.Elems())));
    CellsKept(s.Elems());
    var cell := g.(name := name, updatedAt := now);
    if i == s.len {
      cell := cell.(id := if g.id == "" then freshId else g.id, createdAt := now);
    } else {
      cell := cell.(createdAt := s.arr[i].createdAt);
    }
    r := Done(cell);
  }

  method PrepareSchedule(s: Slice<Schedule>, sc: Schedule, now: int, freshId: string)
    returns (i: nat, r: Outcome<Schedule>)
    requires s.Valid()
    ensures r == StoredSchedule(s.Elems(), sc, now, freshId)
    ensures r.Done? ==> i == Slot(ScheduleIds(s.Elems()), sc.id)
  {
    r := CheckSchedule(sc);
    if r.Fail? { return 0, r; }
    var sc' := r.value;
    i := SearchSlot(s, sc'.id, IdOfSchedule, ScheduleIds(s.Elems()));
    if i == s.len {
      sc' := sc'.(id := if sc'.id == "" then freshId else sc'.id, createdAt := now, updatedAt := now);
    } else {
      sc' := sc'.(createdAt := s.arr[i].createdAt, updatedAt := now);
      if sc'.lastRunDay.None? { sc' := sc'.(lastRunDay := s.arr[i].lastRunDay); }
    }
    r := Done(sc');
  }

  method CheckSchedule(sc: Schedule) returns (r: Outcome<Schedule>)
    ensures r == CheckedSchedule(sc)
  {
    var name := Trim(sc.name);
    if name == "" { return Fail(NameRequired); }
    var action := Canonical(sc.action);
    if action != "wake" && action != "shutdown" { return Fail(BadAction); }
    if sc.deviceID == "" && sc.groupID == "" { return Fail(TargetRequired); }
    CanonicalActionFirst(sc.(name := name));
    r := Done(NormalizeSchedule(sc.(name := name, action := action)));
  }

  // -- the loops --

  /** Overwrites element i, or appends when i is the length. */
  method Place<T>(s: Slice<T>, i: nat, x: T) returns (t: Slice<T>)
    requires s.Valid() && i <= s.len
    modifies s.arr
    ensures t.Valid() && t.Elems() == PutAt(old(s.Elems()), i, x)
    ensures t.arr == s.arr || fresh(t.arr)
  {
    if i == s.len {
      t := Append(s, x);
    } else {
      s.arr[i] := x;
      t := s;
    }
  }

  /** First element with this id; the length when there is none. */
  method Search<T>(s: Slice<T>, id: string, idOf: T -> string, ghost ids: seq<string>) returns (i: nat)
    requires s.Valid() && |ids| == s.len && forall j :: 0 <= j < s.len ==> idOf(s.arr[j]) == ids[j]
    ensures i == IndexOf(ids, id)
  {
    i := 0;
    while i < s.len && idOf(s.arr[i]) != id
      invariant i <= s.len
      invariant forall j :: 0 <= j < i ==> ids[j] != id
    {
      i := i + 1;
    }
    IndexIs(ids, id, i);
  }

  /** As Search, except that the empty id matches nothing. */
  method SearchSlot<T>(s: Slice<T>, id: string, idOf: T -> string, ghost ids: seq<string>) returns (i: nat)
    requires s.Valid() && |ids| == s.len && forall j :: 0 <= j < s.len ==> idOf(s.arr[j]) == ids[j]
    ensures i == Slot(ids, id)
  {
    if id == "" { return s.len; }
    i := Search(s, id, idOf, ids);
  }

  method ReadGroups(gs: Slice<GroupCell>) returns (out: seq<Group>)
    requires gs.Valid() && CellsSound(gs.Elems())
    ensures out == CellValues(gs.Elems())
  {
    out := [];
    for i := 0 to gs.len
      invariant |out| == i
      invariant forall j :: 0 <= j < i ==> out[j] == CellValues(gs.Elems())[j]
    {
      var g := gs.arr[i];
      assert g == gs.Elems()[i];
      out := out + [Group(g.id, g.name, g.members.arr[..g.members.len], g.createdAt, g.updatedAt)];
    }
  }

  method CloneGroups(gs: Slice<GroupCell>) returns (out: Slice<GroupCell>)
    requires gs.Valid() && CellsSound(gs.Elems())
    ensures out.Valid() && fresh(out.arr) && CellsSound(out.Elems()) && fresh(MemberArrays(out.Elems()))
    ensures CellValues(out.Elems()) == CellValues(gs.Elems())
  {
    ghost var values := CellValues(gs.Elems());
    out := Clone(gs);
    CloneMembers(out, gs.Elems(), values);
    CellsOf(out.Elems(), values);
  }

  method CloneMembers(out: Slice<GroupCell>, ghost was: seq<GroupCell>, ghost values: seq<Group>)
    requires out.Valid() && out.Elems() == was && |values| == |was|
    requires forall j :: 0 <= j < |was| ==> was[j].members.Valid() && was[j].Value() == values[j]
    modifies out.arr
    ensures CellsSound(out.Elems()) && fresh(MemberArrays(out.Elems()))
    ensures forall j :: 0 <= j < out.len ==> out.Elems()[j].Value() == values[j]
  {
    assert forall j :: 0 <= j < out.len ==> out.arr[j] == out.Elems()[j];
    for i := 0 to out.len
      invariant forall j :: i <= j < out.len ==> out.arr[j] == was[j]
      invariant forall j :: 0 <= j < i ==> out.arr[j].members.Valid() && fresh(out.arr[j].members.arr)
      invariant forall j :: 0 <= j < i ==> out.arr[j].Value() == values[j]
      invariant forall j, k :: 0 <= j < k < i ==> out.arr[j].members.arr != out.arr[k].members.arr
    {
      CloneOne(out, i, was[i]);
    }
  }

  lemma CellsOf(cells: seq<GroupCell>, values: seq<Group>)
    requires CellsSound(cells) && |cells| == |values| && forall i :: 0 <= i < |cells| ==> cells[i].Value() == values[i]
    ensures CellValues(cells) == values
  {
  }

  method CloneOne(out: Slice<GroupCell>, i: nat, ghost was: GroupCell)
    requires out.Valid() && i < out.len && out.arr[i] == was && was.members.Valid()
    modifies out.arr
    ensures out.arr[i].members.Valid() && fresh(out.arr[i].members.arr)
    ensures out.arr[i].Value() == was.Value()
    ensures forall j :: 0 <= j < out.arr.Length && j != i ==> out.arr[j] == old(out.arr[j])
  {
    var members := Clone(out.arr[i].members);
    out.arr[i] := out.arr[i].(members := members);
  }

  /** The two texts agree from this position on. */
  predicate SameEnd(a: seq<string>, b: seq<string>, from: nat) {
    from <= |a| == |b| && a[from..] == b[from..]
  }

  /** The whole backing arrays, beyond the slices too. */
  ghost function ArrayTexts(arrays: seq<array<string>>): (r: seq<seq<string>>)
    reads arrays
    ensures |r| == |arrays| && forall i :: 0 <= i < |r| ==> r[i] == arrays[i][..]
  {
    seq(|arrays|, i requires 0 <= i < |arrays| reads arrays => arrays[i][..])
  }

  /** Beyond the slices the arrays hold what they held before. */
  ghost predicate WholeArrays(cells: seq<GroupCell>, arrays: seq<array<string>>, before: seq<seq<string>>)
    reads arrays
  {
    |cells| == |arrays| == |before| && forall i :: 0 <= i < |cells| ==> SameEnd(arrays[i][..], before[i], cells[i].members.len)
  }

  /** Compacts the member slice of every group in place. */
  method DropFromGroups(gs: Slice<GroupCell>, id: string)
    requires gs.Valid() && CellsSound(gs.Elems())
    requires forall i :: 0 <= i < gs.len ==> gs.arr[i].members.arr as object != gs.arr as object
    modifies gs.arr, MemberArrays(gs.Elems())
    ensures CellsSound(gs.Elems()) && MemberArrays(gs.Elems()) == old(MemberArrays(gs.Elems()))
    ensures CellValues(gs.Elems()) == DropMembers(old(CellValues(gs.Elems())), id)
    ensures WholeArrays(gs.Elems(), MemberArrays(gs.Elems()), old(ArrayTexts(MemberArrays(gs.Elems()))))
  {
    hide CellValues, MemberArrays, ArrayTexts, SameEnd, DropMember, DropMembers;
    ghost var arrays, was := MemberArrays(gs.Elems()), CellValues(gs.Elems());
    assert forall j :: 0 <= j < gs.len ==> gs.arr[j] == gs.Elems()[j];
    DropEach(gs, id, arrays);
    assert forall j :: 0 <= j < gs.len ==> gs.Elems()[j] == gs.arr[j];
  }

  method DropEach(gs: Slice<GroupCell>, id: string, ghost arrays: seq<array<string>>)
    requires gs.Valid() && gs.len == |arrays|
    requires forall j :: 0 <= j < gs.len ==> gs.arr[j].members.arr == arrays[j] && gs.arr[j].members.Valid()
    requires forall j :: 0 <= j < gs.len ==> arrays[j] as object != gs.arr as object
    requires forall j, k :: 0 <= j < k < gs.len ==> arrays[j] != arrays[k]
    modifies gs.arr, arrays
    ensures forall j :: 0 <= j < gs.len ==> gs.arr[j].members.arr == arrays[j] && gs.arr[j].members.Valid()
    ensures forall j :: 0 <= j < gs.len ==> gs.arr[j].Value() == DropMember(old(gs.arr[j].Value()), id)
    ensures forall j :: 0 <= j < gs.len ==> SameEnd(arrays[j][..], old(arrays[j][..]), gs.arr[j].members.len)
  {
    hide SameEnd, DropMember;
    for i := 0 to gs.len
      invariant forall j :: 0 <= j < gs.len ==> gs.arr[j].members.arr == arrays[j] && gs.arr[j].members.Valid()
      invariant forall j :: 0 <= j < i ==> gs.arr[j].Value() == DropMember(old(gs.arr[j].Value()), id)
      invariant forall j :: 0 <= j < i ==> SameEnd(arrays[j][..], old(arrays[j][..]), gs.arr[j].members.len)
      invariant forall j :: i <= j < gs.len ==> gs.arr[j].Value() == old(gs.arr[j].Value()) && arrays[j][..] == old(arrays[j][..])
    {
      DropOne(gs, i, id, arrays);
    }
  }

  method DropOne(gs: Slice<GroupCell>, i: nat, id: string, ghost arrays: seq<array<string>>)
    requires gs.Valid() && i < gs.len == |arrays|
    requires forall j :: 0 <= j < gs.len ==> gs.arr[j].members.arr == arrays[j] && gs.arr[j].members.Valid()
    requires forall j :: 0 <= j < gs.len ==> arrays[j] as object != gs.arr as object
    requires forall j, k :: 0 <= j < k < gs.len ==> arrays[j] != arrays[k]
    modifies gs.arr, arrays[i]
    ensures forall j :: 0 <= j < gs.len ==> gs.arr[j].members.arr == arrays[j] && gs.arr[j].members.Valid()
    ensures gs.arr[i].Value() == DropMember(old(gs.arr[i].Value()), id)
    ensures SameEnd(arrays[i][..], old(arrays[i][..]), gs.arr[i].members.len)
    ensures forall j :: 0 <= j < gs.len && j != i ==> gs.arr[j] == old(gs.arr[j]) && gs.arr[j].Value() == old(gs.arr[j].Value())
  {
    var g := gs.arr[i];
    var kept, _ := Compact(g.members, OtherThan(id));
    gs.arr[i] := g.(members := kept);
    assert arrays[i][..][kept.len..] == old(arrays[i][..])[kept.len..];
  }

  /** A cell with a member array of its own keeps the list sound. */
  lemma PlaceCell(cells: seq<GroupCell>, i: nat, c: GroupCell)
    requires CellsSound(cells) && c.members.Valid() && i <= |cells|
    requires forall j :: 0 <= j < |cells| && j != i ==> cells[j].members.arr != c.members.arr
    ensures CellsSound(PutAt(cells, i, c))
    ensures forall a :: a in MemberArrays(PutAt(cells, i, c)) ==> a in MemberArrays(cells) || a == c.members.arr
    ensures CellValues(PutAt(cells, i, c)) == PutAt(CellValues(cells), i, c.Value())
  {
    hide CellValues, MemberArrays;
    assert forall j :: 0 <= j < |cells| ==> cells[j].members.arr == MemberArrays(cells)[j];
  }

  /** Filtering the cells is filtering the groups. */
  lemma {:induction false} CellsFilterAsValues(cells: seq<GroupCell>, id: string)
    requires CellsSound(cells)
    ensures var kept := Filter(cells, OtherCell(id));
            && CellsSound(kept) && (forall a :: a in MemberArrays(kept) ==> a in MemberArrays(cells))
            && CellValues(kept) == WithoutGroup(CellValues(cells), id)
  {
    if cells != [] {
      var n := |cells| - 1;
      CellsFilterAsValues(cells[..n], id);
      FilterLast(cells, id);
      hide Filter, WithoutGroup, CellValues, MemberArrays;
      if cells[n].id != id { AppendCell(Filter(cells[..n], OtherCell(id)), cells[n]); }
    }
  }

  /** What the last cell adds to both filters. */
  lemma FilterLast(cells: seq<GroupCell>, id: string)
    requires CellsSound(cells) && cells != []
    ensures var n := |cells| - 1;
            var last, front := cells[n], cells[..n];
            && Filter(cells, OtherCell(id)) == Filter(front, OtherCell(id)) + (if last.id != id then [last] else [])
            && WithoutGroup(CellValues(cells), id) == WithoutGroup(CellValues(front), id) + (if last.id != id then [last.Value()] else [])
            && MemberArrays(cells) == MemberArrays(front) + [last.members.arr] && last.members.arr !in MemberArrays(front)
  {
    var n := |cells| - 1;
    assert CellValues(cells)[..n] == CellValues(cells[..n]);
    assert forall i :: 0 <= i < n ==> MemberArrays(cells[..n])[i] == cells[i].members.arr;
  }

  lemma AppendCell(cells: seq<GroupCell>, last: GroupCell)
    requires CellsSound(cells) && last.members.Valid() && last.members.arr !in MemberArrays(cells)
    ensures CellsSound(cells + [last]) && CellValues(cells + [last]) == CellValues(cells) + [last.Value()]
    ensures MemberArrays(cells + [last]) == MemberArrays(cells) + [last.members.arr]
  {
    hide CellValues, MemberArrays;
    assert forall i :: 0 <= i < |cells| ==> cells[i].members.arr == MemberArrays(cells)[i];
  }
}
