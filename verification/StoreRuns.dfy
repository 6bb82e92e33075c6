/** The store's methods over whole runs, and what callers keep in hand meanwhile: copies outlive every later operation,
    the member slice handed to an upsert does not. */
module StoreRuns {
  import opened Text
  import opened Config
  import opened Slices
  import opened Store
  import opened StoreModel

  ghost function ListsOf(s: ConfigStore): Lists
    requires s.Valid()
    reads s, s.devices.arr, s.groups.arr, MemberArrays(s.groups.Elems()), s.schedules.arr
  {
    Lists(s.Devices(), s.Groups(), s.Schedules())
  }

  /** The backing arrays of the lists and of the member slices. */
  ghost function Backing(s: ConfigStore): set<object>
    requires s.groups.Valid()
    reads s, s.groups.arr
  {
    var arrays: set<array<string>> := set a | a in MemberArrays(s.groups.Elems());
    var members: set<object> := arrays;
    {s.devices.arr as object, s.groups.arr as object, s.schedules.arr as object} + members
  }

  /** The operations that get as far as saving: what is put is complete, what is dropped or marked is there. */
  predicate Saves(l: Lists, op: Op) {
    match op
    case PutDevice(d, now, freshId) => StoredDevice(l.devices, d, now, freshId).Done?
    case DropDevice(id) => id in DeviceIds(l.devices)
    case PutGroup(g, now, freshId) => StoredGroup(l.groups, g, now, freshId).Done?
    case DropGroup(id) => id in GroupIds(l.groups)
    case PutSchedule(sc, now, freshId) => StoredSchedule(l.schedules, sc, now, freshId).Done?
    case DropSchedule(id) => id in ScheduleIds(l.schedules)
    case MarkRun(id, _) => id in ScheduleIds(l.schedules)
  }

  /** Operation n of the run is saved. */
  predicate SavedAt(l: Lists, ops: seq<Op>, ios: seq<IO>, n: nat)
    requires |ios| == |ops|
  {
    n < |ops| && ios[n].Succeeds? && Saves(Run(l, ops[..n]), ops[n])
  }

  /** The operation that was saved last. */
  function LastSave(l: Lists, ops: seq<Op>, ios: seq<IO>): (k: Option<nat>)
    requires |ios| == |ops|
    ensures k.Some? ==> k.value < |ops|
  {
    if ops == [] then None
    else if SavedAt(l, ops, ios, |ops| - 1) then Some(|ops| - 1)
    else LastSave(l, ops[..|ops| - 1], ios[..|ops| - 1])
  }

  lemma {:induction false} LastSaveIs(l: Lists, ops: seq<Op>, ios: seq<IO>)
    requires |ios| == |ops|
    ensures var k := LastSave(l, ops, ios);
            && (k.Some? ==> SavedAt(l, ops, ios, k.value))
            && forall n: nat :: n < |ops| && (k.None? || k.value < n) ==> !SavedAt(l, ops, ios, n)
  {
    hide Run, Step, Saves;
    if ops != [] {
      var n := |ops| - 1;
      LastSaveIs(l, ops[..n], ios[..n]);
      forall m: nat | m < n ensures SavedAt(l, ops[..n], ios[..n], m) == SavedAt(l, ops, ios, m) { SavedInFront(l, ops, ios, m); }
      hide SavedAt;
    }
  }

  lemma SavedInFront(l: Lists, ops: seq<Op>, ios: seq<IO>, m: nat)
    requires |ios| == |ops| && m < |ops| - 1
    ensures SavedAt(l, ops[..|ops| - 1], ios[..|ops| - 1], m) == SavedAt(l, ops, ios, m)
  {
    assert ops[..|ops| - 1][..m] == ops[..m];
  }

  /** The file after a run that started with this memory and file. */
  function FileAfter(memory: File, file: File, ops: seq<Op>, ios: seq<IO>): File
    requires |ios| == |ops|
  {
    var k := LastSave(memory.lists, ops, ios);
    if k.None? then file else memory.(lists := Run(memory.lists, ops[..k.value + 1]))
  }

  lemma FileMore(memory: File, file: File, ops: seq<Op>, ios: seq<IO>, op: Op, io: IO)
    requires |ios| == |ops|
    ensures var l := Run(memory.lists, ops);
            FileAfter(memory, file, ops + [op], ios + [io]) ==
            if io.Succeeds? && Saves(l, op) then memory.(lists := Step(l, op)) else FileAfter(memory, file, ops, ios)
  {
    hide Step, Saves, Run;
    var n := |ops|;
    var more, moreIos := ops + [op], ios + [io];
    assert more[..n] == ops && moreIos[..n] == ios && more[..n + 1] == more;
    RunMore(memory.lists, ops, op);
    var k := LastSave(memory.lists, ops, ios);
    if k.Some? { assert more[..k.value + 1] == ops[..k.value + 1]; }
  }

  /** A group in a cell with a member slice of its own. */
  method NewCell(g: Group) returns (c: GroupCell)
    ensures c.members.Valid() && fresh(c.members.arr) && c.Value() == g && c.id == g.id
  {
    var arr := new string[|g.deviceIDs|](i requires 0 <= i < |g.deviceIDs| => g.deviceIDs[i]);
    c := GroupCell(g.id, g.name, Slice(arr, arr.Length), g.createdAt, g.updatedAt);
  }

  method PlayGroup(s: ConfigStore, g: Group, now: int, freshId: string, io: IO)
    requires s.Valid()
    modifies s`groups, s`disk, s.groups.arr
    ensures s.Valid() && ListsOf(s) == Step(old(ListsOf(s)), PutGroup(g, now, freshId)) && fresh(Backing(s) - old(Backing(s)))
    ensures s.disk == if io.Succeeds? && Saves(old(ListsOf(s)), PutGroup(g, now, freshId)) then s.Memory() else old(s.disk)
  {
    hide CellValues, MemberArrays, StoredGroup, WithGroup;
    var c := NewCell(g);
    CellsKept(s.groups.Elems());
    var _ := s.UpsertGroup(c, now, freshId, io);
  }

  method PlayDropDevice(s: ConfigStore, id: string, io: IO)
    requires s.Valid()
    modifies s, Backing(s)
    ensures s.Valid() && ListsOf(s) == Step(old(ListsOf(s)), DropDevice(id)) && Backing(s) == old(Backing(s))
    ensures s.disk == if io.Succeeds? && Saves(old(ListsOf(s)), DropDevice(id)) then s.Memory() else old(s.disk)
    ensures s.version == old(s.version) && s.settings == old(s.settings)
  {
    hide CellValues, MemberArrays, Filter, WithoutDevice, DropMembers;
    assert forall i :: 0 <= i < |MemberArrays(s.groups.Elems())| ==> MemberArrays(s.groups.Elems())[i] as object in Backing(s);
    var _ := s.DeleteDevice(id, io);
  }

  method PlayScheduleOp(s: ConfigStore, op: Op, io: IO)
    requires s.Valid() && (op.PutSchedule? || op.DropSchedule? || op.MarkRun?)
    modifies s`schedules, s`disk, s.schedules.arr
    ensures s.Valid() && ListsOf(s) == Step(old(ListsOf(s)), op) && fresh(Backing(s) - old(Backing(s)))
    ensures s.disk == if io.Succeeds? && Saves(old(ListsOf(s)), op) then s.Memory() else old(s.disk)
    ensures s.version == old(s.version) && s.settings == old(s.settings)
  {
    hide CellValues, MemberArrays, StoredSchedule, WithSchedule, Filter, Marked;
    ghost var l := ListsOf(s);
    match op
    case PutSchedule(sc, now, freshId) => var _ := s.UpsertSchedule(sc, now, freshId, io);
    case DropSchedule(id) =>
      FilterIds(l.schedules, OtherSchedule(id), ScheduleIds(l.schedules), id);
      var _ := s.DeleteSchedule(id, io);
    case MarkRun(id, day) => var _ := s.MarkScheduleRun(id, day, io);
    CellsKept(s.groups.Elems());
  }

  /** One operation, as a method call. */
  method Play(s: ConfigStore, op: Op, io: IO)
    requires s.Valid()
    modifies s, Backing(s)
    ensures s.Valid() && ListsOf(s) == Step(old(ListsOf(s)), op) && fresh(Backing(s) - old(Backing(s)))
    ensures s.disk == if io.Succeeds? && Saves(old(ListsOf(s)), op) then s.Memory() else old(s.disk)
    ensures s.version == old(s.version) && s.settings == old(s.settings)
  {
    hide CellValues, MemberArrays, StoredDevice, WithDevice, StoredSchedule, WithSchedule, Filter, WithoutDevice, DropMembers, Marked;
    ghost var l := ListsOf(s);
    match op
    case PutDevice(d, now, freshId) => var _ := s.UpsertDevice(d, now, freshId, io);
    case DropDevice(id) => PlayDropDevice(s, id, io);
    case PutGroup(g, now, freshId) => PlayGroup(s, g, now, freshId, io);
    case DropGroup(id) =>
      FilterIds(l.groups, OtherGroup(id), GroupIds(l.groups), id);
      var _ := s.DeleteGroup(id, io);
    case _ => PlayScheduleOp(s, op, io);
  }

  /** Any sequence of operations: the lists end as the run of the operations says, and the file as memory was after the
      last operation that was saved. */
  method PlayAll(s: ConfigStore, ops: seq<Op>, ios: seq<IO>)
    requires s.Valid() && |ios| == |ops|
    modifies s, Backing(s)
    ensures s.Valid() && fresh(Backing(s) - old(Backing(s)))
    ensures ListsOf(s) == Run(old(ListsOf(s)), ops) && s.disk == FileAfter(old(s.Memory()), old(s.disk), ops, ios)
    ensures s.version == old(s.version) && s.settings == old(s.settings)
  {
    hide CellValues, MemberArrays, Step, Run, FileAfter, Saves, Backing;
    ghost var news: set<object> := {};
    ghost var memory, file := s.Memory(), s.disk;
    NothingRun(memory, file);
    for i := 0 to |ops|
      invariant s.Valid() && Backing(s) <= old(Backing(s)) + news && forall x :: x in news ==> fresh(x)
      invariant s.Memory() == memory.(lists := Run(memory.lists, ops[..i]))
      invariant s.disk == FileAfter(memory, file, ops[..i], ios[..i])
    {
      ghost var before := Backing(s);
      label turn:
      Play(s, ops[i], ios[i]);
      assert forall x :: x in Backing(s) - before ==> fresh@turn(x);
      news := news + (Backing(s) - before);
      assert ops[..i + 1] == ops[..i] + [ops[i]] && ios[..i + 1] == ios[..i] + [ios[i]];
      RunMore(memory.lists, ops[..i], ops[i]);
      FileMore(memory, file, ops[..i], ios[..i], ops[i], ios[i]);
    }
    assert ops[..|ops|] == ops && ios[..|ops|] == ios;
  }

  lemma NothingRun(memory: File, file: File)
    ensures memory.(lists := Run(memory.lists, [])) == memory && FileAfter(memory, file, [], []) == file
  {
  }

  /** And nothing else is written to. */
  method PlayBeside(s: ConfigStore, ops: seq<Op>, ios: seq<IO>, ghost others: set<object>)
    requires s.Valid() && |ios| == |ops| && others !! Backing(s) && s !in others
    modifies s, Backing(s)
    ensures s.Valid() && ListsOf(s) == Run(old(ListsOf(s)), ops)
    ensures forall o :: o in others ==> unchanged(o)
  {
    hide CellValues, MemberArrays, Run, Backing, ListsOf;
    PlayAll(s, ops, ios);
  }

  /** The copies a caller may have in hand. */
  datatype Copies = Copies(devices: Slice<Device>, groups: Slice<GroupCell>, schedules: Slice<Schedule>)

  ghost predicate Sound(c: Copies)
    reads c.groups.arr
  {
    c.devices.Valid() && c.groups.Valid() && CellsSound(c.groups.Elems()) && c.schedules.Valid()
  }

  ghost function ReadCopies(c: Copies): Lists
    requires Sound(c)
    reads c.devices.arr, c.groups.arr, MemberArrays(c.groups.Elems()), c.schedules.arr
  {
    Lists(c.devices.Elems(), CellValues(c.groups.Elems()), c.schedules.Elems())
  }

  /** Whatever operations follow, in whatever number and with whatever success of the saves: a snapshot, listed devices,
      groups and schedules, and a single group taken before read as they did then. */
  method CopiesOutliveAll(s: ConfigStore, groupId: string, ops: seq<Op>, ios: seq<IO>)
    returns (snapshot: Copies, listed: Copies, one: Option<GroupCell>)
    requires s.Valid() && |ios| == |ops|
    modifies s, Backing(s)
    ensures Sound(snapshot) && ReadCopies(snapshot) == old(ListsOf(s))
    ensures Sound(listed) && ReadCopies(listed) == old(ListsOf(s))
    ensures one.Some? ==> one.value.members.Valid()
    ensures (if one.None? then None else Some(one.value.Value())) == FindGroup(old(s.Groups()), groupId)
    ensures s.Valid() && ListsOf(s) == Run(old(ListsOf(s)), ops)
  {
    hide CellValues, MemberArrays, Run, FindGroup, ReadCopies, ArraysOf, Backing, ListsOf;
    snapshot, listed, one := TakeCopies(s, groupId);
    label taken:
    PlayBeside(s, ops, ios, ArraysOf(snapshot) + ArraysOf(listed));
    CopiesKept@taken(snapshot);
    CopiesKept@taken(listed);
  }

  method TakeCopies(s: ConfigStore, groupId: string) returns (snapshot: Copies, listed: Copies, one: Option<GroupCell>)
    requires s.Valid()
    ensures Sound(snapshot) && ReadCopies(snapshot) == old(ListsOf(s)) && ArraysOf(snapshot) !! Backing(s)
    ensures Sound(listed) && ReadCopies(listed) == old(ListsOf(s)) && ArraysOf(listed) !! Backing(s)
    ensures one.Some? ==> one.value.members.Valid() && one.value.members.arr as object !in Backing(s)
    ensures (if one.None? then None else Some(one.value.Value())) == FindGroup(old(s.Groups()), groupId)
    ensures ListsOf(s) == old(ListsOf(s)) && s !in ArraysOf(snapshot) + ArraysOf(listed)
  {
    hide CellValues, MemberArrays, FindGroup, ReadCopies;
    snapshot := SnapshotCopies(s);
    label snapped:
    listed := ListCopies(s);
    label both:
    CellsKept(s.groups.Elems());
    one := s.GetGroup(groupId);
    CopiesKept@snapped(snapshot);
    CopiesKept@both(listed);
    CellsKept(s.groups.Elems());
  }

  method SnapshotCopies(s: ConfigStore) returns (c: Copies)
    requires s.Valid()
    ensures Sound(c) && ReadCopies(c) == ListsOf(s) && fresh(ArraysOf(c))
  {
    hide CellValues, MemberArrays;
    var ds, gs, ss := s.Snapshot();
    CellsKept(s.groups.Elems());
    c := Copies(ds, gs, ss);
  }

  method ListCopies(s: ConfigStore) returns (c: Copies)
    requires s.Valid()
    ensures Sound(c) && ReadCopies(c) == ListsOf(s) && fresh(ArraysOf(c))
  {
    hide CellValues, MemberArrays;
    var ds := s.ListDevices();
    var ss := s.ListSchedules();
    CellsKept(s.groups.Elems());
    var gs := s.ListGroups();
    CellsKept(s.groups.Elems());
    c := Copies(ds, gs, ss);
  }

  ghost function ArraysOf(c: Copies): set<object>
    requires c.groups.Valid()
    reads c.groups.arr
  {
    var arrays: set<array<string>> := set a | a in MemberArrays(c.groups.Elems());
    var members: set<object> := arrays;
    {c.devices.arr as object, c.groups.arr as object, c.schedules.arr as object} + members
  }

  /** Copies that nothing has written to read the same. */
  twostate lemma CopiesKept(c: Copies)
    requires old(Sound(c)) && forall o :: o in old(ArraysOf(c)) ==> unchanged(o)
    ensures Sound(c) && ReadCopies(c) == old(ReadCopies(c))
  {
    assert c.devices.arr as object in old(ArraysOf(c)) && c.groups.arr as object in old(ArraysOf(c)) && c.schedules.arr as object in old(ArraysOf(c));
    assert unchanged(c.devices.arr) && unchanged(c.groups.arr) && unchanged(c.schedules.arr);
    assert c.groups.Elems() == old(c.groups.Elems());
    assert forall a :: a in MemberArrays(c.groups.Elems()) ==> a as object in old(ArraysOf(c));
    CellsKept(c.groups.Elems());
  }

  // -- the member slice handed to an upsert --

  lemma ReadThrough(whole: seq<string>, before: seq<string>, len: nat, kept: seq<string>)
    requires |kept| <= len <= |whole| && whole[..|kept|] == kept && SameEnd(whole, before, |kept|)
    ensures whole[..len] == kept + before[..len][|kept|..]
  {
    assert forall k :: |kept| <= k < len ==> whole[k] == whole[|kept|..][k - |kept|] == before[k];
  }

  /** Deleting a device, seen through a member slice that the group at position i shares. */
  method DeleteSeen(s: ConfigStore, ghost i: nat, members: Slice<string>, device: string, io: IO)
    requires s.Valid() && i < s.groups.len && s.groups.arr[i].members == members
    modifies s, Backing(s)
    ensures members.Valid()
    ensures members.Elems() ==
            if device in DeviceIds(old(s.Devices())) then SeenAfter(old(members.Elems()), OtherThan(device)) else old(members.Elems())
  {
    hide CellValues, MemberArrays, Filter, WithoutDevice, DropMembers, ArrayTexts;
    ghost var before, arrays := members.Elems(), MemberArrays(s.groups.Elems());
    assert forall k :: 0 <= k < |arrays| ==> arrays[k] as object in Backing(s);
    assert s.Groups()[i] == s.groups.Elems()[i].Value() && s.groups.Elems()[i] == s.groups.arr[i] && arrays[i] == members.arr;
    ghost var found := device in DeviceIds(s.Devices());
    var _ := s.DeleteDevice(device, io);
    if found {
      ghost var cell := s.groups.arr[i];
      assert s.groups.Elems()[i] == cell && cell.members.arr == members.arr;
      assert s.Groups()[i] == cell.Value();
      ReadThrough(members.arr[..], old(members.arr[..]), members.len, cell.members.Elems());
    }
  }

  /** The store keeps the caller's member slice. If the group is stored and the device then deleted, the caller reads
      the compacted members followed by the old end, which is what it read before exactly when the deleted id stood
      at the end only; in every other case it reads what it did. */
  method CallerSeesCompaction(s: ConfigStore, g: GroupCell, now: int, freshId: string, device: string, io: IO, io2: IO)
    requires s.Valid() && g.members.Valid() && g.members.arr as object !in Backing(s)
    modifies s, Backing(s), g.members.arr
    ensures g.members.Valid()
    ensures var before := old(g.members.Elems());
            if StoredGroup(old(s.Groups()), old(g.Value()), now, freshId).Done? && device in DeviceIds(old(s.Devices())) then
              && g.members.Elems() == SeenAfter(before, OtherThan(device))
              && (g.members.Elems() == before <==> OnlyTrailing(before, OtherThan(device)))
            else g.members.Elems() == before
  {
    hide CellValues, MemberArrays, StoredGroup, SeenAfter, DeviceIds, Backing, ListsOf, Step;
    SeenSameIff(g.members.Elems(), OtherThan(device));
    var stored, i := HandOver(s, g, now, freshId, io);
    if stored {
      DeleteSeen(s, i, g.members, device, io2);
    } else {
      PlayDropDevice(s, device, io2);
    }
  }

  /** An upsert of a group with a member slice of the caller's own; the position where the slice is stored. */
  method HandOver(s: ConfigStore, g: GroupCell, now: int, freshId: string, io: IO) returns (stored: bool, ghost i: nat)
    requires s.Valid() && g.members.Valid() && g.members.arr as object !in Backing(s)
    modifies s, Backing(s)
    ensures s.Valid() && s.Devices() == old(s.Devices())
    ensures stored <==> StoredGroup(old(s.Groups()), old(g.Value()), now, freshId).Done?
    ensures stored ==> i < s.groups.len && s.groups.arr[i].members == g.members && fresh(Backing(s) - old(Backing(s)) - {g.members.arr})
    ensures !stored ==> Backing(s) == old(Backing(s))
  {
    hide CellValues, MemberArrays, StoredGroup, WithGroup, GroupIds;
    OwnSliceIsFree(s, g.members);
    i := Slot(GroupIds(s.Groups()), g.id);
    var r := s.UpsertGroup(g, now, freshId, io);
    stored := r.Done? || r.fault.SaveFailed?;
  }

  lemma OwnSliceIsFree(s: ConfigStore, members: Slice<string>)
    requires s.Valid() && members.Valid() && members.arr as object !in Backing(s)
    ensures forall i :: s.Free(members, i)
  {
    forall j | 0 <= j < s.groups.len ensures s.groups.arr[j].members.arr != members.arr {
      var arrays := MemberArrays(s.groups.Elems());
      assert s.groups.arr[j] == s.groups.Elems()[j] && arrays[j] in arrays;
    }
  }
}
