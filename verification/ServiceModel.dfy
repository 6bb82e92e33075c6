/** The device service: what its operations do to the device list and to the topic map together, and when the edited
    map is still the one a recomputation from the device list would give. */
module ServiceModel {
  import opened Text
  import opened Config
  import opened BemfaModel
  import opened StoreModel

  datatype World = World(devices: seq<Device>, topics: Topics)

  /** Everything a call meets that the service does not decide: settings, manager, broker, clock, random id, disk. */
  datatype Env = Env(uidSet: bool, uid: string, live: bool, net: Net, generated: string,
                     now: int, later: int, freshId: string, firstSave: bool, secondSave: bool)

  datatype Why = UnknownDevice | UidMissing | TopicInvalid | NotStored(fault: Fault) | NotEnsured(cause: Refusal)
               | ClientOffline | NoMac

  datatype Answer = Answered(device: Device) | Refused(why: Why)

  datatype Result = Result(world: World, answer: Answer)

  // -- checking a request --

  function Normalized(d: Device): (r: Device)
    ensures r.id == d.id && r.bemfaEnable == d.bemfaEnable && r.bemfaTopic == Canonical(d.bemfaTopic)
    ensures r.boundClientKey == Trim(d.boundClientKey) && r.mac == Trim(d.mac) && r.name == Trim(d.name)
  {
    d.(name := Trim(d.name), mac := Trim(d.mac), broadcast := Trim(d.broadcast),
       bemfaTopic := Canonical(d.bemfaTopic), bemfaName := Trim(d.bemfaName),
       boundClientKey := Trim(d.boundClientKey), preferredNIC := Trim(d.preferredNIC), probeHost := Trim(d.probeHost),
       probeMethod := ProbeMethod(d.probeMethod),
       port := if d.port <= 0 then 9 else d.port,
       repeats := if d.repeats <= 0 then 3 else d.repeats)
  }

  function Validated(d: Device, uidSet: bool): Option<Why> {
    if !d.bemfaEnable then None
    else if !uidSet then Some(UidMissing)
    else if d.bemfaTopic != "" && !ValidTopic(d.bemfaTopic) then Some(TopicInvalid)
    else None
  }

  // -- the operations --

  /** Subscribes a stored device and stores it again with the topic it ended up with. */
  function Finish(w: World, saved: Device, storeOnError: bool, e: Env): Result {
    var ensured := Ensure(w.topics, saved, e.uid, e.live, e.net, e.generated);
    var stored := StoredDevice(w.devices, ensured.device, e.later, e.freshId);
    var devices := if stored.Done? then WithDevice(w.devices, ensured.device.id, stored.value) else w.devices;
    if ensured.error.Some? then
      Result(World(if storeOnError then devices else w.devices, ensured.topics), Refused(NotEnsured(ensured.error.value)))
    else
      Result(World(devices, ensured.topics),
             if stored.Fail? then Refused(NotStored(stored.fault))
             else if e.secondSave then Answered(stored.value) else Refused(NotStored(SaveFailed)))
  }

  function StoreAndFinish(w: World, d: Device, storeOnError: bool, e: Env): Result {
    var stored := StoredDevice(w.devices, d, e.now, e.freshId);
    if stored.Fail? then Result(w, Refused(NotStored(stored.fault)))
    else
      var after := w.(devices := WithDevice(w.devices, d.id, stored.value));
      if !e.firstSave then Result(after, Refused(NotStored(SaveFailed)))
      else Finish(after, stored.value, storeOnError, e)
  }

  function Create(w: World, d: Device, e: Env): Result {
    var d := Normalized(d.(id := ""));
    var why := Validated(d, e.uidSet);
    if why.Some? then Result(w, Refused(why.value)) else StoreAndFinish(w, d, true, e)
  }

  /** An update takes the old topic out of the map when the request names another one or disables the device. */
  predicate Releases(was: Device, d: Device) {
    was.bemfaTopic != "" && (was.bemfaTopic != d.bemfaTopic || !d.bemfaEnable)
  }

  function Requested(was: Device, d: Device): Device {
    Normalized(d.(id := was.id, createdAt := if d.createdAt == 0 then was.createdAt else d.createdAt))
  }

  function Update(w: World, id: string, d: Device, e: Env): Result {
    var found := FindDevice(w.devices, id);
    if found.None? then Result(w, Refused(UnknownDevice)) else UpdateFound(w, found.value, d, e)
  }

  function UpdateFound(w: World, was: Device, d: Device, e: Env): Result {
    var q := Requested(was, d);
    var why := Validated(q, e.uidSet);
    if why.Some? then Result(w, Refused(why.value))
    else StoreAndFinish(if Releases(was, q) then w.(topics := Removed(w.topics, was)) else w, q, false, e)
  }

  /** A delete of an unknown device changes nothing. */
  function Delete(w: World, id: string): World {
    var found := FindDevice(w.devices, id);
    if found.None? then w else World(WithoutDevice(w.devices, id), Removed(w.topics, found.value))
  }

  // -- what a successful subscription does --

  lemma EnsureEnabled(topics: Topics, s: Device, e: Env)
    requires s.bemfaEnable && Ensure(topics, s, e.uid, e.live, e.net, e.generated).error.None?
    ensures ValidTopic(ChosenTopic(s, e.generated))
    ensures Ensure(topics, s, e.uid, e.live, e.net, e.generated) == SubscribeAs(topics, s, ChosenTopic(s, e.generated), e.net)
  {
  }

  /** The topic a request ends up with. */
  function FinalTopic(d: Device, generated: string): string {
    if d.bemfaEnable then ChosenTopic(d, generated) else d.bemfaTopic
  }

  /** What the map says about topic t once device n has been subscribed or, when it is disabled, unsubscribed. */
  function LookupAfter(topics: Topics, n: Device, t: string): Option<string> {
    if t != n.bemfaTopic then Lookup(topics, t)
    else if n.bemfaEnable then Some(n.id)
    else if t == "" then Lookup(topics, t)
    else None
  }

  ghost predicate Edited(before: Topics, after: Topics, n: Device) {
    forall t :: Lookup(after, t) == LookupAfter(before, n, t)
  }

  lemma SubscribeEffect(topics: Topics, s: Device, topic: string, net: Net)
    requires s.bemfaEnable && SubscribeAs(topics, s, topic, net).error.None?
    ensures var r := SubscribeAs(topics, s, topic, net);
            Edited(topics, r.topics, r.device)
  {
  }

  lemma EnsureEffect(topics: Topics, s: Device, e: Env)
    requires Ensure(topics, s, e.uid, e.live, e.net, e.generated).error.None?
    ensures var r := Ensure(topics, s, e.uid, e.live, e.net, e.generated);
            Edited(topics, r.topics, r.device)
  {
    if s.bemfaEnable {
      EnsureEnabled(topics, s, e);
      SubscribeEffect(topics, s, ChosenTopic(s, e.generated), e.net);
    } else {
      assert Edited(topics, Removed(topics, s), s);
    }
  }

  lemma EnsuredDevice(topics: Topics, s: Device, e: Env)
    requires Ensure(topics, s, e.uid, e.live, e.net, e.generated).error.None?
    ensures Ensure(topics, s, e.uid, e.live, e.net, e.generated).device == s.(bemfaTopic := FinalTopic(s, e.generated))
  {
    if s.bemfaEnable { EnsureEnabled(topics, s, e); }
  }

  lemma FinishEffect(w: World, saved: Device, storeOnError: bool, e: Env)
    requires Finish(w, saved, storeOnError, e).answer.Answered? && saved.id != ""
    ensures var r := Finish(w, saved, storeOnError, e);
            var n := r.answer.device;
            && n.id == saved.id && n.bemfaEnable == saved.bemfaEnable && n.bemfaTopic == FinalTopic(saved, e.generated)
            && r.world.devices == WithDevice(w.devices, saved.id, n)
            && Edited(w.topics, r.world.topics, n)
  {
    hide Blank, LastHolder;
    EnsureEffect(w.topics, saved, e);
    EnsuredDevice(w.topics, saved, e);
  }

  /** Storing a record again under the id it was given overwrites it. */
  lemma StoreTwice(ds: seq<Device>, requested: string, first: Device, second: Device)
    requires var ids := DeviceIds(ds);
             Distinct(ids) && if requested == "" then first.id != "" && first.id !in ids else first.id == requested && requested in ids
    ensures WithDevice(WithDevice(ds, requested, first), first.id, second) == WithDevice(ds, requested, second)
  {
    var after := WithDevice(ds, requested, first);
    var i := Slot(DeviceIds(ds), requested);
    assert DeviceIds(after) == PutAt(DeviceIds(ds), i, first.id);
    IndexIs(DeviceIds(after), first.id, i);
  }

  lemma StoredFields(ds: seq<Device>, d: Device, now: int, freshId: string)
    requires StoredDevice(ds, d, now, freshId).Done?
    ensures var s := StoredDevice(ds, d, now, freshId).value;
            && s.id == (if d.id == "" then freshId else d.id)
            && s.bemfaEnable == d.bemfaEnable && s.bemfaTopic == d.bemfaTopic
  {
  }

  /** What StoreAndFinish does to the lists and the map when it succeeds. */
  lemma StoreAndFinishEffect(w: World, d: Device, storeOnError: bool, e: Env)
    requires StoreAndFinish(w, d, storeOnError, e).answer.Answered?
    requires var ids := DeviceIds(w.devices);
             Distinct(ids) && if d.id == "" then e.freshId != "" && e.freshId !in ids else d.id in ids
    ensures var r := StoreAndFinish(w, d, storeOnError, e);
            var n := r.answer.device;
            && n.id == (if d.id == "" then e.freshId else d.id)
            && n.bemfaEnable == d.bemfaEnable && n.bemfaTopic == FinalTopic(d, e.generated)
            && r.world.devices == WithDevice(w.devices, d.id, n)
            && Edited(w.topics, r.world.topics, n)
  {
    hide Trim, Canonical, NormalizeTopic, ValidTopic, Normalized, NormalizeDevice;
    var stored := StoredDevice(w.devices, d, e.now, e.freshId).value;
    StoredFields(w.devices, d, e.now, e.freshId);
    var after := w.(devices := WithDevice(w.devices, d.id, stored));
    FinishEffect(after, stored, storeOnError, e);
    StoreTwice(w.devices, d.id, stored, StoreAndFinish(w, d, storeOnError, e).answer.device);
  }

  // -- when the edited map is the recomputed one --

  ghost predicate Held(ds: seq<Device>, t: string) {
    exists j: nat :: j < |ds| && Holds(ds[j], t)
  }

  ghost predicate HeldByAnother(ds: seq<Device>, i: nat, t: string) {
    exists j: nat :: j < |ds| && j != i && Holds(ds[j], t)
  }

  ghost predicate HeldLater(ds: seq<Device>, i: nat, t: string) {
    exists j: nat :: i < j < |ds| && Holds(ds[j], t)
  }

  lemma LastIs(ds: seq<Device>, t: string, j: nat)
    requires j < |ds| && Holds(ds[j], t) && !HeldLater(ds, j, t)
    ensures WantedId(ds, t) == Some(ds[j].id)
  {
    hide Holds, LastHolder;
    var k := LastHolder(ds, t);
    HolderHolds(ds, t);
    if k.None? || j > k.value { NoHolderAfter(ds, t, j); }
    assert k.Some? && !(k.value > j);
  }

  lemma NoOwner(ds: seq<Device>, t: string)
    ensures WantedId(ds, t).None? <==> !Held(ds, t)
  {
    hide Holds, LastHolder;
    var k := LastHolder(ds, t);
    HolderHolds(ds, t);
    if k.None? {
      forall j: nat | j < |ds| ensures !Holds(ds[j], t) { NoHolderAfter(ds, t, j); }
    }
  }

  /** A later holder keeps t, and a device that never held it does not matter. */
  lemma OwnerKept(ds: seq<Device>, i: nat, n: Device, t: string)
    requires i < |ds| && (HeldLater(ds, i, t) || (!Holds(n, t) && !Holds(ds[i], t)))
    ensures WantedId(ds[i := n], t) == WantedId(ds, t)
  {
    hide Blank, LastHolder;
    var after := ds[i := n];
    var k := LastHolder(ds, t);
    HolderHolds(ds, t);
    if HeldLater(ds, i, t) {
      var j: nat :| i < j < |ds| && Holds(ds[j], t);
      if k.None? || k.value < j { NoHolderAfter(ds, t, j); }
      assert k.Some? && i < k.value;
    }
    forall j: nat | j < |ds| && (k.None? || k.value < j) ensures !Holds(after[j], t) {
      NoHolderAfter(ds, t, j);
    }
    if k.None? {
      NoOwner(after, t);
    } else {
      assert k.value != i;
      LastIs(after, t, k.value);
    }
  }

  /** Device i does not hold t afterwards: nobody owns it exactly when no other device holds it. */
  lemma OwnerLost(ds: seq<Device>, i: nat, n: Device, t: string)
    requires i < |ds| && !Holds(n, t)
    ensures WantedId(ds[i := n], t).None? <==> !HeldByAnother(ds, i, t)
  {
    hide Holds, LastHolder;
    var after := ds[i := n];
    NoOwner(after, t);
    assert forall j: nat :: j < |ds| && j != i ==> after[j] == ds[j];
    if HeldByAnother(ds, i, t) {
      var j: nat :| j < |ds| && j != i && Holds(ds[j], t);
      assert Holds(after[j], t);
    }
  }

  /** With distinct ids, device i owns t exactly when it is the last holder. */
  lemma OwnsIff(ds: seq<Device>, i: nat, t: string)
    requires i < |ds| && Distinct(DeviceIds(ds))
    ensures WantedId(ds, t) == Some(ds[i].id) <==> Holds(ds[i], t) && !HeldLater(ds, i, t)
  {
    hide Blank, LastHolder;
    var k := LastHolder(ds, t);
    HolderHolds(ds, t);
    if k.Some? {
      assert DeviceIds(ds)[k.value] == ds[k.value].id && DeviceIds(ds)[i] == ds[i].id;
      forall j: nat | k.value < j < |ds| ensures !Holds(ds[j], t) { NoHolderAfter(ds, t, j); }
    }
    if Holds(ds[i], t) && !HeldLater(ds, i, t) { LastIs(ds, t, i); }
  }

  lemma SameIds(ds: seq<Device>, i: nat, n: Device)
    requires i < |ds| && n.id == ds[i].id
    ensures DeviceIds(ds[i := n]) == DeviceIds(ds)
  {
  }

  /** The update takes topic t out of the map. */
  predicate Dropped(was: Device, released: bool, n: Device, t: string) {
    (released && t == was.bemfaTopic) || (t == n.bemfaTopic && t != "")
  }

  /** What the update makes of the entry of topic t. */
  function EntryAfter(topics: Topics, was: Device, released: bool, n: Device, t: string): Option<string> {
    if Holds(n, t) then Some(n.id) else if Dropped(was, released, n, t) then None else Lookup(topics, t)
  }

  lemma EntryIs(topics: Topics, was: Device, released: bool, n: Device, t: string)
    requires (n.bemfaEnable ==> !Blank(n.bemfaTopic)) && (released ==> was.bemfaTopic != "")
    ensures LookupAfter(if released then Removed(topics, was) else topics, n, t) == EntryAfter(topics, was, released, n, t)
  {
    hide Blank, LastHolder;
  }

  /** The topics for which an update of device i to n leaves the map right; `released` says whether it took the old
      topic out of the map first. */
  ghost predicate KeptAt(ds: seq<Device>, i: nat, released: bool, n: Device, t: string)
    requires i < |ds|
  {
    if Holds(n, t) then !HeldLater(ds, i, t)
    else if Dropped(ds[i], released, n, t) then !HeldByAnother(ds, i, t)
    else Holds(ds[i], t) ==> HeldLater(ds, i, t)
  }

  ghost predicate KeptAll(ds: seq<Device>, i: nat, released: bool, n: Device)
    requires i < |ds|
  {
    forall t :: KeptAt(ds, i, released, n, t)
  }

  lemma LaterInReplaced(ds: seq<Device>, i: nat, n: Device, t: string)
    requires i < |ds|
    ensures HeldLater(ds[i := n], i, t) <==> HeldLater(ds, i, t)
  {
    var after := ds[i := n];
    assert forall j: nat :: i < j < |ds| ==> after[j] == ds[j];
    if HeldLater(ds, i, t) {
      var j: nat :| i < j < |ds| && Holds(ds[j], t);
      assert Holds(after[j], t);
    }
  }

  lemma UpdateAt(topics: Topics, ds: seq<Device>, i: nat, released: bool, n: Device, after: Topics, t: string)
    requires i < |ds| && Distinct(DeviceIds(ds)) && n.id == ds[i].id && AgreeAt(topics, ds, t)
    requires Lookup(after, t) == EntryAfter(topics, ds[i], released, n, t)
    ensures AgreeAt(after, ds[i := n], t) <==> KeptAt(ds, i, released, n, t)
  {
    hide Blank, LastHolder;
    if Holds(n, t) {
      SameIds(ds, i, n);
      OwnsIff(ds[i := n], i, t);
      LaterInReplaced(ds, i, n, t);
    } else if Dropped(ds[i], released, n, t) {
      OwnerLost(ds, i, n, t);
    } else if HeldLater(ds, i, t) || !Holds(ds[i], t) {
      OwnerKept(ds, i, n, t);
    } else {
      OwnsIff(ds, i, t);
      SameIds(ds, i, n);
      OwnsIff(ds[i := n], i, t);
    }
  }

  /** What a caller can check before an update of device i that ends up with `topic`: the topics it takes out of the
      map belong to no other device, its own topic to no later one, and a stored topic that the update rewrites to
      its normal form was owned by a later device. */
  ghost predicate UpdateKeeps(ds: seq<Device>, i: nat, q: Device, topic: string)
    requires i < |ds|
  {
    var was := ds[i];
    && (Releases(was, q) && !(q.bemfaEnable && topic == was.bemfaTopic) ==> !HeldByAnother(ds, i, was.bemfaTopic))
    && (q.bemfaEnable ==> !HeldLater(ds, i, topic))
    && (!q.bemfaEnable ==> !HeldByAnother(ds, i, topic))
    && (!Releases(was, q) && Holds(was, was.bemfaTopic) && topic != was.bemfaTopic ==> HeldLater(ds, i, was.bemfaTopic))
  }

  lemma KeptAtBoth(ds: seq<Device>, i: nat, q: Device, n: Device)
    requires i < |ds| && n.bemfaEnable == q.bemfaEnable && (n.bemfaEnable ==> !Blank(n.bemfaTopic))
    requires KeptAt(ds, i, Releases(ds[i], q), n, ds[i].bemfaTopic) && KeptAt(ds, i, Releases(ds[i], q), n, n.bemfaTopic)
    ensures UpdateKeeps(ds, i, q, n.bemfaTopic)
  {
    assert Blank("");
    hide Blank, LastHolder;
  }

  lemma KeptElsewhere(ds: seq<Device>, i: nat, q: Device, n: Device, t: string)
    requires i < |ds| && n.bemfaEnable == q.bemfaEnable && UpdateKeeps(ds, i, q, n.bemfaTopic)
    ensures KeptAt(ds, i, Releases(ds[i], q), n, t)
  {
    assert Blank("");
    hide Blank, LastHolder;
  }

  lemma KeptEverywhere(ds: seq<Device>, i: nat, q: Device, n: Device)
    requires i < |ds| && n.bemfaEnable == q.bemfaEnable && (n.bemfaEnable ==> !Blank(n.bemfaTopic))
    ensures KeptAll(ds, i, Releases(ds[i], q), n) <==> UpdateKeeps(ds, i, q, n.bemfaTopic)
  {
    var was, released := ds[i], Releases(ds[i], q);
    if KeptAll(ds, i, released, n) {
      KeptAtBoth(ds, i, q, n);
    }
    if UpdateKeeps(ds, i, q, n.bemfaTopic) {
      forall t ensures KeptAt(ds, i, released, n, t) { KeptElsewhere(ds, i, q, n, t); }
    }
  }

  lemma BlankIsInvalid(topic: string)
    requires Blank(topic)
    ensures !ValidTopic(topic)
  {
    TrimBlank(topic);
  }

  lemma AgreeAtIffKeptAt(w: World, i: nat, released: bool, n: Device, after: Topics, t: string)
    requires i < |w.devices| && Distinct(DeviceIds(w.devices)) && AgreeAt(w.topics, w.devices, t)
    requires n.id == w.devices[i].id && (n.bemfaEnable ==> !Blank(n.bemfaTopic))
    requires released ==> w.devices[i].bemfaTopic != ""
    requires Edited(if released then Removed(w.topics, w.devices[i]) else w.topics, after, n)
    ensures AgreeAt(after, w.devices[i := n], t) <==> KeptAt(w.devices, i, released, n, t)
  {
    EntryIs(w.topics, w.devices[i], released, n, t);
    assert Lookup(after, t) == LookupAfter(if released then Removed(w.topics, w.devices[i]) else w.topics, n, t);
    UpdateAt(w.topics, w.devices, i, released, n, after, t);
  }

  lemma AgreeIffKept(w: World, i: nat, released: bool, n: Device, after: Topics)
    requires i < |w.devices| && Distinct(DeviceIds(w.devices)) && AgreeAll(w.topics, w.devices)
    requires n.id == w.devices[i].id && (n.bemfaEnable ==> !Blank(n.bemfaTopic))
    requires released ==> w.devices[i].bemfaTopic != ""
    requires Edited(if released then Removed(w.topics, w.devices[i]) else w.topics, after, n)
    ensures AgreeAll(after, w.devices[i := n]) <==> KeptAll(w.devices, i, released, n)
  {
    var ds := w.devices[i := n];
    if KeptAll(w.devices, i, released, n) {
      forall t ensures AgreeAt(after, ds, t) {
        assert KeptAt(w.devices, i, released, n, t) && AgreeAt(w.topics, w.devices, t);
        AgreeAtIffKeptAt(w, i, released, n, after, t);
      }
    }
    if AgreeAll(after, ds) {
      forall t ensures KeptAt(w.devices, i, released, n, t) {
        assert AgreeAt(after, ds, t) && AgreeAt(w.topics, w.devices, t);
        AgreeAtIffKeptAt(w, i, released, n, after, t);
      }
    }
  }

  lemma AgreeAfterUpdate(w: World, i: nat, q: Device, n: Device, after: Topics)
    requires i < |w.devices| && Distinct(DeviceIds(w.devices)) && Agree(w.topics, w.devices)
    requires n.id == w.devices[i].id && n.bemfaEnable == q.bemfaEnable && (n.bemfaEnable ==> !Blank(n.bemfaTopic))
    requires Edited(if Releases(w.devices[i], q) then Removed(w.topics, w.devices[i]) else w.topics, after, n)
    ensures Agree(after, w.devices[i := n]) <==> UpdateKeeps(w.devices, i, q, n.bemfaTopic)
  {
    AgreeIsPointwise(w.topics, w.devices);
    AgreeIsPointwise(after, w.devices[i := n]);
    AgreeIffKept(w, i, Releases(w.devices[i], q), n, after);
    KeptEverywhere(w.devices, i, q, n);
  }

  /** The topic of a successful request is not blank if the device is enabled. */
  lemma EnsuredNotBlank(w: World, saved: Device, storeOnError: bool, e: Env)
    requires Finish(w, saved, storeOnError, e).answer.Answered? && saved.bemfaEnable
    ensures !Blank(FinalTopic(saved, e.generated))
  {
    EnsureEnabled(w.topics, saved, e);
    if Blank(FinalTopic(saved, e.generated)) { BlankIsInvalid(FinalTopic(saved, e.generated)); }
  }

  lemma StoredNotBlank(w: World, d: Device, storeOnError: bool, e: Env)
    requires StoreAndFinish(w, d, storeOnError, e).answer.Answered? && d.bemfaEnable
    ensures !Blank(FinalTopic(d, e.generated))
  {
    hide Trim, Canonical, NormalizeTopic, ValidTopic, Normalized, NormalizeDevice;
    var stored := StoredDevice(w.devices, d, e.now, e.freshId).value;
    StoredFields(w.devices, d, e.now, e.freshId);
    EnsuredNotBlank(w.(devices := WithDevice(w.devices, d.id, stored)), stored, storeOnError, e);
  }

  /** A successful update replaces the device and edits the map at its topics. */
  lemma UpdateEffect(w: World, id: string, d: Device, e: Env)
    requires Distinct(DeviceIds(w.devices)) && Update(w, id, d, e).answer.Answered?
    ensures var i := IndexOf(DeviceIds(w.devices), id);
            i < |w.devices| &&
            var was, q := w.devices[i], Requested(w.devices[i], d);
            var r := Update(w, id, d, e);
            var n := r.answer.device;
            && n.id == id && n.bemfaEnable == q.bemfaEnable && n.bemfaTopic == FinalTopic(q, e.generated)
            && (n.bemfaEnable ==> !Blank(n.bemfaTopic))
            && r.world.devices == w.devices[i := n]
            && Edited(if Releases(was, q) then Removed(w.topics, was) else w.topics, r.world.topics, n)
  {
    hide Trim, Canonical, NormalizeTopic, ValidTopic, Normalized, NormalizeDevice;
    var i := IndexOf(DeviceIds(w.devices), id);
    var was := w.devices[i];
    var q := Requested(was, d);
    var start := if Releases(was, q) then w.(topics := Removed(w.topics, was)) else w;
    assert DeviceIds(w.devices)[i] == id;
    StoreAndFinishEffect(start, q, false, e);
    if q.bemfaEnable { StoredNotBlank(start, q, false, e); }
  }

  // -- main results: one operation --

  /** From a map that agrees with the device list, a successful update leads to one that does exactly when the
      condition holds, which the caller can check beforehand. */
  lemma UpdateAgrees(w: World, id: string, d: Device, e: Env)
    requires Distinct(DeviceIds(w.devices)) && Agree(w.topics, w.devices) && Update(w, id, d, e).answer.Answered?
    ensures var i := IndexOf(DeviceIds(w.devices), id);
            var after := Update(w, id, d, e).world;
            i < |w.devices| &&
            var q := Requested(w.devices[i], d);
            (Agree(after.topics, after.devices) <==> UpdateKeeps(w.devices, i, q, FinalTopic(q, e.generated)))
  {
    hide Trim, Canonical, NormalizeTopic, ValidTopic, Normalized, NormalizeDevice;
    UpdateEffect(w, id, d, e);
    var i := IndexOf(DeviceIds(w.devices), id);
    var r := Update(w, id, d, e);
    assert DeviceIds(w.devices)[i] == w.devices[i].id;
    AgreeAfterUpdate(w, i, Requested(w.devices[i], d), r.answer.device, r.world.topics);
  }

  /** A device that asks for nothing. */
  function Idle(d: Device): Device {
    d.(bemfaEnable := false, bemfaTopic := "")
  }

  lemma {:induction false} IdleDoesNotMatter(front: seq<Device>, p: Device, tail: seq<Device>)
    requires !p.bemfaEnable
    ensures Wanted(front + [p] + tail) == Wanted(front + tail)
  {
    hide Blank, LastHolder;
    if tail == [] {
      assert (front + [p] + tail)[..|front|] == front == front + tail;
    } else {
      var n := |tail| - 1;
      IdleDoesNotMatter(front, p, tail[..n]);
      assert (front + [p] + tail)[..|front| + 1 + n] == front + [p] + tail[..n];
      assert (front + tail)[..|front| + n] == front + tail[..n];
    }
  }

  lemma CreateEffect(w: World, d: Device, e: Env)
    requires Distinct(DeviceIds(w.devices)) && e.freshId != "" && e.freshId !in DeviceIds(w.devices)
    requires Create(w, d, e).answer.Answered?
    ensures var q, r := Normalized(d.(id := "")), Create(w, d, e);
            var n := r.answer.device;
            && n.id == e.freshId && n.bemfaEnable == d.bemfaEnable && n.bemfaTopic == FinalTopic(q, e.generated)
            && (n.bemfaEnable ==> !Blank(n.bemfaTopic))
            && r.world.devices == w.devices + [n] && Edited(w.topics, r.world.topics, n)
  {
    hide Trim, Canonical, NormalizeTopic, ValidTopic, Normalized, NormalizeDevice;
    var q := Normalized(d.(id := ""));
    StoreAndFinishEffect(w, q, true, e);
    if q.bemfaEnable { StoredNotBlank(w, q, true, e); }
  }

  lemma AgreeAfterAppend(w: World, n: Device, after: Topics)
    requires Distinct(DeviceIds(w.devices)) && n.id != "" && n.id !in DeviceIds(w.devices) && Agree(w.topics, w.devices)
    requires (n.bemfaEnable ==> !Blank(n.bemfaTopic)) && Edited(w.topics, after, n)
    ensures Agree(after, w.devices + [n]) <==> n.bemfaEnable || !Held(w.devices, n.bemfaTopic)
  {
    hide Blank, LastHolder, Wanted;
    var k, ds := |w.devices|, w.devices + [Idle(n)];
    IdleDoesNotMatter(w.devices, Idle(n), []);
    assert w.devices + [Idle(n)] + [] == ds && w.devices + [] == w.devices && ds[k := n] == w.devices + [n];
    assert DeviceIds(ds) == DeviceIds(w.devices) + [n.id];
    AgreeAfterUpdate(World(ds, w.topics), k, n, n, after);
    HeldBeforeEnd(w.devices, Idle(n), n.bemfaTopic);
  }

  /** A created device leaves the map right unless it is disabled and names the topic of an enabled one, which it
      unsubscribes. */
  lemma CreateAgrees(w: World, d: Device, e: Env)
    requires Distinct(DeviceIds(w.devices)) && e.freshId != "" && e.freshId !in DeviceIds(w.devices)
    requires Agree(w.topics, w.devices) && Create(w, d, e).answer.Answered?
    ensures var after := Create(w, d, e).world;
            Agree(after.topics, after.devices) <==> d.bemfaEnable || !Held(w.devices, Canonical(d.bemfaTopic))
  {
    hide Trim, Canonical, NormalizeTopic, ValidTopic, Normalized, NormalizeDevice;
    CreateEffect(w, d, e);
    var r := Create(w, d, e);
    AgreeAfterAppend(w, r.answer.device, r.world.topics);
  }

  lemma HeldBeforeEnd(ds: seq<Device>, p: Device, t: string)
    ensures !HeldLater(ds + [p], |ds|, t)
    ensures HeldByAnother(ds + [p], |ds|, t) <==> Held(ds, t)
  {
    hide Holds, LastHolder;
    if Held(ds, t) {
      var j: nat :| j < |ds| && Holds(ds[j], t);
      assert Holds((ds + [p])[j], t);
    }
  }

  /** Deleting removes the record in its place. */
  lemma DeleteEffect(w: World, i: nat)
    requires Distinct(DeviceIds(w.devices)) && i < |w.devices|
    ensures Delete(w, w.devices[i].id) == World(w.devices[..i] + w.devices[i + 1..], Removed(w.topics, w.devices[i]))
  {
    var id := w.devices[i].id;
    assert forall j :: 0 <= j < |w.devices| ==> DeviceIds(w.devices)[j] == w.devices[j].id;
    IndexIs(DeviceIds(w.devices), id, i);
    FilterOutOne(w.devices, i, OtherDevice(id));
  }

  lemma AgreeAfterRemove(w: World, i: nat)
    requires Distinct(DeviceIds(w.devices)) && Agree(w.topics, w.devices) && i < |w.devices|
    ensures Agree(Removed(w.topics, w.devices[i]), w.devices[..i] + w.devices[i + 1..])
            <==> !HeldByAnother(w.devices, i, w.devices[i].bemfaTopic)
  {
    assert Blank("");
    hide Blank, LastHolder, Wanted;
    var p := Idle(w.devices[i]);
    var front, tail := w.devices[..i], w.devices[i + 1..];
    assert w.devices[i := p] == front + [p] + tail;
    IdleDoesNotMatter(front, p, tail);
    AgreeAfterUpdate(w, i, p, p, Removed(w.topics, w.devices[i]));
  }

  /** Deleting a device leaves the map right exactly when no other device holds its topic. */
  lemma DeleteAgrees(w: World, id: string)
    requires Distinct(DeviceIds(w.devices)) && Agree(w.topics, w.devices)
    ensures var i := IndexOf(DeviceIds(w.devices), id);
            var after := Delete(w, id);
            Agree(after.topics, after.devices)
            <==> i == |w.devices| || !HeldByAnother(w.devices, i, w.devices[i].bemfaTopic)
  {
    var i := IndexOf(DeviceIds(w.devices), id);
    if i < |w.devices| {
      assert DeviceIds(w.devices)[i] == w.devices[i].id;
      DeleteEffect(w, i);
      AgreeAfterRemove(w, i);
    }
  }

  /** Taking a topic out of the map leaves it right exactly when no device holds the topic. */
  lemma ReleaseAgrees(w: World, was: Device)
    requires Agree(w.topics, w.devices)
    ensures Agree(Removed(w.topics, was), w.devices) <==> was.bemfaTopic == "" || !Held(w.devices, was.bemfaTopic)
  {
    WantedIsLastHolder(w.devices, was.bemfaTopic);
    NoOwner(w.devices, was.bemfaTopic);
  }

  lemma RefusedUpdate(w: World, id: string, d: Device, e: Env)
    requires id in DeviceIds(w.devices)
    requires var q := Requested(w.devices[IndexOf(DeviceIds(w.devices), id)], d);
             Validated(q, e.uidSet).None? && (q.name == "" || q.mac == "")
    ensures var was := w.devices[IndexOf(DeviceIds(w.devices), id)];
            var r := Update(w, id, d, e);
            && r.answer.Refused?
            && r.world == if Releases(was, Requested(was, d)) then w.(topics := Removed(w.topics, was)) else w
  {
  }

  /** An update refused because its name or MAC is blank stores nothing, but it has released the old topic already. */
  lemma RefusedUpdateReleases(w: World, id: string, d: Device, e: Env)
    requires Agree(w.topics, w.devices) && id in DeviceIds(w.devices)
    requires var q := Requested(w.devices[IndexOf(DeviceIds(w.devices), id)], d);
             Validated(q, e.uidSet).None? && (q.name == "" || q.mac == "")
    ensures var was := w.devices[IndexOf(DeviceIds(w.devices), id)];
            var r := Update(w, id, d, e);
            && r.answer.Refused? && r.world.devices == w.devices
            && (Agree(r.world.topics, w.devices) <==> !(Releases(was, Requested(was, d)) && Held(w.devices, was.bemfaTopic)))
  {
    RefusedUpdate(w, id, d, e);
    ReleaseAgrees(w, w.devices[IndexOf(DeviceIds(w.devices), id)]);
  }

  // -- operations that were stored but not subscribed --

  /** The topics for which storing n in place of device i leaves the map right when nothing was subscribed and the
      topics of `gone` were taken out of the map. */
  ghost predicate UnmappedAt(ds: seq<Device>, i: nat, n: Device, gone: set<string>, t: string)
    requires i < |ds|
  {
    if t in gone then !Held(ds[i := n], t) else Holds(n, t) != Holds(ds[i], t) ==> HeldLater(ds, i, t)
  }

  /** Nobody holds a topic that was taken out, and where device i starts or stops holding one, a later device holds it. */
  ghost predicate UnmappedKeeps(ds: seq<Device>, i: nat, n: Device, gone: set<string>)
    requires i < |ds|
  {
    && (forall t :: t in gone ==> !Held(ds[i := n], t))
    && (n.bemfaTopic !in gone && Holds(n, n.bemfaTopic) && !Holds(ds[i], n.bemfaTopic) ==> HeldLater(ds, i, n.bemfaTopic))
    && (ds[i].bemfaTopic !in gone && Holds(ds[i], ds[i].bemfaTopic) && !Holds(n, ds[i].bemfaTopic) ==> HeldLater(ds, i, ds[i].bemfaTopic))
  }

  lemma UnmappedEverywhere(ds: seq<Device>, i: nat, n: Device, gone: set<string>)
    requires i < |ds|
    ensures (forall t :: UnmappedAt(ds, i, n, gone, t)) <==> UnmappedKeeps(ds, i, n, gone)
  {
    hide Blank, HeldLater;
    if forall t :: UnmappedAt(ds, i, n, gone, t) {
      assert UnmappedAt(ds, i, n, gone, n.bemfaTopic) && UnmappedAt(ds, i, n, gone, ds[i].bemfaTopic);
      forall t | t in gone ensures !Held(ds[i := n], t) { assert UnmappedAt(ds, i, n, gone, t); }
    }
  }

  ghost predicate TakenOut(before: Topics, after: Topics, gone: set<string>) {
    forall t :: Lookup(after, t) == if t in gone then None else Lookup(before, t)
  }

  lemma AgreeAtUnmapped(w: World, i: nat, n: Device, gone: set<string>, after: Topics, t: string)
    requires i < |w.devices| && Distinct(DeviceIds(w.devices)) && AgreeAt(w.topics, w.devices, t)
    requires n.id == w.devices[i].id && TakenOut(w.topics, after, gone)
    ensures AgreeAt(after, w.devices[i := n], t) <==> UnmappedAt(w.devices, i, n, gone, t)
  {
    hide Holds, LastHolder;
    assert Lookup(after, t) == if t in gone then None else Lookup(w.topics, t);
    NoOwner(w.devices[i := n], t);
    if HeldLater(w.devices, i, t) || (!Holds(n, t) && !Holds(w.devices[i], t)) {
      OwnerKept(w.devices, i, n, t);
    } else {
      SameIds(w.devices, i, n);
      OwnsIff(w.devices, i, t);
      OwnsIff(w.devices[i := n], i, t);
      LaterInReplaced(w.devices, i, n, t);
    }
  }

  lemma AgreeAfterUnmapped(w: World, i: nat, n: Device, gone: set<string>, after: Topics)
    requires i < |w.devices| && Distinct(DeviceIds(w.devices)) && Agree(w.topics, w.devices)
    requires n.id == w.devices[i].id && TakenOut(w.topics, after, gone)
    ensures Agree(after, w.devices[i := n]) <==> UnmappedKeeps(w.devices, i, n, gone)
  {
    hide UnmappedAt, UnmappedKeeps, Agree, AgreeAt, TakenOut;
    var ds := w.devices[i := n];
    AgreeIsPointwise(w.topics, w.devices);
    AgreeIsPointwise(after, ds);
    forall t ensures AgreeAt(after, ds, t) <==> UnmappedAt(w.devices, i, n, gone, t) {
      assert AgreeAt(w.topics, w.devices, t);
      AgreeAtUnmapped(w, i, n, gone, after, t);
    }
    UnmappedEverywhere(w.devices, i, n, gone);
  }

  predicate Subscribable(q: Device, e: Env) {
    e.uid != "" && e.live && ValidTopic(ChosenTopic(q, e.generated))
  }

  /** Whether a stored device is not subscribed: the manager is not running, the topic is invalid, or it is not mapped to
      the device yet and the broker refuses it. */
  predicate Misses(topics: Topics, q: Device, id: string, e: Env) {
    q.bemfaEnable && !(Subscribable(q, e) && (Lookup(topics, ChosenTopic(q, e.generated)) == Some(id) || !e.net.subscribeFails(ChosenTopic(q, e.generated))))
  }

  /** Whether a request that meets this map stops halfway: it is valid, and the first save or the subscription fails. */
  predicate Halts(topics: Topics, q: Device, e: Env) {
    && Validated(q, e.uidSet).None? && q.name != "" && q.mac != ""
    && (!e.firstSave || Misses(topics, q, if q.id == "" then e.freshId else q.id, e))
  }

  /** What a failed subscription takes out of the map. */
  function Lost(q: Device, e: Env): set<string> {
    if Subscribable(q, e) then {ChosenTopic(q, e.generated)} else {}
  }

  /** The topic a stored device is left with when it was not subscribed. */
  function LeftTopic(q: Device, e: Env): string {
    if !e.firstSave || e.uid == "" || !e.live then q.bemfaTopic else ChosenTopic(q, e.generated)
  }

  lemma EnsureFails(topics: Topics, s: Device, e: Env)
    requires Ensure(topics, s, e.uid, e.live, e.net, e.generated).error.Some?
    ensures var r := Ensure(topics, s, e.uid, e.live, e.net, e.generated);
            && s.bemfaEnable && TakenOut(topics, r.topics, Lost(s, e))
            && (r.device == s || r.device == s.(bemfaTopic := ChosenTopic(s, e.generated)))
            && r.device.bemfaTopic == LeftTopic(s, e.(firstSave := true))
            && (r.error.value.NotSubscribed? ==> ValidTopic(r.device.bemfaTopic) && r.device.bemfaTopic == ChosenTopic(s, e.generated))
  {
    hide ChosenTopic, ValidTopic;
  }

  /** Two ways to stop halfway: the first save fails, or the stored device is not subscribed. */
  predicate Halfway(a: Answer, e: Env) {
    a.Refused? && if a.why.NotStored? then !e.firstSave && a.why.fault.SaveFailed? else a.why.NotEnsured?
  }

  /** The topics that an update which stops halfway takes out of the map. */
  function Gone(was: Device, q: Device, e: Env): set<string> {
    (if Releases(was, q) then {was.bemfaTopic} else {}) + (if e.firstSave then Lost(q, e) else {})
  }

  lemma EnsureMisses(topics: Topics, s: Device, e: Env)
    ensures Ensure(topics, s, e.uid, e.live, e.net, e.generated).error.Some? <==> Misses(topics, s, s.id, e)
  {
    hide ChosenTopic, ValidTopic;
  }

  /** Storing a request stops halfway in exactly these cases. */
  lemma HalfwayIff(w: World, q: Device, storeOnError: bool, e: Env)
    ensures Halfway(StoreAndFinish(w, q, storeOnError, e).answer, e) <==>
            q.name != "" && q.mac != "" && (!e.firstSave || Misses(w.topics, q, if q.id == "" then e.freshId else q.id, e))
  {
    hide ChosenTopic, ValidTopic, Ensure, NormalizeDevice, StoredDevice, WithDevice, Misses;
    StoredIsNotSaveFailed(w.devices, q, e.now, e.freshId);
    if q.name != "" && q.mac != "" {
      StoredDone(w.devices, q, e.now, e.freshId);
      var s := StoredDevice(w.devices, q, e.now, e.freshId).value;
      StoredFields(w.devices, q, e.now, e.freshId);
      EnsureMisses(w.topics, s, e);
      SameMisses(w.topics, s, q, e);
    }
  }

  lemma SameMisses(topics: Topics, s: Device, q: Device, e: Env)
    requires s.bemfaTopic == q.bemfaTopic && s.bemfaEnable == q.bemfaEnable
    ensures Misses(topics, s, s.id, e) == Misses(topics, q, s.id, e)
  {
    SameChoice(s, q, e.generated);
  }

  lemma HalfwayEffect(w: World, d: Device, e: Env)
    requires Halfway(StoreAndFinish(w, d, false, e).answer, e) && Distinct(DeviceIds(w.devices)) && d.id in DeviceIds(w.devices)
    ensures var r := StoreAndFinish(w, d, false, e);
            var s := StoredDevice(w.devices, d, e.now, e.freshId);
            && s.Done? && s.value.id == d.id && s.value.bemfaEnable == d.bemfaEnable && s.value.bemfaTopic == d.bemfaTopic
            && r.world.devices == WithDevice(w.devices, d.id, s.value)
            && TakenOut(w.topics, r.world.topics, if e.firstSave then Lost(d, e) else {})
  {
    hide Normalized, Trim, NormalizeDevice, Ensure, ChosenTopic;
    StoredIsNotSaveFailed(w.devices, d, e.now, e.freshId);
    var s := StoredDevice(w.devices, d, e.now, e.freshId).value;
    StoredFields(w.devices, d, e.now, e.freshId);
    SameChoice(s, d, e.generated);
    if e.firstSave { EnsureFails(w.topics, s, e); }
  }

  lemma StoredIsNotSaveFailed(ds: seq<Device>, d: Device, now: int, freshId: string)
    ensures StoredDevice(ds, d, now, freshId).Fail? ==> !StoredDevice(ds, d, now, freshId).fault.SaveFailed?
  {
  }

  lemma SameChoice(s: Device, d: Device, generated: string)
    requires s.bemfaTopic == d.bemfaTopic
    ensures ChosenTopic(s, generated) == ChosenTopic(d, generated)
  {
  }

  /** The world an update reaches the store with. */
  function Started(w: World, was: Device, q: Device): World {
    if Releases(was, q) then w.(topics := Removed(w.topics, was)) else w
  }

  lemma HalfwayUpdateStored(w: World, i: nat, d: Device, e: Env)
    requires Distinct(DeviceIds(w.devices)) && i < |w.devices| && Halfway(Update(w, w.devices[i].id, d, e).answer, e)
    ensures var q := Requested(w.devices[i], d);
            Update(w, w.devices[i].id, d, e) == StoreAndFinish(Started(w, w.devices[i], q), q, false, e)
  {
    hide Normalized, StoreAndFinish;
    assert DeviceIds(w.devices)[i] == w.devices[i].id;
    IndexIs(DeviceIds(w.devices), w.devices[i].id, i);
  }

  lemma TakenOutTwice(w: World, was: Device, q: Device, after: Topics, lost: set<string>)
    requires TakenOut(Started(w, was, q).topics, after, lost)
    ensures TakenOut(w.topics, after, (if Releases(was, q) then {was.bemfaTopic} else {}) + lost)
  {
    var start := Started(w, was, q).topics;
    forall t ensures Lookup(after, t) == if t in (if Releases(was, q) then {was.bemfaTopic} else {}) + lost then None else Lookup(w.topics, t) {
      assert Lookup(after, t) == if t in lost then None else Lookup(start, t);
    }
  }

  lemma HalfwayAt(w: World, i: nat, q: Device, e: Env, r: Result)
    requires Distinct(DeviceIds(w.devices)) && Agree(w.topics, w.devices) && i < |w.devices| && q.id == w.devices[i].id
    requires r == StoreAndFinish(Started(w, w.devices[i], q), q, false, e) && Halfway(r.answer, e)
    ensures Agree(r.world.topics, r.world.devices) <==> UnmappedKeeps(w.devices, i, q, Gone(w.devices[i], q, e))
  {
    hide Agree, UnmappedKeeps, StoredDevice, StoreAndFinish, ChosenTopic, TakenOut;
    var was := w.devices[i];
    assert DeviceIds(w.devices)[i] == was.id;
    IndexIs(DeviceIds(w.devices), was.id, i);
    HalfwayEffect(Started(w, was, q), q, e);
    var s := StoredDevice(w.devices, q, e.now, e.freshId).value;
    TakenOutTwice(w, was, q, r.world.topics, if e.firstSave then Lost(q, e) else {});
    AgreeAfterUnmapped(w, i, s, Gone(was, q, e), r.world.topics);
    SameKeeps(w.devices, i, s, q, Gone(was, q, e));
  }

  /** When an update stops halfway, and that it then leaves the maps in agreement exactly when nobody holds a topic it took
      out and, where the stored device starts or stops holding one, a later device holds it. */
  lemma HalfwayUpdateAgrees(w: World, i: nat, d: Device, e: Env)
    requires Distinct(DeviceIds(w.devices)) && Agree(w.topics, w.devices) && i < |w.devices|
    ensures var q := Requested(w.devices[i], d);
            var r := Update(w, w.devices[i].id, d, e);
            var halts := Halts(Started(w, w.devices[i], q).topics, q, e);
            && (Halfway(r.answer, e) <==> halts)
            && (halts ==> (Agree(r.world.topics, r.world.devices) <==> UnmappedKeeps(w.devices, i, q, Gone(w.devices[i], q, e))))
  {
    hide Agree, UnmappedKeeps, StoreAndFinish, Update, Normalized, Misses, Gone;
    UpdateHalts(w, i, d, e);
    if Halfway(Update(w, w.devices[i].id, d, e).answer, e) {
      HalfwayUpdateStored(w, i, d, e);
      HalfwayAt(w, i, Requested(w.devices[i], d), e, Update(w, w.devices[i].id, d, e));
    }
  }

  lemma UpdateHalts(w: World, i: nat, d: Device, e: Env)
    requires Distinct(DeviceIds(w.devices)) && i < |w.devices|
    ensures var q := Requested(w.devices[i], d);
            Halfway(Update(w, w.devices[i].id, d, e).answer, e) <==> Halts(Started(w, w.devices[i], q).topics, q, e)
  {
    hide Requested, StoreAndFinish, Misses, Validated, Update, Releases, Halfway;
    var q := Requested(w.devices[i], d);
    UpdateFinds(w, i, d, e);
    InvalidIsNotHalfway(q, e);
    HalfwayIff(Started(w, w.devices[i], q), q, false, e);
  }

  lemma UpdateFinds(w: World, i: nat, d: Device, e: Env)
    requires Distinct(DeviceIds(w.devices)) && i < |w.devices|
    ensures Update(w, w.devices[i].id, d, e) == UpdateFound(w, w.devices[i], d, e)
  {
    hide UpdateFound;
    assert DeviceIds(w.devices)[i] == w.devices[i].id;
    IndexIs(DeviceIds(w.devices), w.devices[i].id, i);
  }

  lemma HeldAlike(ds: seq<Device>, i: nat, s: Device, q: Device, t: string)
    requires i < |ds| && s.bemfaEnable == q.bemfaEnable && s.bemfaTopic == q.bemfaTopic && Held(ds[i := s], t)
    ensures Held(ds[i := q], t)
  {
    hide Blank;
    var j: nat :| j < |ds| && Holds(ds[i := s][j], t);
    assert Holds(ds[i := q][j], t);
  }

  lemma SameKeeps(ds: seq<Device>, i: nat, s: Device, q: Device, gone: set<string>)
    requires i < |ds| && s.id == q.id && s.bemfaEnable == q.bemfaEnable && s.bemfaTopic == q.bemfaTopic
    ensures UnmappedKeeps(ds, i, s, gone) <==> UnmappedKeeps(ds, i, q, gone)
  {
    hide Blank, Held, HeldLater;
    forall t | t in gone ensures Held(ds[i := s], t) <==> Held(ds[i := q], t) {
      if Held(ds[i := s], t) { HeldAlike(ds, i, s, q, t); }
      if Held(ds[i := q], t) { HeldAlike(ds, i, q, s, t); }
    }
  }

  /** A create that stopped halfway has appended a device that nothing is subscribed for. */
  lemma HalfwayCreateEffect(w: World, q: Device, e: Env)
    requires q.id == "" && Halfway(StoreAndFinish(w, q, true, e).answer, e)
    requires Distinct(DeviceIds(w.devices)) && e.freshId != "" && e.freshId !in DeviceIds(w.devices)
    ensures var r := StoreAndFinish(w, q, true, e);
            && |r.world.devices| == |w.devices| + 1 && r.world.devices[..|w.devices|] == w.devices
            && var n := r.world.devices[|w.devices|];
               && n.id == e.freshId && n.bemfaEnable == q.bemfaEnable && n.bemfaTopic == LeftTopic(q, e)
               && exists gone :: TakenOut(w.topics, r.world.topics, gone) && (gone == {} || (Holds(n, n.bemfaTopic) && gone == {n.bemfaTopic}))
  {
    hide Normalized, Trim, NormalizeDevice, Ensure, ChosenTopic, TakenOut, ValidTopic, Finish;
    StoredIsNotSaveFailed(w.devices, q, e.now, e.freshId);
    var s := StoredDevice(w.devices, q, e.now, e.freshId).value;
    StoredFields(w.devices, q, e.now, e.freshId);
    var after := w.(devices := WithDevice(w.devices, q.id, s));
    if e.firstSave {
      SameChoice(s, q, e.generated);
      HalfwayFinish(after, s, e);
      StoreTwice(w.devices, q.id, s, Finish(after, s, true, e).world.devices[|w.devices|]);
    } else {
      assert TakenOut(w.topics, w.topics, {}) by { NothingTakenOut(w.topics); }
    }
  }

  lemma NothingTakenOut(topics: Topics)
    ensures TakenOut(topics, topics, {})
  {
  }

  lemma StoredDone(ds: seq<Device>, d: Device, now: int, freshId: string)
    requires d.name != "" && d.mac != ""
    ensures StoredDevice(ds, d, now, freshId).Done?
  {
  }

  lemma ReplacesLast(ds: seq<Device>, n: Device)
    requires ds != [] && Distinct(DeviceIds(ds)) && n.id == ds[|ds| - 1].id
    ensures WithDevice(ds, n.id, n) == ds[..|ds| - 1] + [n]
  {
    assert DeviceIds(ds)[|ds| - 1] == n.id;
    IndexIs(DeviceIds(ds), n.id, |ds| - 1);
  }

  /** The map after a failed subscription of a device that ends up with d's topic. */
  lemma LostHeld(topics: Topics, s: Device, e: Env, n: Device)
    requires Ensure(topics, s, e.uid, e.live, e.net, e.generated).error.Some?
    requires var r := Ensure(topics, s, e.uid, e.live, e.net, e.generated);
             n.bemfaEnable == r.device.bemfaEnable && n.bemfaTopic == r.device.bemfaTopic
    ensures var r := Ensure(topics, s, e.uid, e.live, e.net, e.generated);
            exists gone :: TakenOut(topics, r.topics, gone) && (gone == {} || (Holds(n, n.bemfaTopic) && gone == {n.bemfaTopic}))
  {
    hide Ensure, TakenOut, ValidTopic, ChosenTopic, Blank;
    EnsureFails(topics, s, e);
    var r := Ensure(topics, s, e.uid, e.live, e.net, e.generated);
    if Blank(n.bemfaTopic) { BlankIsInvalid(n.bemfaTopic); }
    assert TakenOut(topics, r.topics, Lost(s, e));
  }

  /** Storing the unsubscribed device again. */
  lemma HalfwayFinish(w: World, s: Device, e: Env)
    requires Finish(w, s, true, e).answer.Refused? && Finish(w, s, true, e).answer.why.NotEnsured?
    requires w.devices != [] && w.devices[|w.devices| - 1] == s && s.id != "" && s.name != "" && s.mac != ""
    requires Distinct(DeviceIds(w.devices))
    ensures var r := Finish(w, s, true, e);
            var k := |w.devices| - 1;
            && |r.world.devices| == k + 1 && r.world.devices[..k] == w.devices[..k]
            && var n := r.world.devices[k];
               && n.id == s.id && n.bemfaEnable == s.bemfaEnable && n.bemfaTopic == LeftTopic(s, e.(firstSave := true))
               && exists gone :: TakenOut(w.topics, r.world.topics, gone) && (gone == {} || (Holds(n, n.bemfaTopic) && gone == {n.bemfaTopic}))
  {
    hide Ensure, StoredDevice, TakenOut, Holds, WithDevice, ChosenTopic;
    var ensured := Ensure(w.topics, s, e.uid, e.live, e.net, e.generated);
    EnsureFails(w.topics, s, e);
    StoredDone(w.devices, ensured.device, e.later, e.freshId);
    StoredFields(w.devices, ensured.device, e.later, e.freshId);
    var n := StoredDevice(w.devices, ensured.device, e.later, e.freshId).value;
    ReplacesLast(w.devices, n);
    LostHeld(w.topics, s, e, n);
  }

  lemma HalfwayAppendAgrees(w: World, n: Device, gone: set<string>, after: Topics)
    requires Distinct(DeviceIds(w.devices)) && Agree(w.topics, w.devices) && n.id != "" && n.id !in DeviceIds(w.devices)
    requires TakenOut(w.topics, after, gone) && (gone == {} || (Holds(n, n.bemfaTopic) && gone == {n.bemfaTopic}))
    ensures Agree(after, w.devices + [n]) <==> !Holds(n, n.bemfaTopic)
  {
    hide Agree, TakenOut, Blank, Wanted;
    var k, ds := |w.devices|, w.devices + [Idle(n)];
    IdleAgrees(w, n);
    assert DeviceIds(ds) == DeviceIds(w.devices) + [n.id] && ds[k := n] == w.devices + [n];
    AgreeAfterUnmapped(World(ds, w.topics), k, n, gone, after);
    if gone != {} { assert Holds(ds[k := n][k], n.bemfaTopic) && n.bemfaTopic in gone; }
    assert !HeldLater(ds, k, n.bemfaTopic) && !Holds(Idle(n), n.bemfaTopic) && !Holds(Idle(n), "");
  }

  lemma IdleAgrees(w: World, n: Device)
    requires Agree(w.topics, w.devices)
    ensures Agree(w.topics, w.devices + [Idle(n)])
  {
    hide Wanted;
    IdleDoesNotMatter(w.devices, Idle(n), []);
    assert w.devices + [Idle(n)] + [] == w.devices + [Idle(n)] && w.devices + [] == w.devices;
  }

  lemma HalfwayCreateStored(w: World, d: Device, e: Env)
    requires Halfway(Create(w, d, e).answer, e)
    ensures Create(w, d, e) == StoreAndFinish(w, Normalized(d.(id := "")), true, e)
  {
    hide Normalized, StoreAndFinish;
  }

  lemma HalfwayAppended(w: World, q: Device, e: Env, r: Result)
    requires Distinct(DeviceIds(w.devices)) && e.freshId != "" && e.freshId !in DeviceIds(w.devices) && q.id == ""
    requires Agree(w.topics, w.devices) && r == StoreAndFinish(w, q, true, e) && Halfway(r.answer, e)
    ensures |r.world.devices| == |w.devices| + 1
    ensures var n := r.world.devices[|w.devices|];
            && n.id == e.freshId && n.bemfaEnable == q.bemfaEnable && n.bemfaTopic == LeftTopic(q, e)
            && (Agree(r.world.topics, r.world.devices) <==> !Holds(n, n.bemfaTopic))
  {
    hide Agree, TakenOut, Holds, StoreAndFinish, LeftTopic;
    HalfwayCreateEffect(w, q, e);
    var n := r.world.devices[|w.devices|];
    var gone :| TakenOut(w.topics, r.world.topics, gone) && (gone == {} || (Holds(n, n.bemfaTopic) && gone == {n.bemfaTopic}));
    HalfwayAppendAgrees(w, n, gone, r.world.topics);
    assert r.world.devices == w.devices + [n];
  }

  /** When a create stops halfway; it has then appended the device all the same, and leaves the maps in agreement exactly
      when that device is disabled or was left without a topic. */
  lemma HalfwayCreateAgrees(w: World, d: Device, e: Env)
    requires Distinct(DeviceIds(w.devices)) && e.freshId != "" && e.freshId !in DeviceIds(w.devices)
    requires Agree(w.topics, w.devices)
    ensures var q := Normalized(d.(id := ""));
            var r, topic := Create(w, d, e), LeftTopic(q, e);
            && (Halfway(r.answer, e) <==> Halts(w.topics, q, e))
            && (Halts(w.topics, q, e) ==>
                  && |r.world.devices| == |w.devices| + 1
                  && var n := r.world.devices[|w.devices|];
                     && n.id == e.freshId && n.bemfaEnable == d.bemfaEnable && n.bemfaTopic == topic
                     && (Agree(r.world.topics, r.world.devices) <==> !d.bemfaEnable || Blank(topic)))
  {
    hide Agree, Blank, StoreAndFinish, Create, Normalized, LeftTopic, Misses;
    CreateHalts(w, d, e);
    if Halfway(Create(w, d, e).answer, e) {
      HalfwayCreateStored(w, d, e);
      KeepsFlag(d);
      HalfwayAppended(w, Normalized(d.(id := "")), e, Create(w, d, e));
    }
  }

  lemma KeepsFlag(d: Device)
    ensures Normalized(d.(id := "")).id == "" && Normalized(d.(id := "")).bemfaEnable == d.bemfaEnable
  {
  }

  lemma CreateHalts(w: World, d: Device, e: Env)
    ensures Halfway(Create(w, d, e).answer, e) <==> Halts(w.topics, Normalized(d.(id := "")), e)
  {
    hide Normalized, StoreAndFinish, Misses, Validated, Halfway;
    InvalidIsNotHalfway(Normalized(d.(id := "")), e);
    HalfwayIff(w, Normalized(d.(id := "")), true, e);
  }

  lemma InvalidIsNotHalfway(q: Device, e: Env)
    ensures Validated(q, e.uidSet).Some? ==> !Halfway(Refused(Validated(q, e.uidSet).value), e)
  {
    hide ValidTopic;
  }

  lemma SecondSaveOfFinish(w: World, s: Device, storeOnError: bool, e: Env)
    ensures var saved := e.(secondSave := true);
            && Finish(w, s, storeOnError, e).world == Finish(w, s, storeOnError, saved).world
            && (Finish(w, s, storeOnError, e).answer == Refused(NotStored(SaveFailed)) ==> Finish(w, s, storeOnError, saved).answer.Answered?)
  {
    hide Ensure, StoredDevice, WithDevice;
    StoredIsNotSaveFailed(w.devices, Ensure(w.topics, s, e.uid, e.live, e.net, e.generated).device, e.later, e.freshId);
  }

  lemma SecondSaveOfStore(w: World, d: Device, storeOnError: bool, e: Env)
    requires e.firstSave
    ensures var saved := e.(secondSave := true);
            && StoreAndFinish(w, d, storeOnError, e).world == StoreAndFinish(w, d, storeOnError, saved).world
            && (StoreAndFinish(w, d, storeOnError, e).answer == Refused(NotStored(SaveFailed)) ==> StoreAndFinish(w, d, storeOnError, saved).answer.Answered?)
  {
    hide Finish, StoredDevice, WithDevice;
    var stored := StoredDevice(w.devices, d, e.now, e.freshId);
    StoredIsNotSaveFailed(w.devices, d, e.now, e.freshId);
    if stored.Done? {
      SecondSaveOfFinish(w.(devices := WithDevice(w.devices, d.id, stored.value)), stored.value, storeOnError, e);
    }
  }

  /** A failing second save of a create changes the answer only: the condition for a successful one applies. */
  lemma SecondSaveOfCreate(w: World, d: Device, e: Env)
    requires e.firstSave
    ensures var saved := e.(secondSave := true);
            && Create(w, d, e).world == Create(w, d, saved).world
            && (Create(w, d, e).answer == Refused(NotStored(SaveFailed)) ==> Create(w, d, saved).answer.Answered?)
  {
    hide Normalized, StoreAndFinish, ValidTopic, Trim, Canonical;
    SecondSaveOfStore(w, Normalized(d.(id := "")), true, e);
  }

  lemma SecondSaveOfFound(w: World, was: Device, d: Device, e: Env)
    requires e.firstSave
    ensures var saved := e.(secondSave := true);
            && UpdateFound(w, was, d, e).world == UpdateFound(w, was, d, saved).world
            && (UpdateFound(w, was, d, e).answer == Refused(NotStored(SaveFailed)) ==> UpdateFound(w, was, d, saved).answer.Answered?)
  {
    hide Requested, StoreAndFinish, ValidTopic, Trim, Canonical;
    SecondSaveOfStore(Started(w, was, Requested(was, d)), Requested(was, d), false, e);
  }

  /** And of an update. */
  lemma SecondSaveOfUpdate(w: World, id: string, d: Device, e: Env)
    requires e.firstSave
    ensures var saved := e.(secondSave := true);
            && Update(w, id, d, e).world == Update(w, id, d, saved).world
            && (Update(w, id, d, e).answer == Refused(NotStored(SaveFailed)) ==> Update(w, id, d, saved).answer.Answered?)
  {
    hide UpdateFound, FindDevice;
    var found := FindDevice(w.devices, id);
    if found.Some? { SecondSaveOfFound(w, found.value, d, e); }
  }

  // -- main result: whole runs --

  datatype Op = Add(d: Device, e: Env) | Change(id: string, d: Device, e: Env) | Drop(id: string) | Resync(net: Net)

  function Step(w: World, op: Op): World {
    match op
    case Add(d, e) => Create(w, d, e).world
    case Change(id, d, e) => Update(w, id, d, e).world
    case Drop(id) => Delete(w, id)
    case Resync(net) => w.(topics := Synced(w.topics, Wanted(w.devices), net))
  }

  function Run(w: World, ops: seq<Op>): World
    decreases |ops|
  {
    if ops == [] then w else Run(Step(w, ops[0]), ops[1..])
  }

  /** No enabled device shares its topic with any other device. */
  ghost predicate TopicsApart(ds: seq<Device>) {
    forall i, j :: 0 <= i < |ds| && 0 <= j < |ds| && i != j && Holds(ds[i], ds[i].bemfaTopic) ==> ds[j].bemfaTopic != ds[i].bemfaTopic
  }

  /** The stored topics of enabled devices are in normal form. */
  ghost predicate TopicsNormal(ds: seq<Device>) {
    forall i :: 0 <= i < |ds| && ds[i].bemfaEnable ==> NormalizeTopic(ds[i].bemfaTopic) == ds[i].bemfaTopic
  }

  /** The call succeeds; random ids and generated topics are what their generators promise. */
  ghost predicate Succeeds(w: World, op: Op) {
    match op
    case Add(d, e) =>
      && Create(w, d, e).answer.Answered? && ValidTopic(e.generated)
      && e.freshId != "" && e.freshId !in DeviceIds(w.devices)
    case Change(id, d, e) => Update(w, id, d, e).answer.Answered? && ValidTopic(e.generated)
    case _ => true
  }

  ghost predicate AllSucceed(w: World, ops: seq<Op>)
    decreases |ops|
  {
    ops == [] || (Succeeds(w, ops[0]) && TopicsApart(Step(w, ops[0]).devices) && AllSucceed(Step(w, ops[0]), ops[1..]))
  }

  ghost predicate Sound(w: World) {
    Distinct(DeviceIds(w.devices)) && TopicsApart(w.devices) && TopicsNormal(w.devices) && Agree(w.topics, w.devices)
  }

  lemma ChosenFrom(q: Device, generated: string)
    requires IsCanonical(q.bemfaTopic)
    ensures ChosenTopic(q, generated) == NormalizeTopic(if q.bemfaTopic == "" then generated else q.bemfaTopic)
  {
  }

  lemma FinalTopicNormal(q: Device, e: Env)
    requires q.bemfaEnable && IsCanonical(q.bemfaTopic) && ValidTopic(e.generated) && Validated(q, e.uidSet).None?
    ensures NormalizeTopic(FinalTopic(q, e.generated)) == FinalTopic(q, e.generated)
    ensures q.bemfaTopic != "" ==> FinalTopic(q, e.generated) == NormalizeTopic(q.bemfaTopic)
  {
    ChosenFrom(q, e.generated);
    ValidTopicIsNormal(if q.bemfaTopic == "" then e.generated else q.bemfaTopic);
  }

  lemma UpdateStays(ds: seq<Device>, i: nat, q: Device, n: Device)
    requires i < |ds| && TopicsApart(ds) && TopicsApart(ds[i := n]) && n.bemfaEnable == q.bemfaEnable
    requires n.bemfaEnable ==> !Blank(n.bemfaTopic)
    requires !Releases(ds[i], q) && Holds(ds[i], ds[i].bemfaTopic) ==> n.bemfaTopic == ds[i].bemfaTopic
    ensures UpdateKeeps(ds, i, q, n.bemfaTopic)
  {
    hide Blank, LastHolder;
    var after := ds[i := n];
    assert forall j: nat :: j < |ds| && j != i ==> after[j] == ds[j];
    assert after[i] == n;
  }

  lemma ReplaceSound(w: World, i: nat, q: Device, n: Device, after: Topics)
    requires Sound(w) && i < |w.devices| && n.id == w.devices[i].id && n.bemfaEnable == q.bemfaEnable
    requires n.bemfaEnable ==> !Blank(n.bemfaTopic) && NormalizeTopic(n.bemfaTopic) == n.bemfaTopic
    requires !Releases(w.devices[i], q) && Holds(w.devices[i], w.devices[i].bemfaTopic) ==> n.bemfaTopic == w.devices[i].bemfaTopic
    requires Edited(if Releases(w.devices[i], q) then Removed(w.topics, w.devices[i]) else w.topics, after, n)
    requires TopicsApart(w.devices[i := n])
    ensures Sound(World(w.devices[i := n], after))
  {
    SameIds(w.devices, i, n);
    UpdateStays(w.devices, i, q, n);
    AgreeAfterUpdate(w, i, q, n, after);
  }

  /** A request that does not release a topic in use keeps it. */
  lemma TopicKept(was: Device, q: Device, e: Env)
    requires IsCanonical(q.bemfaTopic) && ValidTopic(e.generated) && Validated(q, e.uidSet).None?
    requires was.bemfaEnable ==> NormalizeTopic(was.bemfaTopic) == was.bemfaTopic
    ensures !Releases(was, q) && Holds(was, was.bemfaTopic) ==> FinalTopic(q, e.generated) == was.bemfaTopic
    ensures q.bemfaEnable ==> NormalizeTopic(FinalTopic(q, e.generated)) == FinalTopic(q, e.generated)
  {
    hide Trim, Canonical, NormalizeTopic;
    if q.bemfaEnable { FinalTopicNormal(q, e); }
  }

  lemma ChangeSound(w: World, id: string, d: Device, e: Env)
    requires Sound(w) && Succeeds(w, Change(id, d, e)) && TopicsApart(Update(w, id, d, e).world.devices)
    ensures Sound(Update(w, id, d, e).world)
  {
    hide Trim, Canonical, NormalizeTopic, ValidTopic, Normalized, NormalizeDevice;
    UpdateEffect(w, id, d, e);
    var i := IndexOf(DeviceIds(w.devices), id);
    var q := Requested(w.devices[i], d);
    var r := Update(w, id, d, e);
    assert DeviceIds(w.devices)[i] == w.devices[i].id;
    TopicKept(w.devices[i], q, e);
    ReplaceSound(w, i, q, r.answer.device, r.world.topics);
  }

  lemma AppendSound(w: World, n: Device, after: Topics)
    requires Sound(w) && n.id != "" && n.id !in DeviceIds(w.devices)
    requires n.bemfaEnable ==> !Blank(n.bemfaTopic) && NormalizeTopic(n.bemfaTopic) == n.bemfaTopic
    requires Edited(w.topics, after, n) && TopicsApart(w.devices + [n])
    ensures Sound(World(w.devices + [n], after))
  {
    hide Blank, LastHolder;
    var ds := w.devices + [n];
    assert DeviceIds(ds) == DeviceIds(w.devices) + [n.id];
    forall j: nat | j < |w.devices| ensures !Holds(w.devices[j], n.bemfaTopic) {
      assert ds[j] == w.devices[j] && ds[|w.devices|] == n;
    }
    AgreeAfterAppend(w, n, after);
  }

  lemma AddSound(w: World, d: Device, e: Env)
    requires Sound(w) && Succeeds(w, Add(d, e)) && TopicsApart(Create(w, d, e).world.devices)
    ensures Sound(Create(w, d, e).world)
  {
    hide Trim, Canonical, NormalizeTopic, ValidTopic, Normalized, NormalizeDevice;
    CreateEffect(w, d, e);
    var r := Create(w, d, e);
    if d.bemfaEnable { FinalTopicNormal(Normalized(d.(id := "")), e); }
    AppendSound(w, r.answer.device, r.world.topics);
  }

  lemma RemoveKeepsTopics(ds: seq<Device>, i: nat)
    requires i < |ds| && TopicsApart(ds) && TopicsNormal(ds)
    ensures TopicsApart(ds[..i] + ds[i + 1..]) && TopicsNormal(ds[..i] + ds[i + 1..])
  {
    hide Blank, LastHolder;
    var after := ds[..i] + ds[i + 1..];
    assert forall j :: 0 <= j < |after| ==> after[j] == ds[if j < i then j else j + 1];
  }

  lemma DropSound(w: World, id: string)
    requires Sound(w)
    ensures Sound(Delete(w, id))
  {
    DeleteAgrees(w, id);
    var i := IndexOf(DeviceIds(w.devices), id);
    if i < |w.devices| {
      FilterKeepsDistinct(w.devices, OtherDevice(id), DeviceIds(w.devices), DeviceIds(Delete(w, id).devices), (d: Device) => d.id);
      FilterOutOne(w.devices, i, OtherDevice(id));
      RemoveKeepsTopics(w.devices, i);
    }
  }

  lemma StepSound(w: World, op: Op)
    requires Sound(w) && Succeeds(w, op) && TopicsApart(Step(w, op).devices)
    ensures Sound(Step(w, op))
  {
    match op
    case Add(d, e) => AddSound(w, d, e);
    case Change(id, d, e) => ChangeSound(w, id, d, e);
    case Drop(id) => DropSound(w, id);
    case Resync(net) =>
      assert Synced(w.topics, Wanted(w.devices), net) == Wanted(w.devices);
  }

  /** Over any run of succeeding operations in which no enabled device ever shares its topic, the map edited
      operation by operation is the map recomputed from the stored devices. */
  lemma {:induction false} RunsAgree(w: World, ops: seq<Op>)
    requires Sound(w) && AllSucceed(w, ops)
    ensures Run(w, ops).topics == Wanted(Run(w, ops).devices)
    decreases |ops|
  {
    if ops != [] {
      StepSound(w, ops[0]);
      RunsAgree(Step(w, ops[0]), ops[1..]);
    }
  }
}
