/** Adding a device from a connected client: which stored device is picked, and what a second identical call does. */
module FromClientModel {
  import opened Text
  import opened Config
  import opened BemfaModel
  import opened StoreModel
  import opened ServiceModel
  import V = Verdicts

  datatype ClientInfo = ClientInfo(nics: seq<NIC>, hostname: string)

  function ResolvedMac(mac: string, info: ClientInfo): string {
    if mac == "" && info.nics != [] then info.nics[0].mac else mac
  }

  function ResolvedName(name: string, info: ClientInfo, key: string): string {
    if name != "" then name else if info.hostname != "" then info.hostname else key
  }

  /** The first interface with this MAC. */
  function MatchingNic(nics: seq<NIC>, mac: string): Option<NIC> {
    if nics == [] then None
    else if EqualFold(nics[0].mac, mac) then Some(nics[0])
    else MatchingNic(nics[1..], mac)
  }

  /** What the call writes over a device. */
  datatype Fill = Fill(name: string, mac: string, broadcast: string, key: string, nic: string)

  function Filling(key: string, mac: string, name: string, info: ClientInfo): Fill {
    var m := ResolvedMac(mac, info);
    var nic := MatchingNic(info.nics, m);
    Fill(ResolvedName(name, info, key), m,
         if nic.Some? && nic.value.broadcast != [] then nic.value.broadcast[0] else "",
         key, if nic.Some? then nic.value.name else "")
  }

  lemma FillingResolved(key: string, mac: string, name: string, info: ClientInfo)
    requires ResolvedMac(mac, info) != ""
    ensures Filling(key, ResolvedMac(mac, info), name, info) == Filling(key, mac, name, info)
  {
    hide MatchingNic;
  }

  function Filled(d: Device, f: Fill): Device {
    d.(name := f.name, mac := f.mac, broadcast := f.broadcast, boundClientKey := f.key,
       preferredNIC := if f.nic != "" then f.nic else d.preferredNIC)
  }

  const TEMPLATE: Device := Device("", "", "", "", 9, 3, false, "", "", "", "", "off", "", 0, 0, 0, 0)

  predicate Matches(d: Device, key: string, mac: string) {
    d.boundClientKey == key || EqualFold(d.mac, mac)
  }

  /** Position of the first device bound to the key or having the MAC; the length when there is none. */
  function Pick(ds: seq<Device>, key: string, mac: string): (p: nat)
    ensures p <= |ds| && (p < |ds| ==> Matches(ds[p], key, mac))
    ensures forall j :: 0 <= j < p ==> !Matches(ds[j], key, mac)
  {
    if ds == [] then 0
    else if Matches(ds[0], key, mac) then 0
    else 1 + Pick(ds[1..], key, mac)
  }

  lemma PickIs(ds: seq<Device>, key: string, mac: string, p: nat)
    requires p <= |ds| && (p < |ds| ==> Matches(ds[p], key, mac)) && forall j :: 0 <= j < p ==> !Matches(ds[j], key, mac)
    ensures Pick(ds, key, mac) == p
  {
    hide Trim, Lower;
  }

  function FromClient(w: World, key: string, mac: string, name: string, client: Option<ClientInfo>, e: Env): Result {
    if client.None? then Result(w, Refused(ClientOffline))
    else if ResolvedMac(mac, client.value) == "" then Result(w, Refused(NoMac))
    else
      StoreMatch(w, Filling(key, mac, name, client.value), e)
  }

  /** Updates the first device that matches, or creates one. */
  function StoreMatch(w: World, f: Fill, e: Env): Result {
    var p := Pick(w.devices, f.key, f.mac);
    if p < |w.devices| then Update(w, w.devices[p].id, Filled(w.devices[p], f), e)
    else Create(w, Filled(TEMPLATE, f), e)
  }

  /** Equal up to the two timestamps. */
  predicate SameButTimes(a: Device, b: Device) {
    a.(createdAt := b.createdAt, updatedAt := b.updatedAt) == b
  }

  // -- what is stored --

  lemma StoredValue(ds: seq<Device>, d: Device, now: int, freshId: string)
    requires StoredDevice(ds, d, now, freshId).Done?
    ensures SameButTimes(StoredDevice(ds, d, now, freshId).value, NormalizeDevice(d).(id := if d.id == "" then freshId else d.id))
  {
  }

  /** The record a request becomes: store defaults, its id, its final topic. */
  function Settled(q: Device, id: string, topic: string): Device {
    NormalizeDevice(q).(id := id, bemfaTopic := topic)
  }

  lemma StoredInRange(ds: seq<Device>, d: Device, now: int, freshId: string)
    requires StoredDevice(ds, d, now, freshId).Done? && DeviceInRange(d) && d.id != ""
    ensures SameButTimes(StoredDevice(ds, d, now, freshId).value, d)
  {
    hide StoredDevice, ProbeInRange, Trim;
    StoredValue(ds, d, now, freshId);
  }

  lemma FinishSettles(w: World, saved: Device, storeOnError: bool, e: Env)
    requires Finish(w, saved, storeOnError, e).answer.Answered? && saved.id != "" && DeviceInRange(saved)
    ensures SameButTimes(Finish(w, saved, storeOnError, e).answer.device, saved.(bemfaTopic := FinalTopic(saved, e.generated)))
  {
    hide Trim, Canonical, ValidTopic, NormalizeTopic, ProbeMethod;
    EnsuredDevice(w.topics, saved, e);
    var ensured := Ensure(w.topics, saved, e.uid, e.live, e.net, e.generated).device;
    StoredInRange(w.devices, ensured, e.later, e.freshId);
  }

  lemma StoreSettles(w: World, q: Device, storeOnError: bool, e: Env)
    requires StoreAndFinish(w, q, storeOnError, e).answer.Answered? && (q.id == "" ==> e.freshId != "")
    ensures var n := StoreAndFinish(w, q, storeOnError, e).answer.device;
            SameButTimes(n, Settled(q, if q.id == "" then e.freshId else q.id, FinalTopic(q, e.generated)))
  {
    hide Trim, Canonical, ValidTopic, NormalizeTopic, ProbeMethod;
    var stored := StoredDevice(w.devices, q, e.now, e.freshId).value;
    StoredValue(w.devices, q, e.now, e.freshId);
    FinishSettles(w.(devices := WithDevice(w.devices, q.id, stored)), stored, storeOnError, e);
  }

  /** A request field the service normalizes is left alone the second time. */
  predicate Tidy(d: Device) {
    && Trimmed(d.name) && Trimmed(d.mac) && Trimmed(d.broadcast) && IsCanonical(d.bemfaTopic) && Trimmed(d.bemfaName)
    && Trimmed(d.boundClientKey) && Trimmed(d.preferredNIC) && Trimmed(d.probeHost)
    && IsCanonical(d.probeMethod) && d.probeMethod != "" && d.port > 0 && d.repeats > 0
  }

  lemma NormalizedIsTidy(d: Device)
    ensures Tidy(Normalized(d))
  {
    hide Trim, Canonical, ValidTopic, NormalizeTopic, ProbeMethod;
  }

  lemma SameFields(a: Device, b: Device)
    requires a.name == b.name && a.mac == b.mac && a.broadcast == b.broadcast && a.bemfaTopic == b.bemfaTopic
    requires a.bemfaName == b.bemfaName && a.boundClientKey == b.boundClientKey && a.preferredNIC == b.preferredNIC
    requires a.probeHost == b.probeHost && a.probeMethod == b.probeMethod && a.port == b.port && a.repeats == b.repeats
    requires a.id == b.id && a.bemfaEnable == b.bemfaEnable && a.probePort == b.probePort
    requires a.probeInterval == b.probeInterval && a.createdAt == b.createdAt && a.updatedAt == b.updatedAt
    ensures a == b
  {
  }

  lemma TidyIsNormalized(d: Device)
    requires Tidy(d)
    ensures Normalized(d) == d
  {
    hide Trim, Canonical, ValidTopic, NormalizeTopic, ProbeMethod;
    SameFields(Normalized(d), d);
  }

  /** Filling a stored device with what it was made from gives the same request again. */
  lemma RefillSettles(b: Device, f: Fill, q: Device, n: Device)
    requires q == Normalized(Filled(b, f).(id := q.id, createdAt := q.createdAt))
    requires SameButTimes(n, Settled(q, n.id, n.bemfaTopic)) && IsCanonical(n.bemfaTopic)
    ensures SameButTimes(Normalized(Filled(n, f)), n)
  {
    hide Trim, Canonical, ValidTopic, NormalizeTopic, ProbeMethod;
    NormalizedIsTidy(Filled(b, f).(id := q.id, createdAt := q.createdAt));
    TidyIsNormalized(n);
  }

  /** The request that reaches the store. */
  function RequestOf(ds: seq<Device>, p: nat, f: Fill): Device
    requires p <= |ds|
  {
    if p < |ds| then Requested(ds[p], Filled(ds[p], f)) else Normalized(Filled(TEMPLATE, f).(id := ""))
  }

  /** The map when the store is reached: an update may have released the old topic. */
  function TopicsBefore(w: World, p: nat, q: Device): Topics
    requires p <= |w.devices|
  {
    if p < |w.devices| && Releases(w.devices[p], q) then Removed(w.topics, w.devices[p]) else w.topics
  }

  /** The answer is request q settled under this id; it lies in slot p, and the map is edited at its topic. */
  ghost predicate StoresAs(ds: seq<Device>, topics: Topics, p: nat, q: Device, id: string, e: Env, r: Result)
    requires p <= |ds|
  {
    && r.answer.Answered? && Validated(q, e.uidSet).None? && r.world.devices == PutAt(ds, p, r.answer.device)
    && SameButTimes(r.answer.device, Settled(q, id, FinalTopic(q, e.generated)))
    && Edited(topics, r.world.topics, r.answer.device)
  }

  lemma UpdateStores(w: World, p: nat, d: Device, e: Env)
    requires Distinct(DeviceIds(w.devices)) && p < |w.devices| && Update(w, w.devices[p].id, d, e).answer.Answered?
    ensures var q := Requested(w.devices[p], d);
            StoresAs(w.devices, TopicsBefore(w, p, q), p, q, q.id, e, Update(w, q.id, d, e))
  {
    hide Trim, Canonical, ValidTopic, NormalizeTopic, ProbeMethod;
    var id := w.devices[p].id;
    assert DeviceIds(w.devices)[p] == id;
    IndexIs(DeviceIds(w.devices), id, p);
    UpdateEffect(w, id, d, e);
    var q := Requested(w.devices[p], d);
    StoreSettles(w.(topics := TopicsBefore(w, p, q)), q, false, e);
  }

  lemma CreateStores(w: World, d: Device, e: Env)
    requires Distinct(DeviceIds(w.devices)) && e.freshId != "" && e.freshId !in DeviceIds(w.devices)
    requires Create(w, d, e).answer.Answered?
    ensures var q := Normalized(d.(id := ""));
            StoresAs(w.devices, w.topics, |w.devices|, q, e.freshId, e, Create(w, d, e))
  {
    hide Trim, Canonical, ValidTopic, NormalizeTopic, ProbeMethod;
    CreateEffect(w, d, e);
    StoreSettles(w, Normalized(d.(id := "")), true, e);
  }

  /** Called for a connected client that has a MAC, with a fresh random id, and answered. */
  ghost predicate Answers(w: World, key: string, mac: string, name: string, info: ClientInfo, e: Env) {
    && Distinct(DeviceIds(w.devices)) && e.freshId != "" && e.freshId !in DeviceIds(w.devices)
    && FromClient(w, key, mac, name, Some(info), e).answer.Answered?
  }

  /** The call stores one device, in the slot of the first that matches or else at the end. */
  lemma OneDeviceStored(w: World, key: string, mac: string, name: string, info: ClientInfo, e: Env)
    requires Answers(w, key, mac, name, info, e)
    ensures var f := Filling(key, mac, name, info);
            var p := Pick(w.devices, key, f.mac);
            var q := RequestOf(w.devices, p, f);
            StoresAs(w.devices, TopicsBefore(w, p, q), p, q, if p < |w.devices| then w.devices[p].id else e.freshId, e,
                     FromClient(w, key, mac, name, Some(info), e))
  {
    hide Trim, Canonical, NormalizeTopic, ValidTopic, NormalizeDevice, Normalized, Ensure, Finish;
    var f := Filling(key, mac, name, info);
    var p := Pick(w.devices, key, f.mac);
    if p < |w.devices| {
      UpdateStores(w, p, Filled(w.devices[p], f), e);
    } else {
      CreateStores(w, Filled(TEMPLATE, f), e);
    }
  }

  // -- calling twice --

  lemma TrimmedIff(s: string)
    ensures EqualFold(Trim(s), s) <==> Trimmed(s)
    ensures Trim(s) == s <==> Trimmed(s)
  {
    hide TrimLeft, TrimRight, IsSpace;
    var left := TrimLeft(s);
    if |Trim(s)| == |s| { assert left == s && TrimRight(left) == left; }
  }

  lemma PickAgain(ds: seq<Device>, n: Device, key: string, mac: string)
    requires n.boundClientKey == Trim(key) && n.mac == Trim(mac)
    ensures var p := Pick(ds, key, mac);
            Pick(PutAt(ds, p, n), key, mac) == p <==> Trimmed(key) || Trimmed(mac)
  {
    hide Trim, Lower;
    var p := Pick(ds, key, mac);
    var after := PutAt(ds, p, n);
    assert after[p] == n;
    TrimmedIff(key);
    TrimmedIff(mac);
    if Trimmed(key) || Trimmed(mac) { PickIs(after, key, mac, p); }
  }

  lemma StoredKeys(ds: seq<Device>, p: nat, f: Fill, n: Device, id: string, topic: string)
    requires p <= |ds| && SameButTimes(n, Settled(RequestOf(ds, p, f), id, topic))
    ensures n.boundClientKey == Trim(f.key) && n.mac == Trim(f.mac)
  {
  }

  /** The second identical call picks the device of the first exactly when the key or the MAC carries no outer white
      space; otherwise neither is found in the stored, trimmed record. */
  lemma PicksAgainIff(w: World, key: string, mac: string, name: string, info: ClientInfo, e: Env)
    requires Answers(w, key, mac, name, info, e)
    ensures var m := ResolvedMac(mac, info);
            var after := FromClient(w, key, mac, name, Some(info), e).world;
            Pick(after.devices, key, m) == Pick(w.devices, key, m) <==> Trimmed(key) || Trimmed(m)
  {
    hide Trim, Canonical, ValidTopic, NormalizeTopic, ProbeMethod;
    var f := Filling(key, mac, name, info);
    var p := Pick(w.devices, key, f.mac);
    OneDeviceStored(w, key, mac, name, info, e);
    var n := FromClient(w, key, mac, name, Some(info), e).answer.device;
    var q := RequestOf(w.devices, p, f);
    StoredKeys(w.devices, p, f, n, if p < |w.devices| then w.devices[p].id else e.freshId, FinalTopic(q, e.generated));
    PickAgain(w.devices, n, key, f.mac);
  }

  lemma FinalTopicSettled(q: Device, e: Env)
    requires q.bemfaEnable && IsCanonical(q.bemfaTopic) && ValidTopic(e.generated) && Validated(q, e.uidSet).None?
    ensures var t := FinalTopic(q, e.generated); NormalizeTopic(t) == t && IsCanonical(t) && t != ""
  {
    ChosenFrom(q, e.generated);
    ValidTopicIsNormal(if q.bemfaTopic == "" then e.generated else q.bemfaTopic);
  }

  /** Subscribing or releasing a device again changes nothing. */
  lemma TopicsAgain(before: Topics, once: Topics, twice: Topics, n: Device)
    requires Edited(before, once, n)
    requires Edited(if n.bemfaTopic != "" && !n.bemfaEnable then Removed(once, n) else once, twice, n)
    ensures twice == once
  {
    forall t ensures Lookup(twice, t) == Lookup(once, t) {
      assert Lookup(once, t) == LookupAfter(before, n, t);
    }
    LookupsDecide(twice, once);
  }

  /** The base record a request was filled into. */
  lemma RequestIsFilled(ds: seq<Device>, p: nat, f: Fill)
    requires p <= |ds|
    ensures var q := RequestOf(ds, p, f);
            q == Normalized(Filled(if p < |ds| then ds[p] else TEMPLATE, f).(id := q.id, createdAt := q.createdAt))
  {
  }

  /** The topic a settled device ends up with the next time is the one it has. */
  lemma TopicStays(q: Device, e: Env, again: Device, generated: string)
    requires IsCanonical(q.bemfaTopic) && ValidTopic(e.generated) && Validated(q, e.uidSet).None?
    requires again.bemfaEnable == q.bemfaEnable && again.bemfaTopic == FinalTopic(q, e.generated)
    ensures IsCanonical(again.bemfaTopic) && FinalTopic(again, generated) == again.bemfaTopic
  {
    if q.bemfaEnable {
      FinalTopicSettled(q, e);
      ChosenFrom(again, generated);
    }
  }

  lemma SettledInRange(q: Device, n: Device, id: string, topic: string)
    requires SameButTimes(n, Settled(q, id, topic))
    ensures DeviceInRange(n) && n.bemfaEnable == q.bemfaEnable && n.bemfaTopic == topic
  {
  }

  lemma SettledAgain(n: Device, again: Device, generated: string)
    requires DeviceInRange(n) && SameButTimes(again, n) && FinalTopic(n, generated) == n.bemfaTopic
    ensures SameButTimes(Settled(again, n.id, FinalTopic(again, generated)), n)
  {
    assert FinalTopic(again, generated) == FinalTopic(n, generated);
    assert DeviceInRange(again);
  }

  lemma FillAgain(ds: seq<Device>, p: nat, f: Fill, n: Device)
    requires p <= |ds| && SameButTimes(n, Settled(RequestOf(ds, p, f), n.id, n.bemfaTopic)) && IsCanonical(n.bemfaTopic)
    ensures SameButTimes(Requested(n, Filled(n, f)), n)
  {
    hide Trim, Canonical, ValidTopic, NormalizeTopic, ProbeMethod;
    RequestIsFilled(ds, p, f);
    RefillSettles(if p < |ds| then ds[p] else TEMPLATE, f, RequestOf(ds, p, f), n);
    RequestedTimes(n, f);
  }

  lemma RequestCanonical(ds: seq<Device>, p: nat, f: Fill)
    requires p <= |ds|
    ensures IsCanonical(RequestOf(ds, p, f).bemfaTopic)
  {
  }

  /** Filling the stored device again gives a request that settles as exactly the stored device. */
  lemma SecondRequest(ds: seq<Device>, p: nat, f: Fill, e: Env, n: Device, generated: string)
    requires p <= |ds| && ValidTopic(e.generated)
    requires var q := RequestOf(ds, p, f);
             Validated(q, e.uidSet).None? && SameButTimes(n, Settled(q, n.id, FinalTopic(q, e.generated)))
    ensures var again := Requested(n, Filled(n, f));
            SameButTimes(again, n) && SameButTimes(Settled(again, n.id, FinalTopic(again, generated)), n)
  {
    hide Trim, Canonical, ValidTopic, NormalizeTopic, ProbeMethod;
    var q := RequestOf(ds, p, f);
    SettledInRange(q, n, n.id, FinalTopic(q, e.generated));
    RequestCanonical(ds, p, f);
    TopicStays(q, e, n, generated);
    FillAgain(ds, p, f, n);
    SettledAgain(n, Requested(n, Filled(n, f)), generated);
  }

  lemma RequestedTimes(n: Device, f: Fill)
    ensures SameButTimes(Requested(n, Filled(n, f)), Normalized(Filled(n, f)))
  {
  }

  ghost predicate SameListButTimes(a: seq<Device>, b: seq<Device>) {
    |a| == |b| && forall i :: 0 <= i < |a| ==> SameButTimes(a[i], b[i])
  }

  lemma SameSteps(a: Device, b: Device, c: Device)
    requires SameButTimes(a, b) && SameButTimes(b, c)
    ensures SameButTimes(a, c)
  {
  }

  lemma EditedAlike(before: Topics, after: Topics, m: Device, n: Device)
    requires Edited(before, after, m) && SameButTimes(m, n)
    ensures Edited(before, after, n)
  {
    forall t ensures Lookup(after, t) == LookupAfter(before, n, t) {
      assert Lookup(after, t) == LookupAfter(before, m, t);
    }
  }

  lemma ReleasesAgain(once: World, p: nat, n: Device, again: Device)
    requires p < |once.devices| && once.devices[p] == n && SameButTimes(again, n)
    ensures TopicsBefore(once, p, again) == if n.bemfaTopic != "" && !n.bemfaEnable then Removed(once.topics, n) else once.topics
  {
  }

  /** Storing an equal device over the first one again, with the map edited once more at its topic. */
  lemma StoresAgain(before: Topics, once: World, p: nat, n: Device, again: Device, e: Env, r: Result)
    requires p < |once.devices| && once.devices[p] == n && Edited(before, once.topics, n)
    requires SameButTimes(again, n) && SameButTimes(Settled(again, n.id, FinalTopic(again, e.generated)), n)
    requires StoresAs(once.devices, TopicsBefore(once, p, again), p, again, n.id, e, r)
    ensures SameListButTimes(r.world.devices, once.devices) && r.world.topics == once.topics
  {
    hide Trim, Canonical, ValidTopic, NormalizeTopic, ProbeMethod;
    var m := r.answer.device;
    SameSteps(m, Settled(again, n.id, FinalTopic(again, e.generated)), n);
    EditedAlike(TopicsBefore(once, p, again), r.world.topics, m, n);
    ReleasesAgain(once, p, n, again);
    TopicsAgain(before, once.topics, r.world.topics, n);
  }

  /** A second identical call, with unchanged client information, stores the same list up to timestamps and leaves the
      topic map alone, as soon as the key or the MAC is trimmed. */
  lemma FromClientTwice(w: World, key: string, mac: string, name: string, info: ClientInfo, e: Env, e2: Env)
    requires Answers(w, key, mac, name, info, e) && ValidTopic(e.generated)
    requires Answers(FromClient(w, key, mac, name, Some(info), e).world, key, mac, name, info, e2)
    requires Trimmed(key) || Trimmed(ResolvedMac(mac, info))
    ensures var once := FromClient(w, key, mac, name, Some(info), e).world;
            var twice := FromClient(once, key, mac, name, Some(info), e2).world;
            SameListButTimes(twice.devices, once.devices) && twice.topics == once.topics
  {
    hide Trim, Canonical, ValidTopic, NormalizeTopic, ProbeMethod;
    var f := Filling(key, mac, name, info);
    var p := Pick(w.devices, key, f.mac);
    var r := FromClient(w, key, mac, name, Some(info), e);
    OneDeviceStored(w, key, mac, name, info, e);
    PicksAgainIff(w, key, mac, name, info, e);
    OneDeviceStored(r.world, key, mac, name, info, e2);
    SecondRequest(w.devices, p, f, e, r.answer.device, e2.generated);
    StoresAgain(TopicsBefore(w, p, RequestOf(w.devices, p, f)), r.world, p, r.answer.device,
                Requested(r.answer.device, Filled(r.answer.device, f)), e2,
                FromClient(r.world, key, mac, name, Some(info), e2));
  }

  // -- what a client's device is filled with --

  /** Position of the first interface that has the MAC in any case. */
  predicate FirstNic(nics: seq<NIC>, mac: string, i: nat) {
    && i < |nics| && EqualFold(nics[i].mac, mac) && forall j :: 0 <= j < i ==> !EqualFold(nics[j].mac, mac)
  }

  lemma {:induction false} MatchingIsFirst(nics: seq<NIC>, mac: string)
    ensures MatchingNic(nics, mac).None? <==> forall i: nat :: !FirstNic(nics, mac, i)
    ensures forall i: nat :: FirstNic(nics, mac, i) ==> MatchingNic(nics, mac) == Some(nics[i])
  {
    hide Lower;
    if nics != [] {
      MatchingIsFirst(nics[1..], mac);
      if EqualFold(nics[0].mac, mac) {
        assert FirstNic(nics, mac, 0);
      } else {
        forall i: nat ensures FirstNic(nics, mac, i) <==> i > 0 && FirstNic(nics[1..], mac, i - 1) {
          if i > 0 { assert forall j :: 0 < j < |nics| ==> nics[1..][j - 1] == nics[j]; }
        }
        if MatchingNic(nics[1..], mac).Some? {
          var i: nat :| FirstNic(nics[1..], mac, i);
          assert FirstNic(nics, mac, i + 1);
        }
      }
    }
  }

  /** The name given, else the host name, else the key; the MAC given, else that of the first interface; and from the first
      interface with that MAC its name and first broadcast address. */
  lemma FillingIs(key: string, mac: string, name: string, info: ClientInfo)
    ensures var f := Filling(key, mac, name, info);
            && f.key == key
            && (name != "" ==> f.name == name) && (name == "" && info.hostname != "" ==> f.name == info.hostname)
            && (name == "" && info.hostname == "" ==> f.name == key)
            && (mac != "" || info.nics == [] ==> f.mac == mac) && (mac == "" && info.nics != [] ==> f.mac == info.nics[0].mac)
            && (forall i: nat :: FirstNic(info.nics, f.mac, i) ==>
                  f.nic == info.nics[i].name
                  && f.broadcast == if info.nics[i].broadcast == [] then "" else info.nics[i].broadcast[0])
            && ((forall i: nat :: !FirstNic(info.nics, f.mac, i)) ==> f.nic == "" && f.broadcast == "")
  {
    hide FirstNic, MatchingNic;
    MatchingIsFirst(info.nics, ResolvedMac(mac, info));
  }

  /** An answered call has stored the match with its name, MAC, broadcast, key and interface replaced, or else a new device
      that has these, no topic and the defaults everywhere else. */
  lemma FromClientMakes(w: World, key: string, mac: string, name: string, info: ClientInfo, e: Env)
    requires FromClient(w, key, mac, name, Some(info), e).answer.Answered?
    requires Distinct(DeviceIds(w.devices)) && e.freshId != "" && e.freshId !in DeviceIds(w.devices)
    ensures var n, f := FromClient(w, key, mac, name, Some(info), e).answer.device, Filling(key, mac, name, info);
            var p := Pick(w.devices, key, f.mac);
            && n.name == Trim(f.name) && n.mac == Trim(f.mac) && n.broadcast == Trim(f.broadcast) && n.boundClientKey == Trim(key)
            && (if p < |w.devices| then
                  var was := w.devices[p];
                  && n.id == was.id && n.preferredNIC == Trim(if f.nic != "" then f.nic else was.preferredNIC)
                  && V.Made(n, was.(name := f.name, mac := f.mac, broadcast := f.broadcast, boundClientKey := key,
                                    preferredNIC := if f.nic != "" then f.nic else was.preferredNIC), was.id, n.bemfaTopic)
                else
                  && n.id == e.freshId && n.preferredNIC == Trim(f.nic) && n.port == 9 && n.repeats == 3
                  && !n.bemfaEnable && n.bemfaTopic == "" && n.probeMethod == "off" && n.probeInterval == 60)
  {
    hide Filling, Pick, Update, Create, Trim, Canonical, V.TopicFor, Blank;
    var f := Filling(key, mac, name, info);
    FillingIs(key, mac, name, info);
    StoredFor(w, key, mac, name, info, e);
    var p := Pick(w.devices, key, f.mac);
    if p < |w.devices| {
      V.UpdateMakes(w, p, Filled(w.devices[p], f), e);
    } else {
      V.CreateMakes(w, Filled(TEMPLATE, f), e);
      OffMethod(Filled(TEMPLATE, f));
    }
  }

  lemma StoredFor(w: World, key: string, mac: string, name: string, info: ClientInfo, e: Env)
    ensures FromClient(w, key, mac, name, Some(info), e).answer.Answered? ==>
              FromClient(w, key, mac, name, Some(info), e) == StoreMatch(w, Filling(key, mac, name, info), e)
    ensures Filling(key, mac, name, info).key == key
  {
    hide StoreMatch;
  }

  lemma OffMethod(d: Device)
    requires d.probeMethod == "off" && d.bemfaTopic == ""
    ensures V.E.MethodOf(d) == "off" && Canonical(d.bemfaTopic) == ""
  {
    OffIsCanonical();
    assert !IsSpace(d.probeMethod[0]);
  }
}
