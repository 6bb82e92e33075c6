/** The device service: the store and the broker manager edited together, step by step. */
module Service {
  import opened Text
  import opened Config
  import opened BemfaModel
  import opened ServiceModel
  import M = FromClientModel
  import S = Store
  import B = Bemfa
  import L = Hub
  import Slices

  /** What a call meets, with the two saves it may make. */
  function EnvOf(uidSet: bool, uid: string, live: bool, c: Circumstances): Env {
    Env(uidSet, uid, live, c.net, c.generated, c.now, c.later, c.freshId, c.firstSave.Succeeds?, c.secondSave.Succeeds?)
  }

  datatype Circumstances = Circumstances(net: Net, generated: string, now: int, later: int, freshId: string,
                                         firstSave: S.IO, secondSave: S.IO)

  class DeviceService {
    const store: S.ConfigStore
    const bemfa: B.Manager
    const hub: L.ClientHub

    constructor (store: S.ConfigStore, hub: L.ClientHub, bemfa: B.Manager)
      ensures this.store == store && this.hub == hub && this.bemfa == bemfa
    {
      this.store := store;
      this.hub := hub;
      this.bemfa := bemfa;
    }

    ghost predicate Valid()
      reads this, store, store.groups.arr, bemfa, bemfa.dev
    {
      store.Valid() && bemfa.Valid()
    }

    ghost function View(): World
      requires Valid()
      reads this, store, store.groups.arr, store.devices.arr, bemfa, bemfa.dev
    {
      World(store.Devices(), bemfa.topics)
    }

    ghost function Surroundings(c: Circumstances): Env
      reads this, store, bemfa
    {
      EnvOf(Trim(store.settings.bemfaUID) != "", bemfa.uid, bemfa.dev != null, c)
    }

    /** Subscribes the stored device and stores it again with the topic it ended up with. */
    method FinishUpdate(saved: Device, storeOnError: bool, c: Circumstances) returns (a: Answer)
      requires Valid()
      modifies store`devices, store`disk, store.devices.arr, bemfa`topics, bemfa.dev
      ensures Valid() && (store.devices.arr == old(store.devices.arr) || fresh(store.devices.arr))
      ensures store.Groups() == old(store.Groups()) && store.Schedules() == old(store.Schedules())
      ensures Result(View(), a) == Finish(old(View()), saved, storeOnError, old(Surroundings(c)))
    {
      hide Trim, Canonical, NormalizeTopic, ValidTopic, NormalizeDevice, S.CellValues, S.MemberArrays, StoredDevice, WithDevice, Ensure;
      var d, error := bemfa.EnsureDevice(saved, c.net, c.generated);
      S.CellsKept(store.groups.Elems());
      if error.Some? {
        if storeOnError {
          var _ := store.UpsertDevice(d, c.later, c.freshId, c.secondSave);
        }
        return Refused(NotEnsured(error.value));
      }
      var r := store.UpsertDevice(d, c.later, c.freshId, c.secondSave);
      a := if r.Done? then Answered(r.value) else Refused(NotStored(r.fault));
    }

    method StoreThenFinish(d: Device, storeOnError: bool, c: Circumstances) returns (a: Answer)
      requires Valid()
      modifies store`devices, store`disk, store.devices.arr, bemfa`topics, bemfa.dev
      ensures Valid() && (store.devices.arr == old(store.devices.arr) || fresh(store.devices.arr))
      ensures store.Groups() == old(store.Groups()) && store.Schedules() == old(store.Schedules())
      ensures Result(View(), a) == StoreAndFinish(old(View()), d, storeOnError, old(Surroundings(c)))
    {
      hide Trim, Canonical, NormalizeTopic, ValidTopic, NormalizeDevice, Finish, StoredDevice, WithDevice, S.CellValues, S.MemberArrays;
      var r := store.UpsertDevice(d, c.now, c.freshId, c.firstSave);
      if r.Fail? { return Refused(NotStored(r.fault)); }
      a := FinishUpdate(r.value, storeOnError, c);
    }

    method Check(d: Device) returns (why: Option<Why>)
      ensures why == Validated(d, Trim(store.settings.bemfaUID) != "")
    {
      if !d.bemfaEnable { return None; }
      if Trim(store.settings.bemfaUID) == "" { return Some(UidMissing); }
      if d.bemfaTopic != "" {
        if !ValidTopic(d.bemfaTopic) { return Some(TopicInvalid); }
      }
      return None;
    }

    method CreateDevice(d: Device, c: Circumstances) returns (a: Answer)
      requires Valid()
      modifies store`devices, store`disk, store.devices.arr, bemfa`topics, bemfa.dev
      ensures Valid() && (store.devices.arr == old(store.devices.arr) || fresh(store.devices.arr))
      ensures store.Groups() == old(store.Groups()) && store.Schedules() == old(store.Schedules())
      ensures Result(View(), a) == Create(old(View()), d, old(Surroundings(c)))
    {
      hide Trim, Canonical, NormalizeTopic, ValidTopic, NormalizeDevice, Normalized, StoreAndFinish, S.CellValues, S.MemberArrays, Validated;
      var q := Normalized(d.(id := ""));
      var why := Check(q);
      if why.Some? { return Refused(why.value); }
      a := StoreThenFinish(q, true, c);
    }

    /** Takes the old topic out of the map if need be, then stores. */
    method ReleaseAndStore(was: Device, q: Device, c: Circumstances) returns (a: Answer)
      requires Valid()
      modifies store`devices, store`disk, store.devices.arr, bemfa`topics, bemfa.dev
      ensures Valid() && (store.devices.arr == old(store.devices.arr) || fresh(store.devices.arr))
      ensures store.Groups() == old(store.Groups()) && store.Schedules() == old(store.Schedules())
      ensures var w := old(View());
              Result(View(), a) == StoreAndFinish(if Releases(was, q) then w.(topics := Removed(w.topics, was)) else w,
                                                  q, false, old(Surroundings(c)))
    {
      hide StoreAndFinish, S.CellValues, S.MemberArrays;
      if was.bemfaTopic != "" && (was.bemfaTopic != q.bemfaTopic || !q.bemfaEnable) {
        bemfa.RemoveDevice(was, c.net);
        S.CellsKept(store.groups.Elems());
      }
      a := StoreThenFinish(q, false, c);
    }

    method UpdateStored(was: Device, d: Device, c: Circumstances) returns (a: Answer)
      requires Valid()
      modifies store`devices, store`disk, store.devices.arr, bemfa`topics, bemfa.dev
      ensures Valid() && (store.devices.arr == old(store.devices.arr) || fresh(store.devices.arr))
      ensures store.Groups() == old(store.Groups()) && store.Schedules() == old(store.Schedules())
      ensures Result(View(), a) == UpdateFound(old(View()), was, d, old(Surroundings(c)))
    {
      hide Trim, Normalized, StoreAndFinish, S.CellValues, S.MemberArrays, Validated, Removed;
      var q := d.(id := was.id);
      if q.createdAt == 0 { q := q.(createdAt := was.createdAt); }
      q := Normalized(q);
      var why := Check(q);
      if why.Some? { return Refused(why.value); }
      a := ReleaseAndStore(was, q, c);
    }

    method UpdateDevice(id: string, d: Device, c: Circumstances) returns (a: Answer)
      requires Valid()
      modifies store`devices, store`disk, store.devices.arr, bemfa`topics, bemfa.dev
      ensures Valid() && (store.devices.arr == old(store.devices.arr) || fresh(store.devices.arr))
      ensures store.Groups() == old(store.Groups()) && store.Schedules() == old(store.Schedules())
      ensures Result(View(), a) == Update(old(View()), id, d, old(Surroundings(c)))
    {
      hide UpdateFound, S.CellValues, S.MemberArrays;
      var found := store.GetDevice(id);
      if found.None? { return Refused(UnknownDevice); }
      a := UpdateStored(found.value, d, c);
    }

    method DeleteDevice(id: string, net: Net, io: S.IO) returns (ok: bool)
      requires Valid()
      modifies store`devices, store`disk, store.devices.arr, store.groups.arr, S.MemberArrays(store.groups.Elems()), bemfa`topics, bemfa.dev
      ensures Valid() && View() == Delete(old(View()), id) && store.Schedules() == old(store.Schedules())
      ensures ok <==> id in DeviceIds(old(store.Devices())) && io.Succeeds?
    {
      hide S.CellValues, S.MemberArrays, WithoutDevice, DropMembers, FindDevice, DeviceIds;
      FoundIffStored(store.Devices(), id);
      var d := store.GetDevice(id);
      if d.Some? {
        bemfa.RemoveDevice(d.value, net);
        S.CellsKept(store.groups.Elems());
      }
      ok := store.DeleteDevice(id, io);
    }

    /** A change of the settings: the hub takes the new token, the manager is reconfigured with a copy of the stored
        devices. */
    method OnSettingsChanged(net: Net) returns (ok: bool)
      requires Valid()
      modifies hub`token, bemfa, bemfa.dev
      ensures Valid() && store.Devices() == old(store.Devices())
      ensures hub.token == store.settings.clientToken && hub.View() == old(hub.View())
      ensures bemfa.uid == SanitizeUid(store.settings.bemfaUID)
      ensures var same := old(bemfa.dev) != null && bemfa.uid == old(bemfa.uid);
              var connects := bemfa.uid != "" && !net.startFails;
              && (bemfa.dev != null <==> same || connects) && (ok <==> same || connects || bemfa.uid == "")
              && bemfa.topics == if same then Synced(old(bemfa.topics), Wanted(store.Devices()), net)
                                 else if connects then Synced(map[], Wanted(store.Devices()), net) else map[]
    {
      hide S.CellValues, S.MemberArrays, Synced, Wanted, SanitizeUid;
      var ds, _, _ := store.Snapshot();
      hub.SetToken(store.settings.clientToken);
      ok := bemfa.Reconfigure(store.settings.bemfaUID, ds.arr[..ds.len], net);
    }

    /** The first interface with this MAC. */
    method FindNic(nics: seq<NIC>, mac: string) returns (nic: Option<NIC>)
      ensures nic == M.MatchingNic(nics, mac)
    {
      for i := 0 to |nics|
        invariant M.MatchingNic(nics, mac) == M.MatchingNic(nics[i..], mac)
      {
        if EqualFold(nics[i].mac, mac) { return Some(nics[i]); }
      }
      return None;
    }

    method FindMatch(ds: Slices.Slice<Device>, key: string, mac: string) returns (p: nat)
      requires ds.Valid()
      ensures p == M.Pick(ds.Elems(), key, mac)
    {
      p := 0;
      while p < ds.len && !(ds.arr[p].boundClientKey == key || EqualFold(ds.arr[p].mac, mac))
        invariant p <= ds.len
        invariant forall j :: 0 <= j < p ==> !M.Matches(ds.Elems()[j], key, mac)
      {
        p := p + 1;
      }
      M.PickIs(ds.Elems(), key, mac, p);
    }

    /** What a connected client's device is filled with. */
    method FillFrom(key: string, m: string, name: string, info: M.ClientInfo) returns (f: M.Fill)
      requires m != ""
      ensures f == M.Filling(key, m, name, info)
    {
      hide M.MatchingNic;
      var nic := FindNic(info.nics, m);
      var broadcast, prefNic := "", "";
      if nic.Some? {
        prefNic := nic.value.name;
        if |nic.value.broadcast| > 0 { broadcast := nic.value.broadcast[0]; }
      }
      var n := name;
      if n == "" {
        n := info.hostname;
        if n == "" { n := key; }
      }
      f := M.Fill(n, m, broadcast, key, prefNic);
    }

    /** Updates the first device that matches, or creates one. */
    method StoreMatch(f: M.Fill, c: Circumstances) returns (a: Answer)
      requires Valid()
      modifies store`devices, store`disk, store.devices.arr, bemfa`topics, bemfa.dev
      ensures Valid()
      ensures Result(View(), a) == M.StoreMatch(old(View()), f, old(Surroundings(c)))
    {
      hide Create, Update, S.CellValues, S.MemberArrays, M.Pick, M.Matches;
      var list := store.ListDevices();
      S.CellsKept(store.groups.Elems());
      var p := FindMatch(list, f.key, f.mac);
      if p < list.len {
        var d := list.arr[p];
        assert d == list.Elems()[p];
        a := UpdateDevice(d.id, M.Filled(d, f), c);
      } else {
        a := CreateDevice(M.Filled(M.TEMPLATE, f), c);
      }
    }

    method FromClient(key: string, mac: string, name: string, client: Option<M.ClientInfo>, c: Circumstances) returns (a: Answer)
      requires Valid()
      modifies store`devices, store`disk, store.devices.arr, bemfa`topics, bemfa.dev
      ensures Valid()
      ensures Result(View(), a) == M.FromClient(old(View()), key, mac, name, client, old(Surroundings(c)))
    {
      hide M.StoreMatch, M.MatchingNic, M.Filling, S.CellValues, S.MemberArrays;
      if client.None? { return Refused(ClientOffline); }
      var info := client.value;
      var m := mac;
      if m == "" && |info.nics| > 0 { m := info.nics[0].mac; }
      if m == "" { return Refused(NoMac); }
      var f := FillFrom(key, m, name, info);
      M.FillingResolved(key, mac, name, info);
      a := StoreMatch(f, c);
    }
  }

  lemma FoundIffStored(ds: seq<Device>, id: string)
    ensures FindDevice(ds, id).Some? <==> id in DeviceIds(ds)
  {
  }
}
