/** Online probes: the status cache, and the notifications its updates give rise to. */
module Probe {
  import opened Text
  import opened Config

  datatype Result = Result(deviceID: string, online: bool, probeMethod: string, target: string, latencyMs: int,
                           error: string, checkedAt: int)

  // -- over whole runs of cache updates --

  /** The cache after a run of updates. */
  function CacheAfter(sets: seq<Result>): map<string, Result> {
    if sets == [] then map[]
    else
      var last := sets[|sets| - 1];
      CacheAfter(sets[..|sets| - 1])[last.deviceID := last]
  }

  /** An update is notified when the device had no result yet or the other status. */
  predicate Notified(cache: map<string, Result>, r: Result) {
    r.deviceID !in cache || cache[r.deviceID].online != r.online
  }

  /** The notified updates of a run, in order. */
  function Notices(sets: seq<Result>): seq<Result> {
    if sets == [] then []
    else
      var front, last := sets[..|sets| - 1], sets[|sets| - 1];
      Notices(front) + if Notified(CacheAfter(front), last) then [last] else []
  }

  function OfDevice(rs: seq<Result>, id: string): seq<Result> {
    if rs == [] then []
    else
      var front, last := rs[..|rs| - 1], rs[|rs| - 1];
      OfDevice(front, id) + if last.deviceID == id then [last] else []
  }

  /** The updates that start a new status: the first one and every flip. */
  function Flips(rs: seq<Result>): seq<Result> {
    if |rs| == 0 then []
    else
      var front, last := rs[..|rs| - 1], rs[|rs| - 1];
      Flips(front) + if |rs| == 1 || rs[|rs| - 2].online != last.online then [last] else []
  }

  predicate Alternates(rs: seq<Result>) {
    forall i :: 0 < i < |rs| ==> rs[i].online != rs[i - 1].online
  }

  lemma OfDeviceAppend(rs: seq<Result>, r: Result, id: string)
    ensures OfDevice(rs + [r], id) == OfDevice(rs, id) + if r.deviceID == id then [r] else []
  {
    assert (rs + [r])[..|rs|] == rs;
  }

  /** The cache holds the last result of each device. */
  lemma {:induction false} CacheIsLast(sets: seq<Result>, id: string)
    ensures id in CacheAfter(sets) <==> OfDevice(sets, id) != []
    ensures id in CacheAfter(sets) ==> CacheAfter(sets)[id] == OfDevice(sets, id)[|OfDevice(sets, id)| - 1]
  {
    if sets != [] { CacheIsLast(sets[..|sets| - 1], id); }
  }

  lemma FlipsAppend(rs: seq<Result>, r: Result)
    ensures Flips(rs + [r]) == Flips(rs) + if rs == [] || rs[|rs| - 1].online != r.online then [r] else []
  {
    assert (rs + [r])[..|rs|] == rs;
  }

  lemma LastNotice(sets: seq<Result>)
    requires sets != []
    ensures var front, last := sets[..|sets| - 1], sets[|sets| - 1];
            && Notices(sets) == Notices(front) + (if Notified(CacheAfter(front), last) then [last] else [])
            && sets == front + [last]
  {
  }

  lemma OfDeviceMaybe(ns: seq<Result>, r: Result, more: bool, id: string)
    ensures OfDevice(ns + (if more then [r] else []), id) == OfDevice(ns, id) + if more && r.deviceID == id then [r] else []
  {
    hide OfDevice;
    OfDeviceAppend(ns, r, id);
    assert ns + [] == ns && OfDevice(ns, id) + [] == OfDevice(ns, id);
  }

  /** An update is notified exactly when the device had no result or the other status last. */
  lemma NotifiedIff(front: seq<Result>, r: Result)
    ensures var own := OfDevice(front, r.deviceID);
            Notified(CacheAfter(front), r) <==> own == [] || own[|own| - 1].online != r.online
  {
    hide OfDevice, CacheAfter;
    CacheIsLast(front, r.deviceID);
  }

  /** What is notified about a device is exactly its first result and each flip of its status. */
  lemma {:induction false} NoticesAreFlips(sets: seq<Result>, id: string)
    ensures OfDevice(Notices(sets), id) == Flips(OfDevice(sets, id))
  {
    if sets != [] {
      hide Notices, Flips, OfDevice, CacheAfter, Notified;
      var front, last := sets[..|sets| - 1], sets[|sets| - 1];
      NoticesAreFlips(front, id);
      LastNotice(sets);
      OfDeviceMaybe(Notices(front), last, Notified(CacheAfter(front), last), id);
      OfDeviceMaybe(front, last, true, id);
      if last.deviceID == id {
        NotifiedIff(front, last);
        FlipsAppend(OfDevice(front, id), last);
      } else {
        assert Flips(OfDevice(front, id)) + [] == Flips(OfDevice(front, id)) && OfDevice(front, id) + [] == OfDevice(front, id);
      }
    }
  }

  lemma {:induction false} FlipsAlternate(rs: seq<Result>)
    ensures Alternates(Flips(rs)) && (Flips(rs) == [] <==> rs == [])
    ensures rs != [] ==> Flips(rs)[|Flips(rs)| - 1].online == rs[|rs| - 1].online
  {
    if rs != [] { FlipsAlternate(rs[..|rs| - 1]); }
  }

  /** The notifications about a device alternate, there is one as soon as it has a result, and the last one tells the
      status in the cache. */
  lemma NoticesTellCache(sets: seq<Result>, id: string)
    ensures var ns := OfDevice(Notices(sets), id);
            && Alternates(ns) && (ns != [] <==> id in CacheAfter(sets))
            && (ns != [] ==> ns[|ns| - 1].online == CacheAfter(sets)[id].online)
  {
    NoticesAreFlips(sets, id);
    FlipsAlternate(OfDevice(sets, id));
    CacheIsLast(sets, id);
  }

  // -- deliveries --

  /** The callback of a notified update runs after the update has left the lock, so deliveries may overtake each other:
      Deliver(i) is the delivery of the i-th notice. */
  datatype Event = Set(r: Result) | Deliver(i: nat)

  function SetsOf(run: seq<Event>): seq<Result> {
    if run == [] then []
    else SetsOf(run[..|run| - 1]) + if run[|run| - 1].Set? then [run[|run| - 1].r] else []
  }

  function Delivered(run: seq<Event>): seq<nat> {
    if run == [] then []
    else Delivered(run[..|run| - 1]) + if run[|run| - 1].Deliver? then [run[|run| - 1].i] else []
  }

  /** Only what has been notified is delivered. */
  predicate Possible(run: seq<Event>) {
    run == [] ||
    var front, last := run[..|run| - 1], run[|run| - 1];
    Possible(front) && (last.Deliver? ==> last.i < |Notices(SetsOf(front))|)
  }

  /** The notice about the device that was delivered last. */
  function LastAbout(ns: seq<Result>, delivered: seq<nat>, id: string): Option<nat> {
    if delivered == [] then None
    else
      var k := delivered[|delivered| - 1];
      if k < |ns| && ns[k].deviceID == id then Some(k) else LastAbout(ns, delivered[..|delivered| - 1], id)
  }

  lemma {:induction false} OfDeviceConcat(a: seq<Result>, b: seq<Result>, id: string)
    ensures OfDevice(a + b, id) == OfDevice(a, id) + OfDevice(b, id)
  {
    if b == [] {
      assert a + b == a && OfDevice(a, id) + [] == OfDevice(a, id);
    } else {
      var n := |b| - 1;
      OfDeviceConcat(a, b[..n], id);
      OfDeviceAppend(a + b[..n], b[n], id);
      assert a + b == a + b[..n] + [b[n]];
    }
  }

  lemma {:induction false} AlternatingParity(rs: seq<Result>, i: nat)
    requires Alternates(rs) && i < |rs|
    ensures rs[i].online == rs[|rs| - 1].online <==> (|rs| - 1 - i) % 2 == 0
    decreases |rs| - i
  {
    if i < |rs| - 1 { AlternatingParity(rs, i + 1); }
  }

  /** A notice tells the status in the cache exactly when an even number of notices about the device follow it. */
  lemma NoticeAgreesIff(sets: seq<Result>, id: string, k: nat)
    requires k < |Notices(sets)| && Notices(sets)[k].deviceID == id
    ensures id in CacheAfter(sets)
    ensures Notices(sets)[k].online == CacheAfter(sets)[id].online <==> |OfDevice(Notices(sets)[k + 1..], id)| % 2 == 0
  {
    hide Notices, CacheAfter;
    var ns := Notices(sets);
    var front, back := OfDevice(ns[..k], id), OfDevice(ns[k + 1..], id);
    OfDeviceAppend(ns[..k], ns[k], id);
    OfDeviceConcat(ns[..k] + [ns[k]], ns[k + 1..], id);
    assert ns == ns[..k] + [ns[k]] + ns[k + 1..];
    hide OfDevice;
    NoticesTellCache(sets, id);
    AlternatingParity(OfDevice(ns, id), |front|);
    assert OfDevice(ns, id)[|front|] == ns[k];
  }

  lemma {:induction false} LastAboutIs(ns: seq<Result>, delivered: seq<nat>, id: string)
    ensures var k := LastAbout(ns, delivered, id); k.Some? ==> k.value < |ns| && ns[k.value].deviceID == id && k.value in delivered
  {
    if delivered != [] { LastAboutIs(ns, delivered[..|delivered| - 1], id); }
  }

  /** In every run the delivery about a device that came last tells the status in the cache exactly when an even number
      of notices about the device come after it in the order of the updates; in particular when none does. */
  lemma LastDeliveryAgreesIff(run: seq<Event>, id: string)
    requires Possible(run)
    ensures var sets := SetsOf(run);
            var k := LastAbout(Notices(sets), Delivered(run), id);
            k.Some? ==>
              && k.value < |Notices(sets)| && id in CacheAfter(sets)
              && (Notices(sets)[k.value].online == CacheAfter(sets)[id].online
                  <==> |OfDevice(Notices(sets)[k.value + 1..], id)| % 2 == 0)
  {
    hide Notices, CacheAfter, OfDevice, SetsOf, Delivered;
    var sets := SetsOf(run);
    LastAboutIs(Notices(sets), Delivered(run), id);
    var k := LastAbout(Notices(sets), Delivered(run), id);
    if k.Some? { NoticeAgreesIff(sets, id, k.value); }
  }

  // -- the cache and the runner --

  class StatusCache {
    var byID: map<string, Result>
    /** All updates so far, in the order in which they took the lock. */
    ghost var sets: seq<Result>

    ghost predicate Valid()
      reads this
    {
      byID == CacheAfter(sets)
    }

    constructor ()
      ensures Valid() && sets == []
    {
      byID := map[];
      sets := [];
    }

    method Get(id: string) returns (r: Option<Result>)
      ensures r == if id in byID then Some(byID[id]) else None
    {
      r := if id in byID then Some(byID[id]) else None;
    }

    method Set(r: Result) returns (prev: Option<Result>)
      requires Valid()
      modifies this
      ensures Valid() && sets == old(sets) + [r]
      ensures prev == if r.deviceID in old(byID) then Some(old(byID)[r.deviceID]) else None
    {
      prev := if r.deviceID in byID then Some(byID[r.deviceID]) else None;
      byID := byID[r.deviceID := r];
      sets := sets + [r];
      assert sets[..|sets| - 1] == old(sets);
    }
  }

  /** A device that a tick probes. */
  predicate Active(d: Device) {
    var m := Canonical(d.probeMethod);
    m != "" && m != "off" && m != "none"
  }

  function Interval(d: Device): int {
    if d.probeInterval < 15 then 60 else d.probeInterval
  }

  predicate Due(cache: map<string, Result>, d: Device, now: int) {
    Active(d) && !(d.id in cache && now - cache[d.id].checkedAt < Interval(d))
  }

  /** What other goroutines put into the cache while a tick runs: `before` the turn of a device, and between its look
      at the cache and its own update, `during` the probe. */
  datatype Others = Others(before: nat -> seq<Result>, during: nat -> seq<Result>)

  /** The cache updates up to the end of a tick: one for each device that is due when its turn comes, among those of
      the others. */
  function TickSets(sets: seq<Result>, devices: seq<Device>, now: int, probe: (Device, nat) -> Result, o: Others): seq<Result> {
    if devices == [] then sets
    else
      var n := |devices| - 1;
      var turn := TickSets(sets, devices[..n], now, probe, o) + o.before(n);
      if Due(CacheAfter(turn), devices[n], now) then turn + o.during(n) + [probe(devices[n], n)] else turn
  }

  predicate Fresh(cache: map<string, Result>, d: Device, now: int) {
    Active(d) ==> d.id in cache && now - cache[d.id].checkedAt < Interval(d)
  }

  lemma SetRefreshes(before: seq<Result>, r: Result, d: Device, now: int)
    requires now - r.checkedAt < 15
    ensures Fresh(CacheAfter(before), d, now) ==> Fresh(CacheAfter(before + [r]), d, now)
    ensures r.deviceID == d.id ==> Fresh(CacheAfter(before + [r]), d, now)
  {
    hide Active;
    assert (before + [r])[..|before|] == before;
    assert CacheAfter(before + [r]) == CacheAfter(before)[r.deviceID := r];
  }

  lemma {:induction false} SetsRefresh(before: seq<Result>, rs: seq<Result>, d: Device, now: int)
    requires forall i :: 0 <= i < |rs| ==> now - rs[i].checkedAt < 15
    ensures Fresh(CacheAfter(before), d, now) ==> Fresh(CacheAfter(before + rs), d, now)
  {
    hide Fresh, CacheAfter;
    if rs == [] {
      assert before + rs == before;
    } else {
      var n := |rs| - 1;
      SetsRefresh(before, rs[..n], d, now);
      SetRefreshes(before + rs[..n], rs[n], d, now);
      assert before + rs == before + rs[..n] + [rs[n]];
    }
  }

  /** No result of the others is fifteen seconds old, the least interval there is; a probe that was under way when the tick
      began takes less. */
  ghost predicate Timely(o: Others, now: int) {
    forall n, i: nat :: (i < |o.before(n)| ==> now - o.before(n)[i].checkedAt < 15) && (i < |o.during(n)| ==> now - o.during(n)[i].checkedAt < 15)
  }

  /** The end of a device's turn. */
  lemma TurnRefreshes(turn: seq<Result>, rs: seq<Result>, r: Result, d: Device, now: int)
    requires now - r.checkedAt < 15 && forall i :: 0 <= i < |rs| ==> now - rs[i].checkedAt < 15
    ensures Fresh(CacheAfter(turn), d, now) ==> Fresh(CacheAfter(turn + rs + [r]), d, now)
    ensures r.deviceID == d.id ==> Fresh(CacheAfter(turn + rs + [r]), d, now)
  {
    hide Fresh, CacheAfter;
    SetsRefresh(turn, rs, d, now);
    SetRefreshes(turn + rs, r, d, now);
  }

  /** After a tick every active device has a result younger than its interval, whatever other goroutines probed
      meanwhile. */
  lemma {:induction false} TickLeavesFresh(sets: seq<Result>, devices: seq<Device>, now: int, probe: (Device, nat) -> Result, o: Others)
    requires forall i: nat :: i < |devices| ==> probe(devices[i], i).deviceID == devices[i].id && probe(devices[i], i).checkedAt >= now
    requires Timely(o, now)
    ensures forall i: nat :: i < |devices| ==> Fresh(CacheAfter(TickSets(sets, devices, now, probe, o)), devices[i], now)
  {
    hide Active, CacheAfter, Interval;
    if devices != [] {
      var n := |devices| - 1;
      var before := TickSets(sets, devices[..n], now, probe, o);
      assert forall i: nat :: i < n ==> devices[..n][i] == devices[i];
      TickLeavesFresh(sets, devices[..n], now, probe, o);
      forall i: nat | i < |devices|
        ensures Fresh(CacheAfter(TickSets(sets, devices, now, probe, o)), devices[i], now)
      {
        SetsRefresh(before, o.before(n), devices[i], now);
        TurnRefreshes(before + o.before(n), o.during(n), probe(devices[n], n), devices[i], now);
      }
    }
  }

  /** A method is set, none of "off" and "none" in any case, and there is no result younger than the interval: the one
      configured, or a minute where less than fifteen seconds is. */
  predicate Wants(cache: map<string, Result>, d: Device, now: int) {
    && !Blank(d.probeMethod) && !EqualFold(Trim(d.probeMethod), "off") && !EqualFold(Trim(d.probeMethod), "none")
    && (d.id in cache ==> now >= cache[d.id].checkedAt + if d.probeInterval >= 15 then d.probeInterval else 60)
  }

  lemma DueIffWanted(cache: map<string, Result>, d: Device, now: int)
    ensures Due(cache, d, now) <==> Wants(cache, d, now)
  {
    hide Trim, Blank, Lower;
    TrimBlank(d.probeMethod);
    LowerIsItself("off");
    LowerIsItself("none");
    assert Canonical(d.probeMethod) == Lower(Trim(d.probeMethod));
  }

  const NOBODY: Others := Others(_ => [], _ => [])

  predicate OwnResults(devices: seq<Device>, probe: (Device, nat) -> Result) {
    forall i: nat :: i < |devices| ==> probe(devices[i], i).deviceID == devices[i].id
  }

  /** An undisturbed tick probes exactly the devices that want it, once each. */
  lemma {:induction false} TickProbes(sets: seq<Result>, devices: seq<Device>, now: int, probe: (Device, nat) -> Result, i: nat)
    requires i < |devices| && OwnResults(devices, probe)
    requires forall j, k :: 0 <= j < k < |devices| ==> devices[j].id != devices[k].id
    ensures OfDevice(TickSets(sets, devices, now, probe, NOBODY), devices[i].id) ==
            OfDevice(sets, devices[i].id) + if Wants(CacheAfter(sets), devices[i], now) then [probe(devices[i], i)] else []
  {
    hide Due, Wants, CacheAfter, OfDevice;
    var n := |devices| - 1;
    var id := devices[i].id;
    var before := TickSets(sets, devices[..n], now, probe, NOBODY);
    assert before + [] == before && forall j :: 0 <= j < n ==> devices[..n][j] == devices[j];
    OfDeviceAppend(before, probe(devices[n], n), id);
    assert OfDevice(before, id) + [] == OfDevice(before, id);
    if i < n {
      TickProbes(sets, devices[..n], now, probe, i);
    } else {
      TickSpares(sets, devices[..n], now, probe, id);
      SameWish(sets, before, devices[n], now);
      DueIffWanted(CacheAfter(before), devices[n], now);
      assert OfDevice(sets, id) + [] == OfDevice(sets, id);
    }
  }

  lemma {:induction false} TickSpares(sets: seq<Result>, devices: seq<Device>, now: int, probe: (Device, nat) -> Result, id: string)
    requires OwnResults(devices, probe) && forall i :: 0 <= i < |devices| ==> devices[i].id != id
    ensures OfDevice(TickSets(sets, devices, now, probe, NOBODY), id) == OfDevice(sets, id)
  {
    if devices != [] {
      hide Due, CacheAfter, OfDevice;
      var n := |devices| - 1;
      var before := TickSets(sets, devices[..n], now, probe, NOBODY);
      assert before + [] == before && forall j :: 0 <= j < n ==> devices[..n][j] == devices[j];
      TickSpares(sets, devices[..n], now, probe, id);
      OfDeviceAppend(before, probe(devices[n], n), id);
      assert OfDevice(before, id) + [] == OfDevice(before, id);
    }
  }

  /** Only a device's own results decide whether it is due. */
  lemma SameWish(a: seq<Result>, b: seq<Result>, d: Device, now: int)
    requires OfDevice(a, d.id) == OfDevice(b, d.id)
    ensures Wants(CacheAfter(a), d, now) == Wants(CacheAfter(b), d, now)
  {
    hide CacheAfter, OfDevice, Trim, Lower, Blank;
    CacheIsLast(a, d.id);
    CacheIsLast(b, d.id);
  }

  class Runner {
    const cache: StatusCache
    /** What onChange was called with, in order. */
    var notices: seq<Result>

    ghost predicate Valid()
      reads this, cache
    {
      cache.Valid() && notices == Notices(cache.sets)
    }

    constructor (cache: StatusCache)
      requires cache.Valid() && cache.sets == []
      ensures Valid() && this.cache == cache
    {
      this.cache := cache;
      this.notices := [];
    }

    /** Stores a probe result and notifies a change. */
    method Record(cur: Result)
      requires Valid()
      modifies this`notices, cache
      ensures Valid() && cache.sets == old(cache.sets) + [cur]
    {
      var prev := cache.Set(cur);
      assert cache.sets[..|cache.sets| - 1] == old(cache.sets);
      if prev.None? || prev.value.online != cur.online {
        notices := notices + [cur];
      }
    }

    /** A forced probe of a device, None when the device is unknown. */
    method ProbeDevice(found: Option<Device>, probe: Device -> Result) returns (r: Option<Result>)
      requires Valid()
      modifies this`notices, cache
      ensures Valid() && r == (if found.None? then None else Some(probe(found.value)))
      ensures cache.sets == old(cache.sets) + if found.None? then [] else [probe(found.value)]
    {
      if found.None? { return None; }
      var cur := probe(found.value);
      Record(cur);
      return Some(cur);
    }

    /** The updates of other goroutines. */
    method RecordAll(rs: seq<Result>)
      requires Valid()
      modifies this`notices, cache
      ensures Valid() && cache.sets == old(cache.sets) + rs
    {
      hide Notices, CacheAfter;
      for i := 0 to |rs|
        invariant Valid() && cache.sets == old(cache.sets) + rs[..i]
      {
        Record(rs[i]);
        assert rs[..i + 1] == rs[..i] + [rs[i]];
      }
      assert rs[..|rs|] == rs;
    }

    method Tick(devices: seq<Device>, now: int, probe: (Device, nat) -> Result, o: Others)
      requires Valid()
      modifies this`notices, cache
      ensures Valid() && cache.sets == TickSets(old(cache.sets), devices, now, probe, o)
    {
      hide Trim, Canonical, Notices, CacheAfter;
      for i := 0 to |devices|
        invariant Valid() && cache.sets == TickSets(old(cache.sets), devices[..i], now, probe, o)
      {
        var d := devices[i];
        assert devices[..i + 1][..i] == devices[..i];
        RecordAll(o.before(i));
        var m := Canonical(d.probeMethod);
        if m == "" || m == "off" || m == "none" { continue; }
        var interval := d.probeInterval;
        if interval < 15 { interval := 60; }
        var prev := cache.Get(d.id);
        if prev.Some? && now - prev.value.checkedAt < interval { continue; }
        RecordAll(o.during(i));
        Record(probe(d, i));
      }
      assert devices[..|devices|] == devices;
    }
  }
}
