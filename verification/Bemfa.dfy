/** The broker manager: it keeps the map of subscribed topics in step with the subscriptions of its device handle. */
module Bemfa {
  import opened Text
  import opened Config
  import opened BemfaModel

  datatype Call = Subscribe(topic: string) | Unsubscribe(topic: string)

  /** The device handle of the MQTT library: for every subscription the device id its command handler was given. */
  class Handle {
    var handlers: map<string, string>
    var traffic: seq<Call>

    constructor ()
      ensures handlers == map[] && traffic == []
    {
      handlers := map[];
      traffic := [];
    }

    method OnCommand(topic: string, id: string, fails: bool)
      modifies this
      ensures traffic == old(traffic) + [Subscribe(topic)]
      ensures handlers == if fails then old(handlers) else old(handlers)[topic := id]
    {
      traffic := traffic + [Subscribe(topic)];
      if !fails { handlers := handlers[topic := id]; }
    }

    method Unsubscribe(topic: string, fails: bool)
      modifies this
      ensures traffic == old(traffic) + [Call.Unsubscribe(topic)]
      ensures handlers == if fails then old(handlers) else old(handlers) - {topic}
    {
      traffic := traffic + [Call.Unsubscribe(topic)];
      if !fails { handlers := handlers - {topic}; }
    }
  }

  class Manager {
    var uid: string
    var dev: Handle?
    var topics: Topics
    var started: bool

    /** Every mapped topic is subscribed with a handler that carries the mapped device id. */
    ghost predicate Valid()
      reads this, dev
    {
      && (started <==> dev != null)
      && (dev == null ==> topics == map[])
      && (dev != null ==> forall t :: t in topics ==> t in dev.handlers && dev.handlers[t] == topics[t])
    }

    /** The handle has no other subscription. */
    ghost predicate Mirrors()
      reads this, dev
    {
      dev != null ==> dev.handlers == topics
    }

    constructor ()
      ensures Valid() && Mirrors() && dev == null && uid == "" && topics == map[]
    {
      uid := "";
      dev := null;
      topics := map[];
      started := false;
    }

    method CloseLocked()
      modifies this
      ensures Valid() && Mirrors() && dev == null && topics == map[] && uid == old(uid)
    {
      dev := null;
      topics := map[];
      started := false;
    }

    method SubscribeLocked(topic: string, id: string, net: Net) returns (ok: bool)
      requires Valid()
      modifies this`topics, dev
      ensures Valid()
      ensures dev == null ==> !ok && topics == old(topics)
      ensures dev != null ==> topics == Subscribed(old(topics), topic, id, net) && (ok <==> Lookup(topics, topic) == Some(id))
      ensures dev != null && Lookup(old(topics), topic) == Some(id) ==> dev.traffic == old(dev.traffic)
      ensures old(Mirrors()) && !net.unsubscribeFails(topic) ==> Mirrors()
    {
      hide Trim, Canonical, NormalizeTopic, ValidTopic;
      if dev == null { return false; }
      if topic in topics && topics[topic] == id { return true; }
      if topic in topics {
        dev.Unsubscribe(topic, net.unsubscribeFails(topic));
        topics := topics - {topic};
      }
      dev.OnCommand(topic, id, net.subscribeFails(topic));
      if net.subscribeFails(topic) { return false; }
      topics := topics[topic := id];
      return true;
    }

    method UnsubscribeLocked(topic: string, net: Net)
      requires Valid()
      modifies this`topics, dev
      ensures Valid() && topics == old(topics) - {topic}
      ensures old(Mirrors()) && !net.unsubscribeFails(topic) ==> Mirrors()
    {
      hide Trim, Canonical, NormalizeTopic, ValidTopic;
      if dev == null {
        topics := topics - {topic};
        return;
      }
      dev.Unsubscribe(topic, net.unsubscribeFails(topic));
      topics := topics - {topic};
    }

    /** Recomputes the wanted map and works off the differences, in whatever order the maps are walked. */
    method SyncLocked(devices: seq<Device>, net: Net)
      requires Valid() && dev != null
      modifies this`topics, dev
      ensures Valid() && topics == Synced(old(topics), Wanted(devices), net)
      ensures old(topics) == Wanted(devices) ==> dev.traffic == old(dev.traffic)
      ensures old(Mirrors()) && net.Unsubscribes() ==> Mirrors()
    {
      hide Wanted;
      var wanted := WantedBy(devices);
      DropUnwanted(wanted, net);
      SubscribeWanted(wanted, net);
    }

    method DropUnwanted(wanted: Topics, net: Net)
      requires Valid() && dev != null
      modifies this`topics, dev
      ensures Valid() && topics == map t | t in old(topics) && t in wanted :: old(topics)[t]
      ensures old(topics).Keys <= wanted.Keys ==> dev.traffic == old(dev.traffic)
      ensures old(Mirrors()) && net.Unsubscribes() ==> Mirrors()
    {
      hide Trim, Canonical, NormalizeTopic, ValidTopic;
      var todo := topics.Keys;
      while todo != {}
        invariant Valid() && todo <= topics.Keys <= old(topics).Keys
        invariant forall t :: t in topics ==> topics[t] == old(topics)[t]
        invariant forall t :: t in old(topics) && t !in todo ==> (t in topics <==> t in wanted)
        invariant old(topics).Keys <= wanted.Keys ==> dev.traffic == old(dev.traffic)
        invariant old(Mirrors()) && net.Unsubscribes() ==> Mirrors()
        decreases todo
      {
        var t :| t in todo;
        if t !in wanted {
          UnsubscribeLocked(t, net);
        }
        todo := todo - {t};
      }
    }

    method SubscribeWanted(wanted: Topics, net: Net)
      requires Valid() && dev != null && topics.Keys <= wanted.Keys
      modifies this`topics, dev
      ensures Valid() && topics == Synced(old(topics), wanted, net)
      ensures old(topics) == wanted ==> dev.traffic == old(dev.traffic)
      ensures old(Mirrors()) && net.Unsubscribes() ==> Mirrors()
    {
      hide Synced, Wanted, SyncedUpTo, Subscribed;
      ghost var before := topics;
      SyncedNone(before, wanted, net);
      var todo := wanted.Keys;
      while todo != {}
        invariant Valid() && todo <= wanted.Keys
        invariant topics == SyncedUpTo(before, wanted, wanted.Keys - todo, net)
        invariant before == wanted ==> topics == wanted && dev.traffic == old(dev.traffic)
        invariant old(Mirrors()) && net.Unsubscribes() ==> Mirrors()
        decreases todo
      {
        var t :| t in todo;
        SyncedNext(before, wanted, wanted.Keys - todo, t, net);
        SubscribedAlready(topics, t, wanted[t], net);
        var _ := SubscribeLocked(t, wanted[t], net);
        assert wanted.Keys - todo + {t} == wanted.Keys - (todo - {t});
        todo := todo - {t};
      }
      SyncedAll(before, wanted, net);
      assert wanted.Keys - {} == wanted.Keys;
    }

    /** A changed UID, or a manager that is not running, starts afresh. */
    method Reconfigure(newUid: string, devices: seq<Device>, net: Net) returns (ok: bool)
      requires Valid()
      modifies this, dev
      ensures Valid() && uid == SanitizeUid(newUid)
      ensures dev == null ==> topics == map[]
      ensures old(dev) != null && SanitizeUid(newUid) == old(uid) ==>
                ok && dev == old(dev) && topics == Synced(old(topics), Wanted(devices), net)
      ensures !(old(dev) != null && SanitizeUid(newUid) == old(uid)) ==>
                if SanitizeUid(newUid) == "" then ok && dev == null
                else if net.startFails then !ok && dev == null
                else ok && dev != null && fresh(dev) && topics == Synced(map[], Wanted(devices), net)
      ensures old(Mirrors()) && net.Unsubscribes() ==> Mirrors()
    {
      hide SanitizeUid, Wanted, Synced;
      var clean := SanitizeUid(newUid);
      if clean == uid && dev != null {
        SyncLocked(devices, net);
        return true;
      }
      CloseLocked();
      uid := clean;
      if clean == "" { return true; }
      if net.startFails { return false; }
      dev := new Handle();
      started := true;
      SyncLocked(devices, net);
      return true;
    }

    /** Returns the device with the topic it ended up with. */
    method EnsureDevice(d: Device, net: Net, generated: string) returns (d': Device, error: Option<Refusal>)
      requires Valid()
      modifies this`topics, dev
      ensures Valid()
      ensures Ensured(d', topics, error) == Ensure(old(topics), d, uid, dev != null, net, generated)
      ensures old(Mirrors()) && !net.unsubscribeFails(d'.bemfaTopic) ==> Mirrors()
    {
      hide Trim, Canonical, NormalizeTopic, ValidTopic;
      if !d.bemfaEnable {
        if d.bemfaTopic != "" {
          UnsubscribeLocked(d.bemfaTopic, net);
        }
        return d, None;
      }
      if uid == "" { return d, Some(NoUid); }
      if dev == null { return d, Some(NotConnected); }
      var topic := ChosenTopic(d, generated);
      if !ValidTopic(topic) { return d.(bemfaTopic := topic), Some(BadTopic); }
      d', error := SubscribeDevice(d, topic, net);
    }

    method SubscribeDevice(d: Device, topic: string, net: Net) returns (d': Device, error: Option<Refusal>)
      requires Valid() && dev != null
      modifies this`topics, dev
      ensures Valid() && Ensured(d', topics, error) == SubscribeAs(old(topics), d, topic, net)
      ensures old(Mirrors()) && !net.unsubscribeFails(topic) ==> Mirrors()
    {
      hide Trim, Canonical, NormalizeTopic, ValidTopic;
      var ok := SubscribeLocked(topic, d.id, net);
      d' := d.(bemfaTopic := topic);
      error := if ok then None else Some(NotSubscribed);
    }

    method RemoveDevice(d: Device, net: Net)
      requires Valid()
      modifies this`topics, dev
      ensures Valid() && topics == Removed(old(topics), d)
      ensures old(Mirrors()) && !net.unsubscribeFails(d.bemfaTopic) ==> Mirrors()
    {
      hide Trim, Canonical, NormalizeTopic, ValidTopic;
      if d.bemfaTopic != "" {
        UnsubscribeLocked(d.bemfaTopic, net);
      }
    }
  }

  /** The first loop of a sync. */
  method WantedBy(devices: seq<Device>) returns (wanted: Topics)
    ensures wanted == Wanted(devices)
  {
    hide Trim, Blank;
    wanted := map[];
    for i := 0 to |devices|
      invariant wanted == Wanted(devices[..i])
    {
      var d := devices[i];
      assert devices[..i + 1][..i] == devices[..i];
      TrimBlank(d.bemfaTopic);
      if d.bemfaEnable && Trim(d.bemfaTopic) != "" {
        wanted := wanted[d.bemfaTopic := d.id];
      }
    }
    assert devices[..|devices|] == devices;
  }

  /** The map after the topics of `done` have been subscribed. */
  ghost function SyncedUpTo(before: Topics, wanted: Topics, done: set<string>, net: Net): Topics {
    map t | t in before.Keys + done && (if t in done then t in Synced(before, wanted, net) else true)
      :: if t in done then Synced(before, wanted, net)[t] else before[t]
  }

  lemma SyncedNone(before: Topics, wanted: Topics, net: Net)
    ensures SyncedUpTo(before, wanted, wanted.Keys - wanted.Keys, net) == before
  {
  }

  lemma SyncedNext(before: Topics, wanted: Topics, done: set<string>, t: string, net: Net)
    requires t in wanted && t !in done
    ensures Subscribed(SyncedUpTo(before, wanted, done, net), t, wanted[t], net) == SyncedUpTo(before, wanted, done + {t}, net)
  {
  }

  lemma SyncedAll(before: Topics, wanted: Topics, net: Net)
    requires before.Keys <= wanted.Keys
    ensures SyncedUpTo(before, wanted, wanted.Keys, net) == Synced(before, wanted, net)
  {
  }

  lemma SubscribedAlready(topics: Topics, t: string, id: string, net: Net)
    ensures Lookup(topics, t) == Some(id) ==> Subscribed(topics, t, id, net) == topics
  {
  }
}
