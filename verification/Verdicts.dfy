/** Which requests the device service accepts, why it refuses the others, and what an accepted one has stored. */
module Verdicts {
  import opened Text
  import opened Config
  import opened BemfaModel
  import opened StoreModel
  import opened ServiceModel
  import E = StoreEffects

  // -- the conditions, on the request as it was made --

  predicate LetterOrDigit(c: char) { ('a' <= c <= 'z') || ('A' <= c <= 'Z') || ('0' <= c <= '9') }

  /** 2 to 29 letters or digits, then 001. */
  predicate TopicForm(t: string) {
    5 <= |t| <= 32 && t[|t| - 3..] == "001" && forall i :: 0 <= i < |t| - 3 ==> LetterOrDigit(t[i])
  }

  predicate TopicOk(d: Device) { Blank(d.bemfaTopic) || TopicForm(NormalizeTopic(d.bemfaTopic)) }

  /** The topic an enabled device is subscribed to. */
  function TopicFor(d: Device, generated: string): string {
    NormalizeTopic(if Blank(d.bemfaTopic) then generated else d.bemfaTopic)
  }

  /** The topic is mapped to the device already, or the broker takes the subscription. */
  predicate Reachable(topics: Topics, topic: string, id: string, e: Env) {
    (topic in topics && topics[topic] == id) || !e.net.subscribeFails(topic)
  }

  predicate Subscribes(topics: Topics, d: Device, id: string, e: Env) {
    e.uid != "" && e.live && TopicForm(NormalizeTopic(TopicFor(d, e.generated))) && Reachable(topics, TopicFor(d, e.generated), id, e)
  }

  /** A request that meets this map and is stored under this id goes through. */
  predicate Accepted(topics: Topics, d: Device, id: string, e: Env) {
    && !Blank(d.name) && !Blank(d.mac) && e.firstSave && e.secondSave
    && (d.bemfaEnable ==> e.uidSet && TopicOk(d) && Subscribes(topics, d, id, e))
  }

  /** What is wrong with a request, first things first. */
  function Wrong(topics: Topics, d: Device, id: string, e: Env): Option<Why> {
    var topic := TopicFor(d, e.generated);
    if d.bemfaEnable && !e.uidSet then Some(UidMissing)
    else if d.bemfaEnable && !TopicOk(d) then Some(TopicInvalid)
    else if Blank(d.name) then Some(NotStored(NameRequired))
    else if Blank(d.mac) then Some(NotStored(MacRequired))
    else if !e.firstSave then Some(NotStored(SaveFailed))
    else if d.bemfaEnable && e.uid == "" then Some(NotEnsured(NoUid))
    else if d.bemfaEnable && !e.live then Some(NotEnsured(NotConnected))
    else if d.bemfaEnable && !TopicForm(NormalizeTopic(topic)) then Some(NotEnsured(BadTopic))
    else if d.bemfaEnable && !Reachable(topics, topic, id, e) then Some(NotEnsured(NotSubscribed))
    else if !e.secondSave then Some(NotStored(SaveFailed))
    else None
  }

  /** The answer to a request: the first thing wrong with it, or the stored device. */
  predicate Decides(a: Answer, topics: Topics, d: Device, id: string, e: Env) {
    && (a.Answered? <==> Accepted(topics, d, id, e))
    && (a.Refused? ==> Wrong(topics, d, id, e) == Some(a.why))
  }

  lemma AcceptedIff(topics: Topics, d: Device, id: string, e: Env)
    ensures Accepted(topics, d, id, e) <==> Wrong(topics, d, id, e) == None
  {
    hide Blank, TopicOk, TopicForm, NormalizeTopic, TopicFor, Reachable;
  }

  // -- the request as the service normalizes it --

  lemma ValidIsForm(topic: string)
    ensures ValidTopic(topic) <==> TopicForm(NormalizeTopic(topic))
  {
    hide NormalizeTopic;
    var t := NormalizeTopic(topic);
    if TopicForm(t) {
      forall i | 0 <= i < |t| ensures IsAlnum(t[i]) {
        if i >= |t| - 3 { assert t[i] == "001"[i - (|t| - 3)]; }
      }
    }
  }

  lemma CanonicalBlank(s: string)
    ensures Canonical(s) == "" <==> Blank(s)
    ensures NormalizeTopic(Canonical(s)) == NormalizeTopic(s)
  {
    hide Trim, Blank, Without;
    TrimBlank(s);
  }

  /** The conditions, on what is left of the request. */
  lemma NormalizedSays(d: Device, generated: string)
    ensures var q := Normalized(d);
            && (q.name == "" <==> Blank(d.name)) && (q.mac == "" <==> Blank(d.mac)) && q.bemfaEnable == d.bemfaEnable
            && (q.bemfaTopic == "" || ValidTopic(q.bemfaTopic) <==> TopicOk(d))
            && ChosenTopic(q, generated) == TopicFor(d, generated)
            && (ValidTopic(ChosenTopic(q, generated)) <==> TopicForm(NormalizeTopic(TopicFor(d, generated))))
  {
    hide Trim, Canonical, ValidTopic, TopicForm, Blank, NormalizeTopic;
    TrimBlank(d.name);
    TrimBlank(d.mac);
    CanonicalBlank(d.bemfaTopic);
    ValidIsForm(Canonical(d.bemfaTopic));
    var t := TopicFor(d, generated);
    ChosenNormal(Normalized(d), d, generated);
    ValidIsForm(t);
  }

  lemma ChosenNormal(q: Device, d: Device, generated: string)
    requires q.bemfaTopic == Canonical(d.bemfaTopic)
    ensures ChosenTopic(q, generated) == TopicFor(d, generated)
  {
    hide Trim, Blank, NormalizeTopic;
    CanonicalBlank(d.bemfaTopic);
    assert Trim(q.bemfaTopic) == q.bemfaTopic;
  }

  // -- the verdict --

  /** What goes wrong when a stored device is subscribed. */
  function WrongTopic(topics: Topics, s: Device, id: string, e: Env): Option<Refusal> {
    var topic := ChosenTopic(s, e.generated);
    if !s.bemfaEnable then None
    else if e.uid == "" then Some(NoUid)
    else if !e.live then Some(NotConnected)
    else if !ValidTopic(topic) then Some(BadTopic)
    else if !Reachable(topics, topic, id, e) then Some(NotSubscribed)
    else None
  }

  lemma EnsureVerdict(topics: Topics, s: Device, e: Env)
    ensures var r := Ensure(topics, s, e.uid, e.live, e.net, e.generated);
            r.error == WrongTopic(topics, s, s.id, e) && r.device.name == s.name && r.device.mac == s.mac
  {
    hide ChosenTopic, ValidTopic;
  }

  /** What goes wrong from the store on, in the service's own terms. */
  function WrongStored(topics: Topics, q: Device, id: string, e: Env): Option<Why> {
    if q.name == "" then Some(NotStored(NameRequired))
    else if q.mac == "" then Some(NotStored(MacRequired))
    else if !e.firstSave then Some(NotStored(SaveFailed))
    else
      var wrong := WrongTopic(topics, q, id, e);
      if wrong.Some? then Some(NotEnsured(wrong.value))
      else if !e.secondSave then Some(NotStored(SaveFailed))
      else None
  }

  predicate Answers(a: Answer, wrong: Option<Why>) {
    if a.Answered? then wrong == None else wrong == Some(a.why)
  }

  lemma StoreVerdict(w: World, q: Device, storeOnError: bool, e: Env)
    ensures Answers(StoreAndFinish(w, q, storeOnError, e).answer, WrongStored(w.topics, q, if q.id == "" then e.freshId else q.id, e))
  {
    hide ChosenTopic, ValidTopic, Ensure, StoredDevice, WithDevice, Reachable, WrongTopic;
    E.DeviceFaults(w.devices, q, e.now, e.freshId);
    if q.name != "" && q.mac != "" {
      var s := StoredDevice(w.devices, q, e.now, e.freshId).value;
      StoredFields(w.devices, q, e.now, e.freshId);
      KeepsNames(w.devices, q, e.now, e.freshId);
      EnsureVerdict(w.topics, s, e);
      SameWrong(w.topics, s, q, e);
      var after, n := WithDevice(w.devices, q.id, s), Ensure(w.topics, s, e.uid, e.live, e.net, e.generated).device;
      E.DeviceFaults(after, n, e.later, e.freshId);
    }
  }

  lemma SameWrong(topics: Topics, s: Device, q: Device, e: Env)
    requires s.bemfaTopic == q.bemfaTopic && s.bemfaEnable == q.bemfaEnable
    ensures WrongTopic(topics, s, s.id, e) == WrongTopic(topics, q, s.id, e)
  {
    hide ChosenTopic, ValidTopic, Reachable;
    SameChoice(s, q, e.generated);
  }

  lemma KeepsNames(ds: seq<Device>, q: Device, now: int, freshId: string)
    requires StoredDevice(ds, q, now, freshId).Done?
    ensures StoredDevice(ds, q, now, freshId).value.name == q.name && StoredDevice(ds, q, now, freshId).value.mac == q.mac
  {
  }

  lemma InvalidSays(d: Device, e: Env)
    ensures Validated(Normalized(d), e.uidSet) ==
            if d.bemfaEnable && !e.uidSet then Some(UidMissing)
            else if d.bemfaEnable && !TopicOk(d) then Some(TopicInvalid)
            else None
  {
    hide Normalized, TopicOk, ValidTopic, ChosenTopic, TopicForm, NormalizeTopic, TopicFor, Blank;
    NormalizedSays(d, e.generated);
  }

  lemma TopicSays(d: Device, topics: Topics, id: string, e: Env)
    ensures WrongTopic(topics, Normalized(d), id, e) ==
            if !d.bemfaEnable then None
            else if e.uid == "" then Some(NoUid)
            else if !e.live then Some(NotConnected)
            else if !TopicForm(NormalizeTopic(TopicFor(d, e.generated))) then Some(BadTopic)
            else if !Reachable(topics, TopicFor(d, e.generated), id, e) then Some(NotSubscribed)
            else None
  {
    hide Normalized, Blank, TopicForm, NormalizeTopic, ValidTopic, ChosenTopic, Reachable, TopicFor, TopicOk;
    NormalizedSays(d, e.generated);
  }

  lemma StoredSays(d: Device, topics: Topics, id: string, e: Env)
    requires !(d.bemfaEnable && (!e.uidSet || !TopicOk(d)))
    ensures WrongStored(topics, Normalized(d), id, e) == Wrong(topics, d, id, e)
  {
    hide Normalized, Blank, TopicForm, NormalizeTopic, Reachable, TopicFor, TopicOk, WrongTopic, ChosenTopic, ValidTopic;
    NormalizedSays(d, e.generated);
    TopicSays(d, topics, id, e);
  }

  /** From the request as normalized to the request as made. */
  lemma DecidesOn(d: Device, topics: Topics, e: Env, id: string, a: Answer)
    requires var q, why := Normalized(d), Validated(Normalized(d), e.uidSet);
             if why.Some? then a == Refused(why.value) else Answers(a, WrongStored(topics, q, id, e))
    ensures Decides(a, topics, d, id, e)
  {
    hide Normalized, Validated, Accepted, WrongStored, Blank, TopicForm, NormalizeTopic, Reachable, TopicFor, TopicOk;
    InvalidSays(d, e);
    AcceptedIff(topics, d, id, e);
    if !(d.bemfaEnable && (!e.uidSet || !TopicOk(d))) { StoredSays(d, topics, id, e); }
  }

  /** A create is answered exactly when it names the device and its MAC, both saves succeed and, if it enables the topic,
      the settings name a user id, the topic asked for is blank or well-formed, and the manager can subscribe it; and
      each refusal says what was wrong. */
  lemma CreateVerdict(w: World, d: Device, e: Env)
    ensures Decides(Create(w, d, e).answer, w.topics, d, e.freshId, e)
  {
    hide Normalized, Validated, WrongStored, Decides, StoreAndFinish;
    var request := d.(id := "");
    StoreVerdict(w, Normalized(request), true, e);
    DecidesOn(request, w.topics, e, e.freshId, Create(w, d, e).answer);
    DecidesAlike(request, d, w.topics, e.freshId, e, Create(w, d, e).answer);
  }

  lemma DecidesAlike(c: Device, d: Device, topics: Topics, id: string, e: Env, a: Answer)
    requires c.name == d.name && c.mac == d.mac && c.bemfaEnable == d.bemfaEnable && c.bemfaTopic == d.bemfaTopic
    requires Decides(a, topics, c, id, e)
    ensures Decides(a, topics, d, id, e)
  {
    hide Blank, TopicForm, NormalizeTopic, Reachable;
  }

  /** The map an update meets when it subscribes: the old topic has left it when the request names another one or disables
      the device. */
  function TopicsMet(topics: Topics, was: Device, d: Device): Topics {
    if was.bemfaTopic != "" && (was.bemfaTopic != Canonical(d.bemfaTopic) || !d.bemfaEnable) then topics - {was.bemfaTopic} else topics
  }

  /** An update of a known device is decided by the same conditions, on the map it meets; of an unknown one it is refused. */
  lemma UpdateVerdict(w: World, id: string, d: Device, e: Env)
    ensures var a, found := Update(w, id, d, e).answer, FindDevice(w.devices, id);
            if found.None? then a == Refused(UnknownDevice)
            else id != "" ==> Decides(a, TopicsMet(w.topics, found.value, d), d, id, e)
  {
    hide UpdateFound, Decides, FindDevice;
    var found := FindDevice(w.devices, id);
    if found.Some? && id != "" {
      FoundHasId(w.devices, id);
      FoundVerdict(w, found.value, d, e);
    }
  }

  lemma FoundHasId(ds: seq<Device>, id: string)
    ensures FindDevice(ds, id).Some? ==> FindDevice(ds, id).value.id == id
  {
  }

  lemma FoundVerdict(w: World, was: Device, d: Device, e: Env)
    requires was.id != ""
    ensures Decides(UpdateFound(w, was, d, e).answer, TopicsMet(w.topics, was, d), d, was.id, e)
  {
    hide Normalized, Validated, WrongStored, Decides, StoreAndFinish, Removed;
    var request := d.(id := was.id, createdAt := if d.createdAt == 0 then was.createdAt else d.createdAt);
    var q := Normalized(request);
    var start := if Releases(was, q) then w.(topics := Removed(w.topics, was)) else w;
    StoreVerdict(start, q, false, e);
    MetIs(w, was, d, q);
    DecidesOn(request, start.topics, e, was.id, UpdateFound(w, was, d, e).answer);
    DecidesAlike(request, d, start.topics, was.id, e, UpdateFound(w, was, d, e).answer);
  }

  lemma MetIs(w: World, was: Device, d: Device, q: Device)
    requires q.bemfaTopic == Canonical(d.bemfaTopic) && q.bemfaEnable == d.bemfaEnable
    ensures (if Releases(was, q) then Removed(w.topics, was) else w.topics) == TopicsMet(w.topics, was, d)
  {
  }

  // -- what an answered request has stored --

  /** Device n is what the request d becomes under this id and topic, but for the two times. */
  predicate Made(n: Device, d: Device, id: string, topic: string) {
    && n.id == id && n.name == Trim(d.name) && n.mac == Trim(d.mac) && n.broadcast == Trim(d.broadcast)
    && n.port == (if 1 <= d.port <= 65535 then d.port else 9)
    && n.repeats == (if 1 <= d.repeats <= 20 then d.repeats else 3)
    && n.bemfaEnable == d.bemfaEnable && n.bemfaTopic == topic && n.bemfaName == Trim(d.bemfaName)
    && n.boundClientKey == Trim(d.boundClientKey) && n.preferredNIC == Trim(d.preferredNIC)
    && n.probeMethod == E.MethodOf(d) && n.probeHost == Trim(d.probeHost)
    && n.probePort == (if n.probeMethod == "tcp" && !(1 <= d.probePort <= 65535) then 3389 else d.probePort)
    && n.probeInterval == (if d.probeInterval <= 0 then 60 else if d.probeInterval < 15 then 15 else d.probeInterval)
  }

  /** Storing what was stored, with its final topic, changes nothing but the times. */
  lemma WrittenTwice(s: Device, n: Device, q: Device, was: Option<Device>, now: int, later: int, freshId: string, topic: string)
    requires E.DeviceWritten(s, q, was, now, freshId) && s.id != ""
    requires E.DeviceWritten(n, s.(bemfaTopic := topic), Some(s), later, freshId)
    ensures n == s.(bemfaTopic := topic, createdAt := if s.createdAt != 0 then s.createdAt else later, updatedAt := later)
  {
    hide Trim, Blank;
    MethodAgain(q);
  }

  lemma MethodAgain(q: Device)
    ensures !Blank(E.MethodOf(q)) && Canonical(E.MethodOf(q)) == E.MethodOf(q)
  {
    hide Trim, Blank;
    OffIsCanonical();
    TrimBlank(q.probeMethod);
    TrimBlank(E.MethodOf(q));
    CanonicalBlank(q.probeMethod);
  }

  /** What the request normalizes to is written as the request itself would be. */
  lemma MadeFrom(n: Device, d: Device, q: Device, id: string, topic: string, was: Option<Device>, now: int, freshId: string)
    requires q == Normalized(d.(id := q.id, createdAt := q.createdAt))
    requires E.DeviceWritten(n, q, was, now, freshId) && E.IdFor(q.id, freshId) == id
    ensures Made(n.(bemfaTopic := topic), d, id, topic)
    ensures q.bemfaTopic == Canonical(d.bemfaTopic)
  {
    hide Trim, Canonical, Blank, ProbeMethod, E.MethodOf;
    var r := d.(id := q.id, createdAt := q.createdAt);
    E.MethodIs(r);
    E.MethodIs(q);
    SameMethod(d, r, q);
  }

  lemma SameMethod(d: Device, r: Device, q: Device)
    requires r.probeMethod == d.probeMethod && q.probeMethod == E.MethodOf(r)
    ensures E.MethodOf(q) == E.MethodOf(d)
  {
    hide Trim, Blank;
    MethodAgain(d);
  }

  /** The record of the first store lies where the second one looks. */
  lemma LiesThere(ds: seq<Device>, requested: string, s: Device)
    requires var ids := DeviceIds(ds);
             Distinct(ids) && if requested == "" then s.id != "" && s.id !in ids else s.id == requested && requested in ids
    ensures var after := WithDevice(ds, requested, s); E.There(after, Slot(DeviceIds(after), s.id)) == Some(s)
  {
    var i, after := Slot(DeviceIds(ds), requested), WithDevice(ds, requested, s);
    assert DeviceIds(after) == PutAt(DeviceIds(ds), i, s.id);
    IndexIs(DeviceIds(after), s.id, i);
  }

  lemma StoreMakes(w: World, q: Device, storeOnError: bool, e: Env)
    requires StoreAndFinish(w, q, storeOnError, e).answer.Answered?
    requires var ids := DeviceIds(w.devices);
             Distinct(ids) && if q.id == "" then e.freshId != "" && e.freshId !in ids else q.id in ids
    ensures var r, s := StoreAndFinish(w, q, storeOnError, e), StoredDevice(w.devices, q, e.now, e.freshId);
            && r.world.devices == WithDevice(w.devices, q.id, r.answer.device)
            && s.Done? && E.DeviceWritten(s.value, q, E.There(w.devices, Slot(DeviceIds(w.devices), q.id)), e.now, e.freshId)
            && r.answer.device == s.value.(bemfaTopic := FinalTopic(q, e.generated), updatedAt := e.later,
                                           createdAt := if s.value.createdAt != 0 then s.value.createdAt else e.later)
  {
    hide ChosenTopic, Ensure, StoredDevice, WithDevice, E.DeviceWritten, E.DeviceComplete, Edited;
    StoreAndFinishEffect(w, q, storeOnError, e);
    E.DeviceFaults(w.devices, q, e.now, e.freshId);
    E.StoredDeviceIs(w.devices, q, e.now, e.freshId);
    StoredFields(w.devices, q, e.now, e.freshId);
    SettledOnce(w, q, storeOnError, e);
  }

  lemma SettledOnce(w: World, q: Device, storeOnError: bool, e: Env)
    requires StoreAndFinish(w, q, storeOnError, e).answer.Answered? && E.DeviceComplete(q)
    requires var ids := DeviceIds(w.devices);
             Distinct(ids) && if q.id == "" then e.freshId != "" && e.freshId !in ids else q.id in ids
    ensures var s := StoredDevice(w.devices, q, e.now, e.freshId);
            s.Done? && StoreAndFinish(w, q, storeOnError, e).answer.device ==
              s.value.(bemfaTopic := FinalTopic(q, e.generated), updatedAt := e.later,
                       createdAt := if s.value.createdAt != 0 then s.value.createdAt else e.later)
  {
    hide ChosenTopic, Ensure, StoredDevice, WithDevice, E.DeviceWritten;
    E.StoredDeviceIs(w.devices, q, e.now, e.freshId);
    var s := StoredDevice(w.devices, q, e.now, e.freshId).value;
    StoredFields(w.devices, q, e.now, e.freshId);
    SameChoice(s, q, e.generated);
    var after := WithDevice(w.devices, q.id, s);
    LiesThere(w.devices, q.id, s);
    EnsuredDevice(w.topics, s, e);
    var ensured := Ensure(w.topics, s, e.uid, e.live, e.net, e.generated).device;
    KeepsNames(w.devices, q, e.now, e.freshId);
    E.StoredDeviceIs(after, ensured, e.later, e.freshId);
    WrittenTwice(s, StoredDevice(after, ensured, e.later, e.freshId).value, q,
                 E.There(w.devices, Slot(DeviceIds(w.devices), q.id)), e.now, e.later, e.freshId, ensured.bemfaTopic);
  }

  lemma SameTopicFor(c: Device, d: Device, generated: string)
    requires c.bemfaTopic == d.bemfaTopic
    ensures TopicFor(c, generated) == TopicFor(d, generated)
  {
  }

  lemma KeepsTimes(d: Device)
    ensures Normalized(d).createdAt == d.createdAt && Normalized(d).id == d.id
  {
    hide Trim, Canonical, ProbeMethod;
  }

  lemma MadeAlike(a: Device, b: Device, d: Device, id: string, topic: string)
    requires Made(a, d, id, topic) && b == a.(createdAt := b.createdAt, updatedAt := b.updatedAt)
    ensures Made(b, d, id, topic)
  {
    hide Trim, E.MethodOf;
  }

  lemma TimesWritten(n: Device, q: Device, was: Option<Device>, now: int, freshId: string)
    requires E.DeviceWritten(n, q, was, now, freshId)
    ensures n.createdAt == (if was.Some? && was.value.createdAt != 0 then was.value.createdAt else now)
  {
    hide Trim, E.MethodOf;
  }

  /** What storing the normalized request d makes. */
  lemma StoredIsMade(w: World, q: Device, d: Device, storeOnError: bool, e: Env)
    requires StoreAndFinish(w, q, storeOnError, e).answer.Answered? && q == Normalized(d.(id := q.id, createdAt := q.createdAt))
    requires var ids := DeviceIds(w.devices);
             Distinct(ids) && if q.id == "" then e.freshId != "" && e.freshId !in ids else q.id in ids
    ensures var r, was := StoreAndFinish(w, q, storeOnError, e), E.There(w.devices, Slot(DeviceIds(w.devices), q.id));
            var n := r.answer.device;
            && r.world.devices == WithDevice(w.devices, q.id, n)
            && Made(n, d, E.IdFor(q.id, e.freshId), if d.bemfaEnable then TopicFor(d, e.generated) else Canonical(d.bemfaTopic))
            && n.createdAt == (if was.Some? && was.value.createdAt != 0 then was.value.createdAt else if e.now != 0 then e.now else e.later)
            && n.updatedAt == e.later
  {
    hide Normalized, StoreAndFinish, StoredDevice, Made, ChosenTopic, Canonical, TopicFor, E.DeviceWritten, WithDevice;
    StoreMakes(w, q, storeOnError, e);
    NormalizedSays(d.(id := q.id, createdAt := q.createdAt), e.generated);
    SameTopicFor(d.(id := q.id, createdAt := q.createdAt), d, e.generated);
    var s, was := StoredDevice(w.devices, q, e.now, e.freshId).value, E.There(w.devices, Slot(DeviceIds(w.devices), q.id));
    var id, topic := E.IdFor(q.id, e.freshId), FinalTopic(q, e.generated);
    MadeFrom(s, d, q, id, topic, was, e.now, e.freshId);
    TimesWritten(s, q, was, e.now, e.freshId);
    MadeAlike(s.(bemfaTopic := topic), StoreAndFinish(w, q, storeOnError, e).answer.device, d, id, topic);
  }

  /** An answered create appends the device that was asked for, with the fresh id and its final topic. */
  lemma CreateMakes(w: World, d: Device, e: Env)
    requires Create(w, d, e).answer.Answered?
    requires Distinct(DeviceIds(w.devices)) && e.freshId != "" && e.freshId !in DeviceIds(w.devices)
    ensures var r := Create(w, d, e);
            var n := r.answer.device;
            && r.world.devices == w.devices + [n]
            && Made(n, d, e.freshId, if d.bemfaEnable then TopicFor(d, e.generated) else Canonical(d.bemfaTopic))
            && n.createdAt == (if e.now != 0 then e.now else e.later) && n.updatedAt == e.later
  {
    hide Normalized, StoreAndFinish, Made, Canonical, TopicFor, Validated;
    KeepsTimes(d.(id := ""));
    StoredIsMade(w, Normalized(d.(id := "")), d, true, e);
  }

  /** An answered update puts it in the slot of the device, which keeps its id and its creation time. */
  lemma UpdateMakes(w: World, i: nat, d: Device, e: Env)
    requires Distinct(DeviceIds(w.devices)) && i < |w.devices| && Update(w, w.devices[i].id, d, e).answer.Answered?
    ensures var r, was := Update(w, w.devices[i].id, d, e), w.devices[i];
            var n := r.answer.device;
            && r.world.devices == w.devices[i := n]
            && Made(n, d, was.id, if d.bemfaEnable then TopicFor(d, e.generated) else Canonical(d.bemfaTopic))
            && n.createdAt == (if was.createdAt != 0 then was.createdAt else if e.now != 0 then e.now else e.later)
            && n.updatedAt == e.later
  {
    hide Normalized, StoreAndFinish, Made, Canonical, TopicFor, Validated, Update, Releases;
    var was := w.devices[i];
    UpdateFinds(w, i, d, e);
    var request := d.(id := was.id, createdAt := if d.createdAt == 0 then was.createdAt else d.createdAt);
    var q := Normalized(request);
    KeepsTimes(request);
    assert DeviceIds(w.devices)[i] == was.id;
    IndexIs(DeviceIds(w.devices), was.id, i);
    StoredIsMade(if Releases(was, q) then w.(topics := Removed(w.topics, was)) else w, q, d, false, e);
  }

  // -- deletes --

  /** Deleting a known device takes exactly it out of the list, and its topic, if it has one, out of the map. */
  lemma DeleteTakes(w: World, i: nat)
    requires Distinct(DeviceIds(w.devices)) && i < |w.devices|
    ensures var was := w.devices[i];
            Delete(w, was.id) == World(w.devices[..i] + w.devices[i + 1..],
                                       if was.bemfaTopic == "" then w.topics else w.topics - {was.bemfaTopic})
  {
    assert DeviceIds(w.devices)[i] == w.devices[i].id;
    IndexIs(DeviceIds(w.devices), w.devices[i].id, i);
    assert forall j :: 0 <= j < |w.devices| ==> DeviceIds(w.devices)[j] == w.devices[j].id;
    FilterOutOne(w.devices, i, OtherDevice(w.devices[i].id));
  }
}
