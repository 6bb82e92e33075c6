/** Which device each broker topic should wake: topic texts, the map recomputed from the device list, and the map as
    the single operations of the manager edit it. */
module BemfaModel {
  import opened Text
  import opened Config

  type Topics = map<string, string>

  // -- topic texts --

  function NormalizeTopic(topic: string): string {
    Without(Canonical(topic), ":-_ ")
  }

  /** A normalized topic is in lower case and without colons, hyphens, underscores and blanks; each other character of the
      text between its outer white space stays, in order. */
  lemma TopicIs(topic: string, a: string, c: char, b: string)
    ensures forall i :: 0 <= i < |NormalizeTopic(topic)| ==>
              NormalizeTopic(topic)[i] != ':' && NormalizeTopic(topic)[i] != '-' && NormalizeTopic(topic)[i] != '_' && NormalizeTopic(topic)[i] != ' '
    ensures Lower(Trim(topic)) == a + [c] + b && c != ':' && c != '-' && c != '_' && c != ' ' ==>
              NormalizeTopic(topic) == Without(a, ":-_ ") + [c] + Without(b, ":-_ ")
  {
    hide Trim, Without, Lower;
    WithoutIs(Canonical(topic), "", c, ":-_ ");
    WithoutIs(a + [c], b, c, ":-_ ");
    WithoutIs(a, [c], c, ":-_ ");
    assert ":-_ "[0] == ':' && ":-_ "[1] == '-' && ":-_ "[2] == '_' && ":-_ "[3] == ' ';
  }

  predicate IsAlnum(c: char) {
    'a' <= c <= 'z' || 'A' <= c <= 'Z' || '0' <= c <= '9'
  }

  predicate AllAlnum(t: string) {
    forall i :: 0 <= i < |t| ==> IsAlnum(t[i])
  }

  /** What remains after normalizing must match ^[a-zA-Z0-9]{2,29}001$, which covers the checks before it. */
  predicate ValidTopic(topic: string) {
    var t := NormalizeTopic(topic);
    5 <= |t| <= 32 && HasSuffix(t, "001") && AllAlnum(t)
  }

  lemma {:induction false} WithoutKeepsLower(s: string, drop: string)
    requires IsLower(s)
    ensures IsLower(Without(s, drop))
  {
    if s != "" {
      assert IsLower(s[1..]);
      WithoutKeepsLower(s[1..], drop);
    }
  }

  lemma AlnumIsNormal(t: string)
    requires AllAlnum(t) && IsLower(t) && t != ""
    ensures Trimmed(t) && NormalizeTopic(t) == t
  {
    assert IsAlnum(t[0]) && IsAlnum(t[|t| - 1]);
    assert forall c :: c in ":-_ " ==> !IsAlnum(c);
    WithoutNone(t, ":-_ ");
  }

  /** A topic that passes validation is stored in a form that normalizing again does not change. */
  lemma ValidTopicIsNormal(topic: string)
    requires ValidTopic(topic)
    ensures var t := NormalizeTopic(topic); NormalizeTopic(t) == t && IsCanonical(t) && t != ""
  {
    WithoutKeepsLower(Canonical(topic), ":-_ ");
    AlnumIsNormal(NormalizeTopic(topic));
  }

  /** A user id as it is stored: no white space at the ends, and no blanks, line ends or zero-width characters left. */
  function SanitizeUid(uid: string): string {
    Without(Trim(uid), "\U{200B}\U{200C}\U{200D}\U{FEFF}\r\n \t")
  }

  const UNSEEN := "\U{200B}\U{200C}\U{200D}\U{FEFF}\r\n \t"

  /** What is left of a user id has none of these characters, and nothing else has been taken out of its middle. */
  lemma {:induction false} UidIs(uid: string, a: string, c: char, b: string)
    ensures forall i :: 0 <= i < |SanitizeUid(uid)| ==> SanitizeUid(uid)[i] !in UNSEEN
    ensures Trim(uid) == a + [c] + b ==> SanitizeUid(uid) == Without(a, UNSEEN) + (if c in UNSEEN then "" else [c]) + Without(b, UNSEEN)
    ensures (forall i :: 0 <= i < |uid| ==> uid[i] !in UNSEEN) && Trimmed(uid) ==> SanitizeUid(uid) == uid
  {
    hide Trim, Without, IsSpace;
    WithoutIs(Trim(uid), "", c, UNSEEN);
    WithoutIs(a + [c], b, c, UNSEEN);
    WithoutIs(a, [c], c, UNSEEN);
    if (forall i :: 0 <= i < |uid| ==> uid[i] !in UNSEEN) && Trimmed(uid) { WithoutNone(uid, UNSEEN); }
  }

  // -- the map recomputed from the device list --

  /** The device asks for this topic. */
  predicate Holds(d: Device, topic: string) {
    d.bemfaEnable && d.bemfaTopic == topic && !Blank(topic)
  }

  /** Enabled devices with a topic that is not blank; a later device wins. */
  function Wanted(ds: seq<Device>): Topics {
    if ds == [] then map[]
    else
      var n := |ds| - 1;
      var d := ds[n];
      if Holds(d, d.bemfaTopic) then Wanted(ds[..n])[d.bemfaTopic := d.id] else Wanted(ds[..n])
  }

  function Lookup(m: Topics, t: string): Option<string> {
    if t in m then Some(m[t]) else None
  }

  /** The last device that asks for the topic. */
  function LastHolder(ds: seq<Device>, t: string): (r: Option<nat>)
    ensures r.Some? ==> r.value < |ds|
  {
    if ds == [] then None
    else
      var n := |ds| - 1;
      if Holds(ds[n], t) then Some(n) else LastHolder(ds[..n], t)
  }

  lemma {:induction false} HolderHolds(ds: seq<Device>, t: string)
    ensures LastHolder(ds, t).Some? ==> Holds(ds[LastHolder(ds, t).value], t)
  {
    hide Holds;
    if ds != [] && !Holds(ds[|ds| - 1], t) { HolderHolds(ds[..|ds| - 1], t); }
  }

  lemma {:induction false} NoHolderAfter(ds: seq<Device>, t: string, j: nat)
    requires j < |ds| && (LastHolder(ds, t).None? || LastHolder(ds, t).value < j)
    ensures !Holds(ds[j], t)
  {
    hide Holds;
    var n := |ds| - 1;
    if j < n { NoHolderAfter(ds[..n], t, j); }
  }

  function WantedId(ds: seq<Device>, t: string): Option<string> {
    var j := LastHolder(ds, t);
    if j.Some? then Some(ds[j.value].id) else None
  }

  lemma {:induction false} WantedIsLastHolder(ds: seq<Device>, t: string)
    ensures Lookup(Wanted(ds), t) == WantedId(ds, t)
  {
    if ds != [] {
      WantedIsLastHolder(ds[..|ds| - 1], t);
    }
  }

  ghost predicate Agree(topics: Topics, ds: seq<Device>) {
    topics == Wanted(ds)
  }

  /** The map and the recomputed map say the same about topic t. */
  ghost predicate AgreeAt(topics: Topics, ds: seq<Device>, t: string) {
    Lookup(topics, t) == WantedId(ds, t)
  }

  ghost predicate AgreeAll(topics: Topics, ds: seq<Device>) {
    forall t :: AgreeAt(topics, ds, t)
  }

  lemma AgreeIsPointwise(topics: Topics, ds: seq<Device>)
    ensures Agree(topics, ds) <==> AgreeAll(topics, ds)
  {
    var wanted := Wanted(ds);
    forall t ensures AgreeAt(topics, ds, t) <==> Lookup(topics, t) == Lookup(wanted, t) { WantedIsLastHolder(ds, t); }
    if AgreeAll(topics, ds) {
      forall t ensures Lookup(topics, t) == Lookup(wanted, t) { assert AgreeAt(topics, ds, t); }
      LookupsDecide(topics, wanted);
    }
  }

  lemma LookupsDecide(a: Topics, b: Topics)
    requires forall t :: Lookup(a, t) == Lookup(b, t)
    ensures a == b
  {
    forall t ensures t in a <==> t in b { assert Lookup(a, t) == Lookup(b, t); }
    forall t | t in a ensures a[t] == b[t] { assert Lookup(a, t) == Lookup(b, t); }
  }

  // -- the map as the operations edit it --

  /** What the broker answers during one operation. */
  datatype Net = Net(startFails: bool, subscribeFails: string -> bool, unsubscribeFails: string -> bool) {
    ghost predicate Unsubscribes() {
      forall t :: !unsubscribeFails(t)
    }
  }

  function Subscribed(topics: Topics, topic: string, id: string, net: Net): Topics {
    if topic in topics && topics[topic] == id then topics
    else if net.subscribeFails(topic) then topics - {topic}
    else topics[topic := id]
  }

  function Synced(topics: Topics, wanted: Topics, net: Net): Topics {
    map t | t in wanted && (Lookup(topics, t) == Some(wanted[t]) || !net.subscribeFails(t)) :: wanted[t]
  }

  /** One sync after another with the same devices. */
  function SyncedThrough(topics: Topics, wanted: Topics, nets: seq<Net>): Topics {
    if nets == [] then topics
    else Synced(SyncedThrough(topics, wanted, nets[..|nets| - 1]), wanted, nets[|nets| - 1])
  }

  /** The topic was mapped right at the start or some sync could subscribe it. */
  ghost predicate Served(topics: Topics, wanted: Topics, nets: seq<Net>, t: string) {
    t in wanted && (Lookup(topics, t) == Some(wanted[t]) || exists i :: 0 <= i < |nets| && !nets[i].subscribeFails(t))
  }

  lemma ServedMore(topics: Topics, wanted: Topics, nets: seq<Net>, t: string)
    requires nets != []
    ensures var n := |nets| - 1;
            Served(topics, wanted, nets, t) <==> Served(topics, wanted, nets[..n], t) || (t in wanted && !nets[n].subscribeFails(t))
  {
    var n := |nets| - 1;
    assert forall i :: 0 <= i < n ==> nets[..n][i] == nets[i];
    if Served(topics, wanted, nets, t) && Lookup(topics, t) != Some(wanted[t]) {
      var i :| 0 <= i < |nets| && !nets[i].subscribeFails(t);
      assert i < n ==> !nets[..n][i].subscribeFails(t);
    }
  }

  lemma {:induction false} ServedIsMapped(topics: Topics, wanted: Topics, nets: seq<Net>, t: string)
    ensures t in wanted ==> (Lookup(SyncedThrough(topics, wanted, nets), t) == Some(wanted[t]) <==> Served(topics, wanted, nets, t))
  {
    if nets != [] {
      ServedIsMapped(topics, wanted, nets[..|nets| - 1], t);
      ServedMore(topics, wanted, nets, t);
    }
  }

  /** However many syncs it takes and whatever fails in between, they reach the recomputed map exactly when each wanted
      topic was mapped right at the start or could be subscribed once: what one sync gained no later one loses. */
  lemma SyncsReachWantedIff(topics: Topics, wanted: Topics, nets: seq<Net>)
    requires nets != []
    ensures SyncedThrough(topics, wanted, nets) == wanted <==> forall t :: t in wanted ==> Served(topics, wanted, nets, t)
  {
    hide Served;
    var synced := SyncedThrough(topics, wanted, nets);
    forall t ensures t in wanted ==> (Lookup(synced, t) == Some(wanted[t]) <==> Served(topics, wanted, nets, t)) {
      ServedIsMapped(topics, wanted, nets, t);
    }
    assert forall t :: t in synced ==> t in wanted && synced[t] == wanted[t];
    if forall t :: t in wanted ==> Served(topics, wanted, nets, t) {
      forall t | t in wanted ensures t in synced { assert Lookup(synced, t) == Some(wanted[t]); }
    }
  }

  datatype Refusal = NoUid | NotConnected | BadTopic | NotSubscribed

  datatype Ensured = Ensured(device: Device, topics: Topics, error: Option<Refusal>)

  /** The topic a device ends up with: generated when blank. */
  function ChosenTopic(d: Device, generated: string): string {
    NormalizeTopic(if Trim(d.bemfaTopic) == "" then generated else Trim(d.bemfaTopic))
  }

  function Ensure(topics: Topics, d: Device, uid: string, live: bool, net: Net, generated: string): Ensured {
    if !d.bemfaEnable then Ensured(d, if d.bemfaTopic != "" then topics - {d.bemfaTopic} else topics, None)
    else if uid == "" then Ensured(d, topics, Some(NoUid))
    else if !live then Ensured(d, topics, Some(NotConnected))
    else
      var topic := ChosenTopic(d, generated);
      if !ValidTopic(topic) then Ensured(d.(bemfaTopic := topic), topics, Some(BadTopic))
      else SubscribeAs(topics, d, topic, net)
  }

  /** A topic that could not be created may exist already, so it is subscribed all the same. */
  function SubscribeAs(topics: Topics, d: Device, topic: string, net: Net): Ensured {
    var after := Subscribed(topics, topic, d.id, net);
    Ensured(d.(bemfaTopic := topic), after, if Lookup(after, topic) == Some(d.id) then None else Some(NotSubscribed))
  }

  function Removed(topics: Topics, d: Device): Topics {
    if d.bemfaTopic != "" then topics - {d.bemfaTopic} else topics
  }
}
