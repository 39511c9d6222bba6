/** The broker's dictionaries of sets, the plain relations they represent, and delivery through them. */
module Broker {
  import opened Containers
  import opened BrokerRun

  type Index = map<int, set<Handle>>

  ghost predicate Under(ix: Index, id: int, h: Handle) {
    id in ix && h in ix[id]
  }

  /** The dictionary holds exactly the pairs of the relation, and no empty set. */
  ghost predicate Represents(ix: Index, r: Relation) {
    && (forall id :: id in ix ==> ix[id] != {})
    && (forall id, h: Handle :: Under(ix, id, h) <==> (id, h) in r)
  }

  /** A relation has one representation. */
  lemma RepresentationIsUnique(a: Index, b: Index, r: Relation)
    requires Represents(a, r) && Represents(b, r)
    ensures a == b
  {
    forall id ensures id in a <==> id in b {
      if id in a {
        var h :| h in a[id];
        assert Under(a, id, h) && Under(b, id, h);
      }
      if id in b {
        var h :| h in b[id];
        assert Under(b, id, h) && Under(a, id, h);
      }
    }
    forall id | id in a ensures a[id] == b[id] {
      forall h ensures h in a[id] <==> h in b[id] {
        assert Under(a, id, h) <==> Under(b, id, h);
      }
    }
  }

  method SubscribeIn(ix: Index, id: Option<int>, h: Handle, ghost r: Relation) returns (next: Index)
    requires Represents(ix, r)
    ensures Represents(next, Add(r, id, h))
  {
    if id.None? || id.value == 0 {
      return ix;
    }
    next := ix;
    if id.value !in next {
      next := next[id.value := {}];
    }
    next := next[id.value := next[id.value] + {h}];
    forall other, g ensures Under(next, other, g) <==> (other, g) in Add(r, id, h) {
      assert Under(next, other, g) <==> Under(ix, other, g) || (other == id.value && g == h);
    }
  }

  method UnsubscribeFrom(ix: Index, id: Option<int>, h: Handle, ghost r: Relation) returns (next: Index)
    requires Represents(ix, r)
    ensures Represents(next, Drop(r, id, h))
  {
    if id.None? || id.value == 0 || id.value !in ix {
      assert id.Some? && id.value != 0 ==> !Under(ix, id.value, h);
      return ix;
    }
    next := RemoveOne(ix, id.value, h, r);
  }

  method RemoveOne(ix: Index, id: int, h: Handle, ghost r: Relation) returns (next: Index)
    requires Represents(ix, r) && id in ix
    ensures Represents(next, r - {(id, h)})
  {
    next := ix;
    if h in next[id] {
      next := next[id := next[id] - {h}];
    }
    if next[id] == {} {
      next := next - {id};
    }
    ghost var left := ix[id] - {h};
    assert forall g: Handle :: g in left <==> g in ix[id] && g != h;
    assert if left == {} then id !in next else id in next && next[id] == left;
    forall other, g: Handle ensures Under(next, other, g) <==> (other, g) in r - {(id, h)} {
      assert Under(next, other, g) <==> Under(ix, other, g) && !(other == id && g == h);
    }
  }

  function Ids(ids: seq<int>): set<int> {
    set i | 0 <= i < |ids| :: ids[i]
  }

  /** Both loops of a channel update. */
  method ChannelsDiffUpdate(ix: Index, h: Handle, toDelete: seq<int>, toAdd: seq<int>, ghost r: Relation)
    returns (next: Index)
    requires Represents(ix, r)
    ensures Represents(next, Diff(r, Ids(toDelete), Ids(toAdd), h))
  {
    next := ix;
    if toDelete == [] && toAdd == [] {
      assert Ids([]) == {};
      assert Pairs({}, h) == {};
      return;
    }
    ghost var now := r;
    for i := 0 to |toDelete|
      invariant now == r - Pairs(Ids(toDelete[..i]), h) && Represents(next, now)
    {
      assert toDelete[..i + 1] == toDelete[..i] + [toDelete[i]];
      assert Ids(toDelete[..i + 1]) == Ids(toDelete[..i]) + {toDelete[i]};
      ghost var after := now - {(toDelete[i], h)};
      assert after == r - Pairs(Ids(toDelete[..i + 1]), h);
      if toDelete[i] in next {
        next := RemoveOne(next, toDelete[i], h, now);
      } else {
        assert !Under(next, toDelete[i], h);
        assert (toDelete[i], h) !in now;
      }
      now := after;
    }
    assert toDelete[..|toDelete|] == toDelete;
    ghost var left := now;
    for i := 0 to |toAdd|
      invariant now == left + Pairs(Ids(toAdd[..i]), h) && Represents(next, now)
    {
      assert toAdd[..i + 1] == toAdd[..i] + [toAdd[i]];
      assert Ids(toAdd[..i + 1]) == Ids(toAdd[..i]) + {toAdd[i]};
      next := AddOne(next, toAdd[i], h, now);
      now := now + {(toAdd[i], h)};
      assert now == left + Pairs(Ids(toAdd[..i + 1]), h);
    }
    assert toAdd[..|toAdd|] == toAdd;
  }

  method AddOne(ix: Index, id: int, h: Handle, ghost r: Relation) returns (next: Index)
    requires Represents(ix, r)
    ensures Represents(next, r + {(id, h)})
  {
    next := ix;
    if id !in next {
      next := next[id := {}];
    }
    next := next[id := next[id] + {h}];
    forall other, g ensures Under(next, other, g) <==> (other, g) in r + {(id, h)} {
      assert Under(next, other, g) <==> Under(ix, other, g) || (other == id && g == h);
    }
  }

  // ----- the broker

  /** Addressees of a message; the short form has at most one of each kind. */
  datatype Message =
    | ToMany(users: Option<seq<int>>, keys: Option<seq<int>>, channels: Option<seq<int>>, auths: Option<seq<int>>,
             ignored: Option<seq<int>>)
    | ToOne(user: Option<int>, key: Option<int>, channel: Option<int>, auth: Option<int>, ignoredOne: Option<int>)

  function Single(id: Option<int>): Option<seq<int>> {
    if id.Some? then Some([id.value]) else None
  }

  /** The long form that means the same. */
  function Widen(m: Message): Message {
    if m.ToMany? then m
    else ToMany(Single(m.user), Single(m.key), Single(m.channel), Single(m.auth), Single(m.ignoredOne))
  }

  function Listing(ids: Option<seq<int>>): seq<int> {
    if ids.Some? then ids.value else []
  }

  ghost predicate Reached(r: Relation, ids: seq<int>, h: Handle) {
    exists i :: 0 <= i < |ids| && (ids[i], h) in r
  }

  /** An addressee list names an id the session is found under; ignored authorizations are not looked up. */
  ghost predicate Targeted(s: Hub, m: Message, h: Handle)
    requires m.ToMany?
  {
    || Reached(s.users, Listing(m.users), h)
    || Reached(s.keys, Listing(m.keys), h)
    || Reached(s.channels, Listing(m.channels), h)
    || exists i ::
         && 0 <= i < |Listing(m.auths)| && Listing(m.auths)[i] !in Listing(m.ignored)
         && (Listing(m.auths)[i], h) in s.auths
  }

  /** `direct`: the update is of a kind that sessions for internal push get too. */
  predicate Eligible(w: Who, m: Message, direct: bool)
    requires m.ToMany?
  {
    && (w.authId.Some? ==> w.authId.value !in Listing(m.ignored))
    && (w.internalPush ==> direct)
    && w.connected
  }

  class BaseMessageBroker {
    var subscribedUsers: Index
    var subscribedKeys: Index
    var subscribedAuths: Index
    var subscribedChannels: Index
    var internalPushUsers: Index

    constructor ()
      ensures Shows(INITIAL)
    {
      subscribedUsers, subscribedKeys, subscribedAuths := map[], map[], map[];
      subscribedChannels, internalPushUsers := map[], map[];
    }

    ghost predicate Shows(s: Hub)
      reads this
    {
      && Represents(subscribedUsers, s.users) && Represents(subscribedKeys, s.keys)
      && Represents(subscribedAuths, s.auths) && Represents(subscribedChannels, s.channels)
      && Represents(internalPushUsers, s.push)
    }

    /** `channelIds` is the session's set in the order it is gone through. */
    method Subscribe(h: Handle, w: Who, channelIds: seq<int>, ghost s: Hub)
      requires Shows(s) && h in s.who && s.who[h] == w && Ids(channelIds) == w.channels
      modifies this
      ensures Shows(BrokerRun.Subscribe(s, h))
    {
      subscribedUsers := SubscribeIn(subscribedUsers, w.userId, h, s.users);
      subscribedKeys := SubscribeIn(subscribedKeys, KeyOf(w), h, s.keys);
      subscribedKeys := SubscribeIn(subscribedKeys, PermKeyOf(w), h, Add(s.keys, KeyOf(w), h));
      subscribedAuths := SubscribeIn(subscribedAuths, w.authId, h, s.auths);
      subscribedChannels := ChannelsDiffUpdate(subscribedChannels, h, [], channelIds, s.channels);
      assert Ids([]) == {};
      if w.internalPush {
        internalPushUsers := SubscribeIn(internalPushUsers, w.userId, h, s.push);
      } else {
        internalPushUsers := UnsubscribeFrom(internalPushUsers, w.userId, h, s.push);
      }
    }

    method Unsubscribe(h: Handle, w: Who, channelIds: seq<int>, ghost s: Hub)
      requires Shows(s) && h in s.who && s.who[h] == w && Ids(channelIds) == w.channels
      modifies this
      ensures Shows(BrokerRun.Unsubscribe(s, h))
    {
      subscribedUsers := UnsubscribeFrom(subscribedUsers, w.userId, h, s.users);
      subscribedKeys := UnsubscribeFrom(subscribedKeys, KeyOf(w), h, s.keys);
      subscribedKeys := UnsubscribeFrom(subscribedKeys, PermKeyOf(w), h, Drop(s.keys, KeyOf(w), h));
      subscribedAuths := UnsubscribeFrom(subscribedAuths, w.authId, h, s.auths);
      subscribedChannels := ChannelsDiffUpdate(subscribedChannels, h, channelIds, [], s.channels);
      assert Ids([]) == {};
      internalPushUsers := UnsubscribeFrom(internalPushUsers, w.userId, h, s.push);
    }

    method SendTo(m: Message, ghost s: Hub) returns (sendTo: set<Handle>)
      requires Shows(s) && m.ToMany?
      ensures forall h :: h in sendTo <==> Targeted(s, m, h)
    {
      sendTo := Gather(subscribedUsers, Listing(m.users), [], s.users);
      var byKey := Gather(subscribedKeys, Listing(m.keys), [], s.keys);
      var byChannel := Gather(subscribedChannels, Listing(m.channels), [], s.channels);
      var byAuth := Gather(subscribedAuths, Listing(m.auths), Listing(m.ignored), s.auths);
      sendTo := sendTo + byKey + byChannel + byAuth;
    }

    /** Every session a message is for gets it once, whichever of its ids the message names. */
    method ProcessMessageToUsers(message: Message, direct: bool, ghost s: Hub, who: map<Handle, Who>)
      returns (delivered: seq<Handle>)
      requires Shows(s) && s.who == who
      ensures forall i, j :: 0 <= i < j < |delivered| ==> delivered[i] != delivered[j]
      ensures forall h :: h in delivered <==>
        h in who && Targeted(s, Widen(message), h) && Eligible(who[h], Widen(message), direct)
    {
      var sendTo := SendTo(Widen(message), s);
      delivered := Deliver(sendTo, Widen(message), direct, who);
    }
  }

  method Deliver(sendTo: set<Handle>, m: Message, direct: bool, who: map<Handle, Who>) returns (delivered: seq<Handle>)
    requires m.ToMany?
    ensures forall i, j :: 0 <= i < j < |delivered| ==> delivered[i] != delivered[j]
    ensures forall h :: h in delivered <==> h in sendTo && h in who && Eligible(who[h], m, direct)
  {
    delivered := [];
    var left := sendTo;
    while left != {}
      invariant left <= sendTo
      invariant forall i, j :: 0 <= i < j < |delivered| ==> delivered[i] != delivered[j]
      invariant forall h :: h in delivered <==> h in sendTo - left && h in who && Eligible(who[h], m, direct)
      decreases |left|
    {
      var h :| h in left;
      left := left - {h};
      if h in who && Eligible(who[h], m, direct) {
        delivered := delivered + [h];
      }
    }
  }

  /** The sessions found under some id of a list. */
  method Gather(ix: Index, ids: seq<int>, ignored: seq<int>, ghost r: Relation) returns (found: set<Handle>)
    requires Represents(ix, r)
    ensures forall h :: h in found <==> exists i :: 0 <= i < |ids| && ids[i] !in ignored && (ids[i], h) in r
  {
    found := {};
    for i := 0 to |ids|
      invariant forall h :: h in found <==> exists k :: 0 <= k < i && ids[k] !in ignored && (ids[k], h) in r
    {
      if ids[i] !in ignored && ids[i] in ix {
        found := found + ix[ids[i]];
      }
      assert forall h: Handle :: (ids[i] in ix && h in ix[ids[i]]) <==> (ids[i], h) in r by {
        forall h: Handle ensures (ids[i] in ix && h in ix[ids[i]]) <==> (ids[i], h) in r {
          assert Under(ix, ids[i], h) <==> (ids[i], h) in r;
        }
      }
    }
  }

  // ----- what a sender asks for

  /** An addressee argument: none, one id, or a list of them. */
  datatype Ask =
    | Nobody
    | One(id: int)
    | Many(ids: seq<int>)

  function Shorten(a: Ask): Ask {
    if a.Many? && |a.ids| == 1 then One(a.ids[0]) else a
  }

  predicate Falsy(a: Ask) {
    match a
    case Nobody => true
    case One(id) => id == 0
    case Many(ids) => ids == []
  }

  function AsList(a: Ask): Option<seq<int>> {
    match a
    case Nobody => None
    case One(id) => Some([id])
    case Many(ids) => Some(ids)
  }

  function AsId(a: Ask): Option<int> {
    if a.One? then Some(a.id) else None
  }

  /** Nothing is sent without an addressee; single ids make the short form. */
  function Send(user: Ask, key: Ask, channel: Ask, auth: Ask, ignored: Ask): Option<Message> {
    if Falsy(user) && Falsy(key) && Falsy(channel) && Falsy(auth) then None
    else
      var (u, k, c, a, i) := (Shorten(user), Shorten(key), Shorten(channel), Shorten(auth), Shorten(ignored));
      if u.Many? || k.Many? || c.Many? || a.Many? || i.Many? then
        Some(ToMany(AsList(u), AsList(k), AsList(c), AsList(a), AsList(i)))
      else Some(ToOne(AsId(u), AsId(k), AsId(c), AsId(a), AsId(i)))
  }

  /** The form chosen never changes who is addressed. */
  lemma SendAddressesAll(user: Ask, key: Ask, channel: Ask, auth: Ask, ignored: Ask)
    requires Send(user, key, channel, auth, ignored).Some?
    ensures
      var m := Widen(Send(user, key, channel, auth, ignored).value);
      && m == ToMany(AsList(user), AsList(key), AsList(channel), AsList(auth), AsList(ignored))
  {
    assert forall a: Ask :: a.Many? && |a.ids| == 1 ==> [a.ids[0]] == a.ids;
  }

  predicate Asks(a: Ask, id: int) {
    a == One(id) || (a.Many? && id in a.ids)
  }

  predicate NobodyIn(a: Ask) {
    a == Nobody || a == One(0) || a == Many([])
  }

  /** The argument names an id that the session is found under. */
  ghost predicate Names(a: Ask, r: Relation, h: Handle) {
    exists id :: Asks(a, id) && (id, h) in r
  }

  lemma ListingAsks(a: Ask, id: int)
    ensures id in Listing(AsList(a)) <==> Asks(a, id)
  {
  }

  lemma ReachedIsNamed(a: Ask, r: Relation, h: Handle)
    ensures Reached(r, Listing(AsList(a)), h) <==> Names(a, r, h)
  {
    var ids := Listing(AsList(a));
    forall id ensures id in ids <==> Asks(a, id) {
      ListingAsks(a, id);
    }
    if Reached(r, ids, h) {
      var i :| 0 <= i < |ids| && (ids[i], h) in r;
      assert Asks(a, ids[i]);
    }
    if Names(a, r, h) {
      var id :| Asks(a, id) && (id, h) in r;
      var i :| 0 <= i < |ids| && ids[i] == id;
      assert (ids[i], h) in r;
    }
  }

  lemma AuthIsNamed(auth: Ask, ignored: Ask, r: Relation, h: Handle)
    ensures
      var ids, left := Listing(AsList(auth)), Listing(AsList(ignored));
      (exists i :: 0 <= i < |ids| && ids[i] !in left && (ids[i], h) in r) <==>
      exists id :: Asks(auth, id) && !Asks(ignored, id) && (id, h) in r
  {
    var ids, left := Listing(AsList(auth)), Listing(AsList(ignored));
    forall id ensures (id in ids <==> Asks(auth, id)) && (id in left <==> Asks(ignored, id)) {
      ListingAsks(auth, id);
      ListingAsks(ignored, id);
    }
    if i :| 0 <= i < |ids| && ids[i] !in left && (ids[i], h) in r {
      assert Asks(auth, ids[i]) && !Asks(ignored, ids[i]);
    }
    if id :| Asks(auth, id) && !Asks(ignored, id) && (id, h) in r {
      var i :| 0 <= i < |ids| && ids[i] == id;
      assert (ids[i], h) in r;
    }
  }

  /** What a sender asks for is what is delivered: nothing is sent if and only if no addressee is named; else a session
      gets the message if and only if it is connected, its authorization is not to be ignored, the update is for
      internal push if the session is, and some argument names an id that it is found under. */
  lemma SentToExactly(user: Ask, key: Ask, channel: Ask, auth: Ask, ignored: Ask, s: Hub, h: Handle, w: Who,
                      direct: bool)
    ensures Send(user, key, channel, auth, ignored).None? <==>
      NobodyIn(user) && NobodyIn(key) && NobodyIn(channel) && NobodyIn(auth)
    ensures Send(user, key, channel, auth, ignored).Some? ==>
      var m := Widen(Send(user, key, channel, auth, ignored).value);
      (Targeted(s, m, h) && Eligible(w, m, direct) <==>
        && w.connected && (w.authId.Some? ==> !Asks(ignored, w.authId.value)) && (w.internalPush ==> direct)
        && (|| Names(user, s.users, h) || Names(key, s.keys, h) || Names(channel, s.channels, h)
            || exists id :: Asks(auth, id) && !Asks(ignored, id) && (id, h) in s.auths))
  {
    if Send(user, key, channel, auth, ignored).Some? {
      SendAddressesAll(user, key, channel, auth, ignored);
      ReachedIsNamed(user, s.users, h);
      ReachedIsNamed(key, s.keys, h);
      ReachedIsNamed(channel, s.channels, h);
      AuthIsNamed(auth, ignored, s.auths, h);
      if w.authId.Some? {
        ListingAsks(ignored, w.authId.value);
      }
    }
  }

  // ----- delivery and identity

  /** A session reached through users or authorizations has, at that moment, an id that was named. */
  lemma ReachedAsNamed(es: seq<Event>, m: Message, h: Handle)
    requires m.ToMany? && Targeted(Run(es), m, h)
    ensures
      || h in Run(es).who
      || Reached(Run(es).keys, Listing(m.keys), h)
      || Reached(Run(es).channels, Listing(m.channels), h)
    ensures
      || Reached(Run(es).keys, Listing(m.keys), h)
      || Reached(Run(es).channels, Listing(m.channels), h)
      || (Run(es).who[h].userId.Some? && Run(es).who[h].userId.value in Listing(m.users))
      || (Run(es).who[h].authId.Some? && Run(es).who[h].authId.value in Listing(m.auths))
  {
    NoOldIdentity(es);
  }

  /** A session that is connected and in the index gets every message to its user, unless it is to be ignored or is
      for internal push alone. */
  lemma EnrolledIsTargeted(es: seq<Event>, m: Message, h: Handle)
    requires m.ToMany? && Enrolled(es, h) && h in Run(es).who
    requires var w := Run(es).who[h]; w.userId.Some? && w.userId.value != 0 && w.userId.value in Listing(m.users)
    ensures Targeted(Run(es), m, h)
  {
    EnrolledIsFound(es, h);
  }
}
