/** The session manager: every event of a run, carried out on the fields of the sessions and on the broker's
    dictionaries. */
module Sessions {
  import opened Containers
  import opened BrokerRun
  import opened Broker
  import opened SessionIdentity

  /** The elements of a set in some order. */
  method InSomeOrder<T(==)>(elements: set<T>) returns (order: seq<T>)
    ensures forall x :: x in order <==> x in elements
  {
    order := [];
    var left := elements;
    while left != {}
      invariant left <= elements && forall x :: x in order <==> x in elements - left
      decreases |left|
    {
      var x :| x in left;
      order, left := order + [x], left - {x};
    }
  }

  method IdsInSomeOrder(ids: set<int>) returns (order: seq<int>)
    ensures Ids(order) == ids
  {
    order := InSomeOrder(ids);
    assert forall id :: id in Ids(order) <==> id in order;
  }

  /** Some sessions put under some channels, or taken from under them. */
  function Spread(r: Relation, ids: set<int>, hs: set<Handle>, add: bool): Relation {
    var pairs := set c, h | c in ids && h in hs :: (c, h);
    if add then r + pairs else r - pairs
  }

  lemma SpreadOne(r: Relation, ids: set<int>, hs: set<Handle>, h: Handle, add: bool)
    ensures Spread(r, ids, hs + {h}, add)
      == Diff(Spread(r, ids, hs, add), if add then {} else ids, if add then ids else {}, h)
  {
  }

  lemma SpreadNone(r: Relation, ids: set<int>, add: bool)
    ensures Spread(r, ids, {}, add) == r
  {
  }

  lemma SpreadIsNext(s: Hub, userIds: set<int>, channelIds: set<int>, add: bool)
    ensures Next(s, SubscribeChannels(userIds, channelIds, add))
      == s.(channels := Spread(s.channels, channelIds, SessionsOf(s.users, userIds), add))
  {
  }

  lemma FoundUnder(r: Relation, userIds: seq<int>, found: set<Handle>)
    requires forall h :: h in found <==> exists i :: 0 <= i < |userIds| && userIds[i] !in [] && (userIds[i], h) in r
    ensures found == SessionsOf(r, Ids(userIds))
  {
    forall h ensures h in found <==> h in SessionsOf(r, Ids(userIds)) {
      if h in SessionsOf(r, Ids(userIds)) {
        var p :| p in r && p.0 in Ids(userIds) && p.1 == h;
        var i :| 0 <= i < |userIds| && userIds[i] == p.0;
        assert (userIds[i], h) in r;
      }
    }
  }

  class SessionManager {
    const broker: BaseMessageBroker
    /** The fields of every session. */
    var who: map<Handle, Who>
    ghost var hub: Hub

    constructor (broker: BaseMessageBroker)
      requires broker.Shows(INITIAL)
      ensures Valid() && hub == INITIAL && this.broker == broker
    {
      this.broker := broker;
      who, hub := map[], INITIAL;
    }

    /** The sessions and the dictionaries are those of `hub`. */
    ghost predicate Valid()
      reads this, broker
    {
      hub.who == who && broker.Shows(hub)
    }

    method ResetAuth(h: Handle)
      requires Valid() && h in who
      modifies this, broker
      ensures Valid() && hub == BrokerRun.ResetAuth(old(hub), h)
    {
      var w := who[h];
      broker.subscribedAuths := UnsubscribeFrom(broker.subscribedAuths, w.authId, h, hub.auths);
      broker.subscribedUsers := UnsubscribeFrom(broker.subscribedUsers, w.userId, h, hub.users);
      var channelIds := IdsInSomeOrder(w.channels);
      broker.subscribedChannels := ChannelsDiffUpdate(broker.subscribedChannels, h, channelIds, [], hub.channels);
      assert Ids([]) == {};
      who := who[h := w.(userId := None, authId := None, mfaPending := false, channels := {})];
      hub := BrokerRun.ResetAuth(hub, h);
    }

    method RefreshChannels(h: Handle, joined: Option<set<int>>)
      requires Valid() && h in who
      modifies this, broker
      ensures Valid() && hub == BrokerRun.RefreshChannels(old(hub), h, joined)
    {
      var w := who[h];
      if w.authId.Some? && !w.mfaPending && joined.Some? {
        var toDelete := IdsInSomeOrder(w.channels - joined.value);
        var toAdd := IdsInSomeOrder(joined.value - w.channels);
        who := who[h := w.(channels := joined.value)];
        broker.subscribedChannels := ChannelsDiffUpdate(broker.subscribedChannels, h, toDelete, toAdd, hub.channels);
      }
      hub := BrokerRun.RefreshChannels(hub, h, joined);
    }

    method RefreshAuthMaybe(h: Handle, forced: Option<(Option<int>, Option<int>)>, lookup: Lookup,
                            joined: Option<set<int>>)
      requires Valid() && h in who
      modifies this, broker
      ensures Valid() && hub == BrokerRun.RefreshAuth(old(hub), h, forced, lookup, joined)
      ensures OnlyOne(old(hub), hub, h) && Refreshed(old(who)[h], forced, lookup, joined, who[h])
    {
      ghost var before := hub;
      var w := who[h];
      if w.keys.None? {
        RefreshAuthGives(before, h, forced, lookup, joined);
        return;
      }
      if forced.Some? && w.keys.value.0.Some? {
        Set(h, w.(keys := forced));
      }
      if KeyOf(who[h]).None? || PermKeyOf(who[h]).None? {
        ResetAuth(h);
        RefreshAuthGives(before, h, forced, lookup, joined);
        return;
      }
      if lookup.Missing? {
        ResetAuth(h);
        RefreshAuthGives(before, h, forced, lookup, joined);
        return;
      }
      if lookup.Found? {
        var w1 := who[h];
        Set(h, w1.(userId := Some(lookup.userId), authId := Some(lookup.authId), mfaPending := lookup.mfaPending));
      }
      assert who[h := who[h]] == who;
      var now := who[h];
      RefreshChannels(h, joined);
      MoveUser(h, w.userId, now.userId);
      MoveAuth(h, w.authId, now.authId);
      RefreshAuthGives(before, h, forced, lookup, joined);
    }

    method Set(h: Handle, w: Who)
      requires Valid()
      modifies this
      ensures Valid() && hub == Put(old(hub), h, w)
    {
      who := who[h := w];
      hub := Put(hub, h, w);
    }

    method MoveUser(h: Handle, from: Option<int>, to: Option<int>)
      requires Valid()
      modifies this, broker
      ensures Valid() && hub == old(hub).(users := Move(old(hub.users), from, to, h))
    {
      if from != to {
        broker.subscribedUsers := UnsubscribeFrom(broker.subscribedUsers, from, h, hub.users);
        broker.subscribedUsers := SubscribeIn(broker.subscribedUsers, to, h, Drop(hub.users, from, h));
      }
      hub := hub.(users := Move(hub.users, from, to, h));
    }

    method MoveAuth(h: Handle, from: Option<int>, to: Option<int>)
      requires Valid()
      modifies this, broker
      ensures Valid() && hub == old(hub).(auths := Move(old(hub.auths), from, to, h))
    {
      if from != to {
        broker.subscribedAuths := UnsubscribeFrom(broker.subscribedAuths, from, h, hub.auths);
        broker.subscribedAuths := SubscribeIn(broker.subscribedAuths, to, h, Drop(hub.auths, from, h));
      }
      hub := hub.(auths := Move(hub.auths, from, to, h));
    }

    method Subscribe(h: Handle)
      requires Valid() && h in who
      modifies this, broker
      ensures Valid() && hub == BrokerRun.Subscribe(old(hub), h)
    {
      var channelIds := IdsInSomeOrder(who[h].channels);
      broker.Subscribe(h, who[h], channelIds, hub);
      hub := BrokerRun.Subscribe(hub, h);
    }

    method Finalize(h: Handle)
      requires Valid() && h in who
      modifies this, broker
      ensures Valid() && hub == BrokerRun.Next(old(hub), BrokerRun.Finalize(h))
    {
      var noKey := KeyOf(who[h]).None?;
      Set(h, who[h].(connected := false));
      if !noKey {
        var channelIds := IdsInSomeOrder(who[h].channels);
        broker.Unsubscribe(h, who[h], channelIds, hub);
        hub := BrokerRun.Unsubscribe(hub, h);
      }
    }

    /** A channel push: the sessions of the users are found first, then each is put under the channels or taken
        from under them. */
    method ProcessChannelsSubscribe(userIds: seq<int>, channelIds: seq<int>, add: bool)
      requires Valid()
      modifies this, broker
      ensures Valid() && hub == BrokerRun.Next(old(hub), SubscribeChannels(Ids(userIds), Ids(channelIds), add))
    {
      var sessions := Gather(broker.subscribedUsers, userIds, [], hub.users);
      FoundUnder(hub.users, userIds, sessions);
      SpreadIsNext(hub, Ids(userIds), Ids(channelIds), add);
      SpreadOver(sessions, channelIds, add);
    }

    method SpreadOver(sessions: set<Handle>, channelIds: seq<int>, add: bool)
      requires Valid()
      modifies this, broker
      ensures Valid() && hub == old(hub).(channels := Spread(old(hub.channels), Ids(channelIds), sessions, add))
    {
      ghost var before := hub;
      var left := sessions;
      SpreadNone(hub.channels, Ids(channelIds), add);
      while left != {}
        invariant left <= sessions && Valid()
        invariant hub == before.(channels := Spread(before.channels, Ids(channelIds), sessions - left, add))
        decreases |left|
      {
        var h :| h in left;
        SpreadOne(before.channels, Ids(channelIds), sessions - left, h, add);
        assert sessions - (left - {h}) == sessions - left + {h};
        PutUnder(h, channelIds, add);
        left := left - {h};
      }
      assert sessions - left == sessions;
    }

    method PutUnder(h: Handle, channelIds: seq<int>, add: bool)
      requires Valid()
      modifies this, broker
      ensures Valid() && hub == old(hub).(channels :=
        Diff(old(hub.channels), if add then {} else Ids(channelIds), if add then Ids(channelIds) else {}, h))
    {
      var toDelete, toAdd := if add then [] else channelIds, if add then channelIds else [];
      broker.subscribedChannels := ChannelsDiffUpdate(broker.subscribedChannels, h, toDelete, toAdd, hub.channels);
      assert Ids([]) == {};
      hub := hub.(channels := Diff(hub.channels, Ids(toDelete), Ids(toAdd), h));
    }

    method Take(e: Event)
      requires Valid()
      modifies this, broker
      ensures Valid() && hub == BrokerRun.Next(old(hub), e)
    {
      match e
      case Create(h, keys) =>
        if h !in who {
          Set(h, Who(Some(keys), None, None, false, {}, false, true));
        }
      case Connect(h) =>
        if h in who {
          Set(h, who[h].(connected := true));
          Subscribe(h);
        }
      case Disconnect(h) =>
        if h in who {
          Set(h, who[h].(connected := false));
        }
      case Refresh(h, forced, lookup, joined) =>
        if h in who {
          RefreshAuthMaybe(h, forced, lookup, joined);
        }
      case RegisterPush(h, forced, lookup, joined) =>
        if h in who {
          Set(h, who[h].(internalPush := true));
          RefreshAuthMaybe(h, forced, lookup, joined);
          Subscribe(h);
        }
      case Finalize(h) =>
        if h in who {
          Finalize(h);
        }
      case SubscribeChannels(userIds, channelIds, add) =>
        var users := IdsInSomeOrder(userIds);
        var channels := IdsInSomeOrder(channelIds);
        ProcessChannelsSubscribe(users, channels, add);
    }
  }

  /** After any run the sessions have the fields, and the dictionaries hold the pairs, that the machine says. */
  method TakeAll(es: seq<Event>) returns (m: SessionManager)
    ensures fresh(m) && fresh(m.broker) && m.broker.Shows(Run(es)) && m.who == Run(es).who
  {
    var broker := new BaseMessageBroker();
    m := new SessionManager(broker);
    for i := 0 to |es|
      invariant fresh(m) && fresh(m.broker) && m.Valid() && m.hub == Run(es[..i])
    {
      assert es[..i + 1][..i] == es[..i];
      m.Take(es[i]);
    }
    assert es[..|es|] == es;
  }
}
