/** What every event does to the identity of the session it names and to the indexes, told by the fields of the session
    and of the event alone. */
module SessionIdentity {
  import opened Containers
  import opened BrokerRun

  /** A pair that puts session `h` under an id; zero and a missing id put it under nothing. */
  ghost predicate Named(id: Option<int>, h: Handle, p: (int, Handle)) {
    p.1 == h && p.0 != 0 && id == Some(p.0)
  }

  ghost predicate NamedKey(w: Who, h: Handle, p: (int, Handle)) {
    w.keys.Some? && (Named(w.keys.value.0, h, p) || Named(w.keys.value.1, h, p))
  }

  ghost predicate InChannel(channels: set<int>, h: Handle, p: (int, Handle)) {
    p.1 == h && p.0 in channels
  }

  /** Session `h` aside, nothing about any session has changed. */
  ghost predicate OnlyOne(s: Hub, t: Hub, h: Handle) {
    && h in s.who && t.who.Keys == s.who.Keys
    && (forall g :: g in s.who && g != h ==> t.who[g] == s.who[g])
    && (forall p: (int, Handle) :: p.1 != h ==>
          && (p in t.users <==> p in s.users) && (p in t.auths <==> p in s.auths)
          && (p in t.keys <==> p in s.keys) && (p in t.push <==> p in s.push)
          && (p in t.channels <==> p in s.channels))
  }

  // ----- refreshing

  /** The keys after the reload of a forced refresh; only a session with a key in use reloads them. */
  ghost predicate Reloaded(w: Who, forced: Option<(Option<int>, Option<int>)>, v: Who) {
    v.keys == if forced.Some? && w.keys.Some? && w.keys.value.0.Some? then forced else w.keys
  }

  predicate HasBothKeys(v: Who) {
    v.keys.Some? && v.keys.value.0.Some? && v.keys.value.1.Some?
  }

  /** Session `w` has become `v`. */
  ghost predicate Refreshed(w: Who, forced: Option<(Option<int>, Option<int>)>, lookup: Lookup,
                            joined: Option<set<int>>, v: Who) {
    && Reloaded(w, forced, v) && v.internalPush == w.internalPush && v.connected == w.connected
    && (w.keys.None? ==> v == w)
    && (w.keys.Some? && !(HasBothKeys(v) && !lookup.Missing?) ==>
          v.userId == None && v.authId == None && !v.mfaPending && v.channels == {})
    && (HasBothKeys(v) && lookup.Found? ==>
          v.userId == Some(lookup.userId) && v.authId == Some(lookup.authId) && v.mfaPending == lookup.mfaPending)
    && (HasBothKeys(v) && lookup.Recent? ==>
          v.userId == w.userId && v.authId == w.authId && v.mfaPending == w.mfaPending)
    && (HasBothKeys(v) && !lookup.Missing? ==>
          v.channels == if v.authId.Some? && !v.mfaPending && joined.Some? then joined.value else w.channels)
  }

  /** An index of ids follows a session from one id to another; a session that keeps its id stays as it was found. */
  ghost predicate Moves(r: Relation, r': Relation, from: Option<int>, to: Option<int>, h: Handle) {
    forall p :: p in r' <==> if from == to then p in r else Named(to, h, p) || (p in r && !Named(from, h, p))
  }

  /** Logging out takes a session from under its id, also when it is the id of no one. */
  ghost predicate Leaves(r: Relation, r': Relation, from: Option<int>, h: Handle) {
    forall p :: p in r' <==> p in r && !Named(from, h, p)
  }

  /** Each channel that was left or joined since is taken from or put over the session, and no other. */
  ghost predicate Rejoins(r: Relation, r': Relation, from: set<int>, to: set<int>, h: Handle) {
    forall p :: p in r' <==>
      if InChannel(from, h, p) == InChannel(to, h, p) then p in r else InChannel(to, h, p)
  }

  ghost predicate RefreshMoves(s: Hub, t: Hub, h: Handle, lookup: Lookup)
    requires h in s.who && h in t.who
  {
    var w, v := s.who[h], t.who[h];
    && (w.keys.Some? && !(HasBothKeys(v) && !lookup.Missing?) ==>
          Leaves(s.users, t.users, w.userId, h) && Leaves(s.auths, t.auths, w.authId, h))
    && (w.keys.Some? && HasBothKeys(v) && !lookup.Missing? ==>
          Moves(s.users, t.users, w.userId, v.userId, h) && Moves(s.auths, t.auths, w.authId, v.authId, h))
    && Rejoins(s.channels, t.channels, w.channels, v.channels, h)
    && t.keys == s.keys && t.push == s.push
  }

  lemma MoveMoves(r: Relation, from: Option<int>, to: Option<int>, h: Handle)
    ensures Moves(r, Move(r, from, to, h), from, to, h)
  {
  }

  lemma DropLeaves(r: Relation, from: Option<int>, h: Handle)
    ensures Leaves(r, Drop(r, from, h), from, h)
  {
  }

  lemma DiffRejoins(r: Relation, from: set<int>, to: set<int>, h: Handle)
    ensures Rejoins(r, Diff(r, from - to, to - from, h), from, to, h)
  {
  }

  lemma LeavesChannels(r: Relation, from: set<int>, h: Handle)
    ensures Rejoins(r, Diff(r, from, {}, h), from, {}, h)
  {
    assert from - {} == from;
    DiffRejoins(r, from, {}, h);
  }

  lemma NoRejoin(r: Relation, from: set<int>, h: Handle)
    ensures Rejoins(r, r, from, from, h)
  {
  }

  lemma ResetGives(s: Hub, h: Handle)
    requires h in s.who
    ensures var w, t := s.who[h], ResetAuth(s, h);
      && t.who == s.who[h := w.(userId := None, authId := None, mfaPending := false, channels := {})]
      && Leaves(s.users, t.users, w.userId, h) && Leaves(s.auths, t.auths, w.authId, h)
      && Rejoins(s.channels, t.channels, w.channels, {}, h) && t.keys == s.keys && t.push == s.push
  {
    DropLeaves(s.users, s.who[h].userId, h);
    DropLeaves(s.auths, s.who[h].authId, h);
    LeavesChannels(s.channels, s.who[h].channels, h);
  }

  lemma RejoinGives(s: Hub, h: Handle, joined: Option<set<int>>)
    requires h in s.who
    ensures var w, t := s.who[h], BrokerRun.RefreshChannels(s, h, joined);
      && h in t.who && t.who == s.who[h := t.who[h]]
      && t.who[h].channels == (if w.authId.Some? && !w.mfaPending && joined.Some? then joined.value else w.channels)
      && t.who[h] == w.(channels := t.who[h].channels)
      && Rejoins(s.channels, t.channels, w.channels, t.who[h].channels, h)
      && t.users == s.users && t.auths == s.auths && t.keys == s.keys && t.push == s.push
  {
    var w := s.who[h];
    if w.authId.Some? && !w.mfaPending && joined.Some? {
      DiffRejoins(s.channels, w.channels, joined.value, h);
    } else {
      NoRejoin(s.channels, w.channels, h);
    }
  }

  lemma OthersStay(s: Hub, t: Hub, h: Handle)
    requires h in s.who && h in t.who && t.who == s.who[h := t.who[h]]
    requires t.keys == s.keys && t.push == s.push
    requires Rejoins(s.channels, t.channels, s.who[h].channels, t.who[h].channels, h)
    requires
      Leaves(s.users, t.users, s.who[h].userId, h) || Moves(s.users, t.users, s.who[h].userId, t.who[h].userId, h)
    requires
      Leaves(s.auths, t.auths, s.who[h].authId, h) || Moves(s.auths, t.auths, s.who[h].authId, t.who[h].authId, h)
    ensures OnlyOne(s, t, h)
  {
  }

  /** The state once a forced refresh has reloaded the keys. */
  function Reload(s: Hub, h: Handle, forced: Option<(Option<int>, Option<int>)>): Hub
    requires h in s.who
  {
    var w := s.who[h];
    if forced.Some? && w.keys.Some? && w.keys.value.0.Some? then Put(s, h, w.(keys := forced)) else s
  }

  lemma LogoutGives(s: Hub, h: Handle, forced: Option<(Option<int>, Option<int>)>, lookup: Lookup,
                    joined: Option<set<int>>)
    requires h in s.who && s.who[h].keys.Some? && !(HasBothKeys(Reload(s, h, forced).who[h]) && !lookup.Missing?)
    ensures var t := RefreshAuth(s, h, forced, lookup, joined);
      OnlyOne(s, t, h) && Refreshed(s.who[h], forced, lookup, joined, t.who[h]) && RefreshMoves(s, t, h, lookup)
  {
    var s1 := Reload(s, h, forced);
    var t := ResetAuth(s1, h);
    assert RefreshAuth(s, h, forced, lookup, joined) == t;
    ResetGives(s1, h);
    OthersStay(s, t, h);
  }

  lemma LoginGives(s: Hub, h: Handle, forced: Option<(Option<int>, Option<int>)>, lookup: Lookup,
                   joined: Option<set<int>>)
    requires h in s.who && s.who[h].keys.Some? && HasBothKeys(Reload(s, h, forced).who[h]) && !lookup.Missing?
    ensures var t := RefreshAuth(s, h, forced, lookup, joined);
      OnlyOne(s, t, h) && Refreshed(s.who[h], forced, lookup, joined, t.who[h]) && RefreshMoves(s, t, h, lookup)
  {
    var w, w1 := s.who[h], Reload(s, h, forced).who[h];
    var w2 :=
      if lookup.Found? then
        w1.(userId := Some(lookup.userId), authId := Some(lookup.authId), mfaPending := lookup.mfaPending)
      else w1;
    var s2 := BrokerRun.RefreshChannels(Put(s, h, w2), h, joined);
    var t := s2.(users := Move(s2.users, w.userId, w2.userId, h), auths := Move(s2.auths, w.authId, w2.authId, h));
    assert RefreshAuth(s, h, forced, lookup, joined) == t by { LoginIs(s, h, forced, lookup, joined, w2); }
    RejoinGives(Put(s, h, w2), h, joined);
    MoveMoves(s.users, w.userId, w2.userId, h);
    MoveMoves(s.auths, w.authId, w2.authId, h);
    OthersStay(s, t, h);
  }

  lemma LoginIs(s: Hub, h: Handle, forced: Option<(Option<int>, Option<int>)>, lookup: Lookup,
                joined: Option<set<int>>, w2: Who)
    requires h in s.who && s.who[h].keys.Some? && HasBothKeys(Reload(s, h, forced).who[h]) && !lookup.Missing?
    requires
      var w1 := Reload(s, h, forced).who[h];
      w2 ==
        if lookup.Found? then
          w1.(userId := Some(lookup.userId), authId := Some(lookup.authId), mfaPending := lookup.mfaPending)
        else w1
    ensures
      var w, s2 := s.who[h], BrokerRun.RefreshChannels(Put(s, h, w2), h, joined);
      RefreshAuth(s, h, forced, lookup, joined) ==
        s2.(users := Move(s2.users, w.userId, w2.userId, h), auths := Move(s2.auths, w.authId, w2.authId, h))
  {
    assert Put(Reload(s, h, forced), h, w2) == Put(s, h, w2);
  }

  lemma KeylessGives(s: Hub, h: Handle, forced: Option<(Option<int>, Option<int>)>, lookup: Lookup,
                     joined: Option<set<int>>)
    requires h in s.who && s.who[h].keys.None?
    ensures var t := RefreshAuth(s, h, forced, lookup, joined);
      && t == s && OnlyOne(s, t, h) && Refreshed(s.who[h], forced, lookup, joined, t.who[h])
      && RefreshMoves(s, t, h, lookup)
  {
  }

  lemma RefreshAuthGives(s: Hub, h: Handle, forced: Option<(Option<int>, Option<int>)>, lookup: Lookup,
                         joined: Option<set<int>>)
    requires h in s.who
    ensures var t := RefreshAuth(s, h, forced, lookup, joined);
      OnlyOne(s, t, h) && Refreshed(s.who[h], forced, lookup, joined, t.who[h]) && RefreshMoves(s, t, h, lookup)
  {
    if s.who[h].keys.None? {
      KeylessGives(s, h, forced, lookup, joined);
    } else if HasBothKeys(Reload(s, h, forced).who[h]) && !lookup.Missing? {
      LoginGives(s, h, forced, lookup, joined);
    } else {
      LogoutGives(s, h, forced, lookup, joined);
    }
  }

  /** What a refresh gives in every reachable state: with both keys after the reload, the user and the authorization
      found in the database, or none if there is none. A connected session that is not finalized is then found under
      that user and that authorization and under no other. */
  lemma RefreshGives(es: seq<Event>, e: Event)
    requires e.Refresh? && e.h in Run(es).who
    ensures var s, t := Run(es), Run(es + [e]);
      && OnlyOne(s, t, e.h) && Refreshed(s.who[e.h], e.forced, e.lookup, e.joined, t.who[e.h])
      && RefreshMoves(s, t, e.h, e.lookup)
    ensures var t := Run(es + [e]);
      Enrolled(es, e.h) ==> forall id ::
        && ((id, e.h) in t.users <==> id != 0 && t.who[e.h].userId == Some(id))
        && ((id, e.h) in t.auths <==> id != 0 && t.who[e.h].authId == Some(id))
  {
    assert (es + [e])[..|es|] == es;
    RefreshAuthGives(Run(es), e.h, e.forced, e.lookup, e.joined);
    if Enrolled(es, e.h) {
      FoundExactly(es + [e], e.h);
    }
  }

  /** A connected session that is not finalized is found under its own user and authorization and nothing else. */
  lemma FoundExactly(es: seq<Event>, h: Handle)
    requires Enrolled(es, h)
    ensures h in Run(es).who
    ensures forall id :: (id, h) in Run(es).users <==> id != 0 && Run(es).who[h].userId == Some(id)
    ensures forall id :: (id, h) in Run(es).auths <==> id != 0 && Run(es).who[h].authId == Some(id)
  {
    EnrolledIsFound(es, h);
    NoOldIdentity(es);
  }

  // ----- connecting, registering for push, finalizing

  ghost predicate Joins(r: Relation, r': Relation, id: Option<int>, h: Handle) {
    forall p :: p in r' <==> p in r || Named(id, h, p)
  }

  /** Session `w` is put under every id it has. */
  ghost predicate Enters(s: Hub, t: Hub, h: Handle, w: Who) {
    && Joins(s.users, t.users, w.userId, h) && Joins(s.auths, t.auths, w.authId, h)
    && (forall p :: p in t.keys <==> p in s.keys || NamedKey(w, h, p))
    && (forall p :: p in t.channels <==> p in s.channels || InChannel(w.channels, h, p))
    && if w.internalPush then Joins(s.push, t.push, w.userId, h) else Leaves(s.push, t.push, w.userId, h)
  }

  /** Session `w` is taken from under every id it has. */
  ghost predicate Exits(s: Hub, t: Hub, h: Handle, w: Who) {
    && Leaves(s.users, t.users, w.userId, h) && Leaves(s.auths, t.auths, w.authId, h)
    && (forall p :: p in t.keys <==> p in s.keys && !NamedKey(w, h, p))
    && (forall p :: p in t.channels <==> p in s.channels && !InChannel(w.channels, h, p))
    && Leaves(s.push, t.push, w.userId, h)
  }

  lemma SubscribeEnters(s: Hub, h: Handle)
    requires h in s.who
    ensures Enters(s, Subscribe(s, h), h, s.who[h]) && Subscribe(s, h).who == s.who
  {
  }

  lemma UnsubscribeExits(s: Hub, h: Handle)
    requires h in s.who
    ensures Exits(s, Unsubscribe(s, h), h, s.who[h]) && Unsubscribe(s, h).who == s.who
  {
  }

  lemma ConnectGives(s: Hub, h: Handle)
    requires h in s.who
    ensures var t := Next(s, Connect(h));
      t.who == s.who[h := s.who[h].(connected := true)] && Enters(s, t, h, s.who[h])
  {
    SubscribeEnters(Put(s, h, s.who[h].(connected := true)), h);
  }

  /** Registering marks the session for push, refreshes it whatever the clock says, and puts it under what it has
      then. */
  lemma RegisterPushGives(s: Hub, h: Handle, forced: Option<(Option<int>, Option<int>)>, lookup: Lookup,
                          joined: Option<set<int>>)
    requires h in s.who
    ensures
      var marked := s.(who := s.who[h := s.who[h].(internalPush := true)]);
      var m, t := Next(marked, Refresh(h, forced, lookup, joined)), Next(s, RegisterPush(h, forced, lookup, joined));
      h in m.who && m.who[h].internalPush && t.who == m.who && Enters(m, t, h, m.who[h])
  {
    var marked := Put(s, h, s.who[h].(internalPush := true));
    RefreshAuthGives(marked, h, forced, lookup, joined);
    SubscribeEnters(RefreshAuth(marked, h, forced, lookup, joined), h);
  }

  /** Finalizing a session without a key in use leaves the indexes alone. */
  lemma FinalizeGives(s: Hub, h: Handle)
    requires h in s.who
    ensures var w, t := s.who[h], Next(s, Finalize(h));
      && t.who == s.who[h := w.(connected := false)]
      && if w.keys.Some? && w.keys.value.0.Some? then Exits(s, t, h, w) else t == s.(who := t.who)
  {
    if s.who[h].keys.Some? && s.who[h].keys.value.0.Some? {
      UnsubscribeExits(Put(s, h, s.who[h].(connected := false)), h);
    }
  }

  /** A channel push reaches the sessions found under the users and touches the named channels only. */
  lemma SubscribeChannelsGives(s: Hub, userIds: set<int>, channelIds: set<int>, add: bool)
    ensures var t := Next(s, SubscribeChannels(userIds, channelIds, add));
      && t == s.(channels := t.channels)
      && forall p :: p in t.channels <==>
           if p.0 in channelIds && Reaches(s, userIds, p.1) then add else p in s.channels
  {
    var targets := SessionsOf(s.users, userIds);
    var pairs := set c, h | c in channelIds && h in targets :: (c, h);
    var t := s.(channels := if add then s.channels + pairs else s.channels - pairs);
    assert Next(s, SubscribeChannels(userIds, channelIds, add)) == t;
    forall p
      ensures p in t.channels <==> if p.0 in channelIds && Reaches(s, userIds, p.1) then add else p in s.channels
    {
      SomeUserReaches(s, userIds, p.1);
      assert p == (p.0, p.1);
      var (c, g) := p;
      assert c in channelIds && g in targets ==> (c, g) in pairs;
    }
  }

  ghost predicate Reaches(s: Hub, userIds: set<int>, h: Handle) {
    exists id :: id in userIds && (id, h) in s.users
  }

  lemma SomeUserReaches(s: Hub, userIds: set<int>, h: Handle)
    ensures h in SessionsOf(s.users, userIds) <==> Reaches(s, userIds, h)
  {
    if h in SessionsOf(s.users, userIds) {
      var p :| p in s.users && p.0 in userIds && p.1 == h;
      var id := p.0;
      assert p == (id, h);
      assert id in userIds && (id, h) in s.users;
    }
    if id :| id in userIds && (id, h) in s.users {
      var p := (id, h);
      assert p.1 in SessionsOf(s.users, userIds);
    }
  }

  // ----- a new session

  /** Only sessions that exist are found under anything. */
  ghost predicate Known(s: Hub) {
    forall p :: p in s.users || p in s.auths || p in s.keys || p in s.channels || p in s.push ==> p.1 in s.who
  }

  lemma EntersKnown(s: Hub, t: Hub, h: Handle, w: Who)
    requires Known(s) && h in s.who && t.who.Keys == s.who.Keys && Enters(s, t, h, w)
    ensures Known(t)
  {
  }

  lemma StepKeepsKnown(s: Hub, e: Event)
    requires Known(s)
    ensures Known(Next(s, e))
  {
    match e
    case Create(_, _) =>
    case Disconnect(_) =>
    case Connect(h) =>
      if h in s.who {
        ConnectGives(s, h);
        EntersKnown(s, Next(s, e), h, s.who[h]);
      }
    case Refresh(h, forced, lookup, joined) =>
      if h in s.who {
        RefreshAuthGives(s, h, forced, lookup, joined);
      }
    case RegisterPush(h, forced, lookup, joined) =>
      if h in s.who {
        var marked := Put(s, h, s.who[h].(internalPush := true));
        RefreshAuthGives(marked, h, forced, lookup, joined);
        var m := RefreshAuth(marked, h, forced, lookup, joined);
        SubscribeEnters(m, h);
        EntersKnown(m, Next(s, e), h, m.who[h]);
      }
    case Finalize(h) =>
      if h in s.who {
        FinalizeGives(s, h);
      }
    case SubscribeChannels(userIds, channelIds, add) => SubscribeChannelsGives(s, userIds, channelIds, add);
  }

  lemma {:induction false} EveryRunKnows(es: seq<Event>)
    ensures Known(Run(es))
  {
    if es != [] {
      EveryRunKnows(es[..|es| - 1]);
      StepKeepsKnown(Run(es[..|es| - 1]), es[|es| - 1]);
    }
  }

  /** In every reachable state a new session is connected, has its keys and no identity, and is found under nothing;
      creating one that exists changes nothing. */
  lemma CreateGives(es: seq<Event>, h: Handle, keys: (Option<int>, Option<int>))
    ensures var s, t := Run(es), Next(Run(es), Create(h, keys));
      if h in s.who then t == s
      else
        && t == s.(who := t.who) && t.who.Keys == s.who.Keys + {h} && (forall g :: g in s.who ==> t.who[g] == s.who[g])
        && t.who[h].keys == Some(keys) && t.who[h].userId.None? && t.who[h].authId.None?
        && t.who[h].channels == {} && !t.who[h].mfaPending && !t.who[h].internalPush && t.who[h].connected
        && forall id :: (id, h) !in t.users && (id, h) !in t.auths && (id, h) !in t.keys && (id, h) !in t.channels
                        && (id, h) !in t.push
  {
    EveryRunKnows(es);
  }
}
