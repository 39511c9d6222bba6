/** Who is subscribed under which id, as plain relations, and the identity of every session, over whole runs.
    Refreshing, connecting, registering for push and finalizing are single steps. */
module BrokerRun {
  import opened Containers

  /** A session object. */
  type Handle = nat

  /** Pairs of an id and a session found under it. */
  type Relation = set<(int, Handle)>

  /** `keys` are the ids of the authorization key in use and of the permanent one, if the session has key data. */
  datatype Who = Who(
    keys: Option<(Option<int>, Option<int>)>, userId: Option<int>, authId: Option<int>, mfaPending: bool,
    channels: set<int>, internalPush: bool, connected: bool)

  datatype Hub = Hub(
    who: map<Handle, Who>, users: Relation, keys: Relation, auths: Relation, channels: Relation, push: Relation)

  /** What the database says about the permanent key; `Recent` if it was asked a moment ago. */
  datatype Lookup =
    | Recent
    | Found(userId: int, authId: int, mfaPending: bool)
    | Missing

  datatype Event =
    | Create(h: Handle, keys: (Option<int>, Option<int>))
    | Connect(h: Handle)
    | Disconnect(h: Handle)
    | Refresh(h: Handle, forced: Option<(Option<int>, Option<int>)>, lookup: Lookup, joined: Option<set<int>>)
    | RegisterPush(h: Handle, forced: Option<(Option<int>, Option<int>)>, lookup: Lookup, joined: Option<set<int>>)
    | Finalize(h: Handle)
    | SubscribeChannels(userIds: set<int>, channelIds: set<int>, add: bool)

  const INITIAL := Hub(map[], {}, {}, {}, {}, {})

  // ----- operations on one relation

  /** Neither a missing id nor zero is an id. */
  function Add(r: Relation, id: Option<int>, h: Handle): Relation {
    if id.Some? && id.value != 0 then r + {(id.value, h)} else r
  }

  function Drop(r: Relation, id: Option<int>, h: Handle): Relation {
    if id.Some? && id.value != 0 then r - {(id.value, h)} else r
  }

  function Pairs(ids: set<int>, h: Handle): (r: Relation)
    ensures forall id, g: Handle :: (id, g) in r <==> id in ids && g == h
  {
    set c | c in ids :: (c, h)
  }

  function Diff(r: Relation, gone: set<int>, come: set<int>, h: Handle): Relation {
    r - Pairs(gone, h) + Pairs(come, h)
  }

  function KeyOf(w: Who): Option<int> {
    if w.keys.Some? then w.keys.value.0 else None
  }

  function PermKeyOf(w: Who): Option<int> {
    if w.keys.Some? then w.keys.value.1 else None
  }

  // ----- steps

  function Subscribe(s: Hub, h: Handle): Hub
    requires h in s.who
  {
    var w := s.who[h];
    s.(users := Add(s.users, w.userId, h),
       keys := Add(Add(s.keys, KeyOf(w), h), PermKeyOf(w), h),
       auths := Add(s.auths, w.authId, h),
       channels := Diff(s.channels, {}, w.channels, h),
       push := if w.internalPush then Add(s.push, w.userId, h) else Drop(s.push, w.userId, h))
  }

  function Unsubscribe(s: Hub, h: Handle): Hub
    requires h in s.who
  {
    var w := s.who[h];
    s.(users := Drop(s.users, w.userId, h),
       keys := Drop(Drop(s.keys, KeyOf(w), h), PermKeyOf(w), h),
       auths := Drop(s.auths, w.authId, h),
       channels := Diff(s.channels, w.channels, {}, h),
       push := Drop(s.push, w.userId, h))
  }

  function Put(s: Hub, h: Handle, w: Who): Hub {
    s.(who := s.who[h := w])
  }

  function ResetAuth(s: Hub, h: Handle): Hub
    requires h in s.who
  {
    var w := s.who[h];
    Put(s, h, w.(userId := None, authId := None, mfaPending := false, channels := {}))
      .(auths := Drop(s.auths, w.authId, h),
        users := Drop(s.users, w.userId, h),
        channels := Diff(s.channels, w.channels, {}, h))
  }

  /** The index follows a change of id. */
  function Move(r: Relation, from: Option<int>, to: Option<int>, h: Handle): Relation {
    if from == to then r else Add(Drop(r, from, h), to, h)
  }

  function RefreshChannels(s: Hub, h: Handle, joined: Option<set<int>>): Hub
    requires h in s.who
  {
    var w := s.who[h];
    if w.authId.Some? && !w.mfaPending && joined.Some? then
      Put(s, h, w.(channels := joined.value))
        .(channels := Diff(s.channels, w.channels - joined.value, joined.value - w.channels, h))
    else s
  }

  function RefreshAuth(s: Hub, h: Handle, forced: Option<(Option<int>, Option<int>)>, lookup: Lookup,
                       joined: Option<set<int>>): Hub
    requires h in s.who
  {
    var w := s.who[h];
    if w.keys.None? then s
    else
      var s1 := if forced.Some? && w.keys.value.0.Some? then Put(s, h, w.(keys := forced)) else s;
      var w1 := s1.who[h];
      if KeyOf(w1).None? || PermKeyOf(w1).None? || lookup.Missing? then ResetAuth(s1, h)
      else
        var w2 :=
          if lookup.Found? then
            w1.(userId := Some(lookup.userId), authId := Some(lookup.authId), mfaPending := lookup.mfaPending)
          else w1;
        var s2 := RefreshChannels(Put(s1, h, w2), h, joined);
        s2.(users := Move(s2.users, w.userId, w2.userId, h), auths := Move(s2.auths, w.authId, w2.authId, h))
  }

  /** Channel pushes go to the sessions found under the users. */
  function SessionsOf(r: Relation, ids: set<int>): set<Handle> {
    set p | p in r && p.0 in ids :: p.1
  }

  function Next(s: Hub, e: Event): Hub {
    match e
    case Create(h, keys) =>
      if h in s.who then s else Put(s, h, Who(Some(keys), None, None, false, {}, false, true))
    case Connect(h) =>
      if h !in s.who then s else Subscribe(Put(s, h, s.who[h].(connected := true)), h)
    case Disconnect(h) => if h !in s.who then s else Put(s, h, s.who[h].(connected := false))
    case Refresh(h, forced, lookup, joined) => if h !in s.who then s else RefreshAuth(s, h, forced, lookup, joined)
    case RegisterPush(h, forced, lookup, joined) =>
      if h !in s.who then s
      else Subscribe(RefreshAuth(Put(s, h, s.who[h].(internalPush := true)), h, forced, lookup, joined), h)
    case Finalize(h) =>
      if h !in s.who then s
      else
        var t := Put(s, h, s.who[h].(connected := false));
        if KeyOf(s.who[h]).None? then t else Unsubscribe(t, h)
    case SubscribeChannels(userIds, channelIds, add) =>
      var targets := SessionsOf(s.users, userIds);
      var pairs := set c, h | c in channelIds && h in targets :: (c, h);
      s.(channels := if add then s.channels + pairs else s.channels - pairs)
  }

  function Run(es: seq<Event>): Hub {
    if es == [] then INITIAL else Next(Run(es[..|es| - 1]), es[|es| - 1])
  }

  // ----- no session is found under an id it does not have

  ghost predicate Current(s: Hub) {
    && (forall p :: p in s.users ==> p.1 in s.who && s.who[p.1].userId == Some(p.0) && p.0 != 0)
    && (forall p :: p in s.auths ==> p.1 in s.who && s.who[p.1].authId == Some(p.0) && p.0 != 0)
  }

  lemma ResetKeepsCurrent(s: Hub, h: Handle)
    requires Current(s) && h in s.who
    ensures Current(ResetAuth(s, h))
  {
  }

  /** Changing the ids of a session and moving it in the index go together. */
  lemma MoveKeepsCurrent(s: Hub, h: Handle, w: Who)
    requires Current(s) && h in s.who
    ensures Current(Put(s, h, w).(users := Move(s.users, s.who[h].userId, w.userId, h),
                                  auths := Move(s.auths, s.who[h].authId, w.authId, h)))
  {
  }

  lemma RefreshKeepsCurrent(s: Hub, h: Handle, forced: Option<(Option<int>, Option<int>)>, lookup: Lookup,
                            joined: Option<set<int>>)
    requires Current(s) && h in s.who
    ensures Current(RefreshAuth(s, h, forced, lookup, joined))
  {
    var w, r := s.who[h], RefreshAuth(s, h, forced, lookup, joined);
    if w.keys.Some? {
      var s1 := if forced.Some? && w.keys.value.0.Some? then Put(s, h, w.(keys := forced)) else s;
      var w1 := s1.who[h];
      if KeyOf(w1).None? || PermKeyOf(w1).None? || lookup.Missing? {
        ResetKeepsCurrent(s1, h);
      } else {
        MoveKeepsCurrent(s, h, r.who[h]);
      }
    }
  }

  lemma StepKeepsCurrent(s: Hub, e: Event)
    requires Current(s)
    ensures Current(Next(s, e))
  {
    match e
    case Refresh(h, forced, lookup, joined) =>
      if h in s.who {
        RefreshKeepsCurrent(s, h, forced, lookup, joined);
      }
    case RegisterPush(h, forced, lookup, joined) =>
      if h in s.who {
        RefreshKeepsCurrent(Put(s, h, s.who[h].(internalPush := true)), h, forced, lookup, joined);
      }
    case _ =>
  }

  /** In every reachable state a session found under a user id or an authorization id has that id now: through
      login, change of account, logout and finalization. */
  lemma {:induction false} NoOldIdentity(es: seq<Event>)
    ensures Current(Run(es))
  {
    if es != [] {
      NoOldIdentity(es[..|es| - 1]);
      StepKeepsCurrent(Run(es[..|es| - 1]), es[|es| - 1]);
    }
  }

  // ----- a session is found under the ids it has from its connection to its finalization

  /** `h` was connected and not finalized since. */
  function Enrolled(es: seq<Event>, h: Handle): bool {
    if es == [] then false
    else
      var e := es[|es| - 1];
      if e.Connect? && e.h == h then h in Run(es[..|es| - 1]).who
      else if e.Finalize? && e.h == h then false
      else Enrolled(es[..|es| - 1], h)
  }

  ghost predicate Listed(r: Relation, id: Option<int>, h: Handle) {
    id.Some? && id.value != 0 ==> (id.value, h) in r
  }

  ghost predicate FoundNow(s: Hub, h: Handle) {
    h in s.who && Listed(s.users, s.who[h].userId, h) && Listed(s.auths, s.who[h].authId, h)
  }

  lemma MoveKeepsFound(s: Hub, g: Handle, w: Who, h: Handle)
    requires FoundNow(s, h) && g in s.who
    ensures FoundNow(Put(s, g, w).(users := Move(s.users, s.who[g].userId, w.userId, g),
                                   auths := Move(s.auths, s.who[g].authId, w.authId, g)), h)
  {
  }

  lemma ResetKeepsFound(s: Hub, g: Handle, h: Handle)
    requires FoundNow(s, h) && g in s.who
    ensures FoundNow(ResetAuth(s, g), h)
  {
  }

  lemma RefreshKeepsFound(s: Hub, g: Handle, forced: Option<(Option<int>, Option<int>)>, lookup: Lookup,
                          joined: Option<set<int>>, h: Handle)
    requires FoundNow(s, h) && g in s.who
    ensures FoundNow(RefreshAuth(s, g, forced, lookup, joined), h)
  {
    var w, r := s.who[g], RefreshAuth(s, g, forced, lookup, joined);
    if w.keys.Some? {
      var s1 := if forced.Some? && w.keys.value.0.Some? then Put(s, g, w.(keys := forced)) else s;
      if KeyOf(s1.who[g]).Some? && PermKeyOf(s1.who[g]).Some? && !lookup.Missing? {
        MoveKeepsFound(s, g, r.who[g], h);
      } else {
        ResetKeepsFound(s1, g, h);
      }
    }
  }

  lemma SubscribeFinds(s: Hub, g: Handle, h: Handle)
    requires g in s.who && (g == h || FoundNow(s, h))
    ensures FoundNow(Subscribe(s, g), h)
  {
  }

  lemma UnsubscribeSpares(s: Hub, g: Handle, h: Handle)
    requires g in s.who && g != h && FoundNow(s, h)
    ensures FoundNow(Unsubscribe(s, g), h)
  {
  }

  lemma StepKeepsFound(s: Hub, e: Event, h: Handle)
    requires FoundNow(s, h) && !(e.Finalize? && e.h == h)
    ensures FoundNow(Next(s, e), h)
  {
    match e
    case Create(g, _) =>
    case Connect(g) =>
      if g in s.who {
        SubscribeFinds(Put(s, g, s.who[g].(connected := true)), g, h);
      }
    case Disconnect(g) =>
    case Refresh(g, forced, lookup, joined) =>
      if g in s.who {
        RefreshKeepsFound(s, g, forced, lookup, joined, h);
      }
    case RegisterPush(g, forced, lookup, joined) =>
      if g in s.who {
        var t := Put(s, g, s.who[g].(internalPush := true));
        RefreshKeepsFound(t, g, forced, lookup, joined, h);
        SubscribeFinds(RefreshAuth(t, g, forced, lookup, joined), g, h);
      }
    case Finalize(g) =>
      if g in s.who && g != h {
        UnsubscribeSpares(Put(s, g, s.who[g].(connected := false)), g, h);
      }
    case SubscribeChannels(_, _, _) =>
  }

  /** From its connection until it is finalized a session is found under its user id and authorization id. */
  lemma {:induction false} EnrolledIsFound(es: seq<Event>, h: Handle)
    requires Enrolled(es, h)
    ensures FoundNow(Run(es), h)
  {
    var before, e := es[..|es| - 1], es[|es| - 1];
    if e.Connect? && e.h == h {
      SubscribeFinds(Put(Run(before), h, Run(before).who[h].(connected := true)), h, h);
    } else {
      EnrolledIsFound(before, h);
      StepKeepsFound(Run(before), e, h);
    }
  }

  /** A finalized session that has a key is found under no user or authorization id any more. */
  lemma FinalizedIsGone(es: seq<Event>, h: Handle, id: int)
    requires h in Run(es).who && KeyOf(Run(es).who[h]).Some?
    ensures (id, h) !in Next(Run(es), Finalize(h)).users && (id, h) !in Next(Run(es), Finalize(h)).auths
  {
    NoOldIdentity(es);
  }
}
