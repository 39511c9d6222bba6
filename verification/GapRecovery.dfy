/** A client that missed updates asks for the difference until it is told it has everything. */
module GapRecovery {
  import opened Containers

  datatype Kind = NewMessage | MessageEdit | NewAuthorization | Other

  /** `renders`: the update still has something to show when it is asked for. */
  datatype Update = Update(pts: int, kind: Kind, messageId: Option<int>, relatedId: Option<int>, renders: bool)

  /** Who asks, and on which layer. */
  datatype Asker = Asker(authId: int, layer: int)

  /** `batch` is what was read from the log; the client sees `messages` and `others`. */
  datatype Response =
    | TooLong(serverPts: int)
    | Empty
    | Difference(batch: seq<Update>, messages: seq<Update>, others: seq<Update>)
    | Slice(batch: seq<Update>, messages: seq<Update>, others: seq<Update>, pts: int)

  const SLICE: nat := 500

  /** A user's updates by rising pts. */
  ghost predicate Sorted(log: seq<Update>) {
    forall i, j :: 0 <= i < j < |log| ==> log[i].pts < log[j].pts
  }

  // ----- reading the log

  function After(log: seq<Update>, pts: int): seq<Update> {
    if log == [] || log[0].pts > pts then log else After(log[1..], pts)
  }

  function ServerPts(log: seq<Update>): int {
    if log == [] then 0 else log[|log| - 1].pts
  }

  /** How many of the first updates are within `top`, at most `most` of them. */
  function Within(us: seq<Update>, top: int, most: nat): (r: nat)
    ensures r <= |us| && r <= most
    ensures forall i :: 0 <= i < r ==> us[i].pts <= top
    ensures r < |us| && r < most ==> us[r].pts > top
  {
    if us == [] || most == 0 || us[0].pts > top then 0 else 1 + Within(us[1..], top, most - 1)
  }

  function Top(log: seq<Update>, pts: int, limit: Option<nat>): int {
    if limit.Some? then pts + limit.value else ServerPts(log)
  }

  function Batch(log: seq<Update>, pts: int, limit: Option<nat>): seq<Update> {
    var us := After(log, pts);
    us[..Within(us, Top(log, pts, limit), SLICE)]
  }

  // ----- what the client is shown of a batch

  predicate IsMessage(u: Update) {
    u.kind.NewMessage? && u.messageId.Some?
  }

  /** An edit of a message that comes new in the same batch. */
  predicate EditOfNew(batch: seq<Update>, u: Update) {
    && u.kind.MessageEdit?
    && exists i :: 0 <= i < |batch| && batch[i].kind.NewMessage? && batch[i].messageId == u.messageId
  }

  predicate OwnAuthorization(u: Update, who: Asker) {
    u.kind.NewAuthorization? && (u.relatedId == Some(who.authId) || who.layer < 163)
  }

  /** New messages are shown as such, never as updates. */
  predicate IsOther(batch: seq<Update>, u: Update, who: Asker) {
    !EditOfNew(batch, u) && !OwnAuthorization(u, who) && !u.kind.NewMessage? && u.renders
  }

  function Messages(us: seq<Update>): seq<Update> {
    if us == [] then []
    else Messages(us[..|us| - 1]) + if IsMessage(us[|us| - 1]) then [us[|us| - 1]] else []
  }

  function Others(batch: seq<Update>, us: seq<Update>, who: Asker): seq<Update> {
    if us == [] then []
    else Others(batch, us[..|us| - 1], who) + if IsOther(batch, us[|us| - 1], who) then [us[|us| - 1]] else []
  }

  function Answer(log: seq<Update>, pts: int, total: Option<nat>, limit: Option<nat>, secrets: bool, who: Asker)
    : Response
  {
    if total.Some? && ServerPts(log) > pts + total.value then TooLong(ServerPts(log))
    else
      var batch := Batch(log, pts, limit);
      if batch == [] && !secrets then Empty
      else if batch == [] || batch[|batch| - 1].pts >= ServerPts(log) then
        Difference(batch, Messages(batch), Others(batch, batch, who))
      else Slice(batch, Messages(batch), Others(batch, batch, who), batch[|batch| - 1].pts)
  }

  method NewMessageIds(us: seq<Update>) returns (ids: set<Option<int>>)
    ensures forall id :: id in ids <==> exists k :: 0 <= k < |us| && us[k].kind.NewMessage? && us[k].messageId == id
  {
    ids := {};
    for i := 0 to |us|
      invariant forall id :: id in ids <==> exists k :: 0 <= k < i && us[k].kind.NewMessage? && us[k].messageId == id
    {
      if us[i].kind.NewMessage? {
        ids := ids + {us[i].messageId};
      }
    }
  }

  /** The handler; `secrets` says that secret-chat updates are waiting too. */
  method GetDifference(log: seq<Update>, pts: int, total: Option<nat>, limit: Option<nat>, secrets: bool, who: Asker)
    returns (r: Response)
    ensures r == Answer(log, pts, total, limit, secrets, who)
  {
    if total.Some? && ServerPts(log) > pts + total.value {
      return TooLong(ServerPts(log));
    }
    var newUpdates := Batch(log, pts, limit);
    var newMessageIds := NewMessageIds(newUpdates);
    if newUpdates == [] && !secrets {
      return Empty;
    }
    var newMessages, otherUpdates := [], [];
    for i := 0 to |newUpdates|
      invariant newMessages == Messages(newUpdates[..i])
      invariant otherUpdates == Others(newUpdates, newUpdates[..i], who)
    {
      assert newUpdates[..i + 1][..i] == newUpdates[..i];
      var u := newUpdates[i];
      if u.kind.NewMessage? && u.messageId.Some? {
        newMessages := newMessages + [u];
      }
      if u.kind.MessageEdit? && u.messageId in newMessageIds {
        continue;
      }
      if u.kind.NewAuthorization? && (u.relatedId == Some(who.authId) || who.layer < 163) {
        continue;
      }
      if !u.kind.NewMessage? && u.renders {
        otherUpdates := otherUpdates + [u];
      }
    }
    assert newUpdates[..|newUpdates|] == newUpdates;
    if newUpdates == [] || newUpdates[|newUpdates| - 1].pts >= ServerPts(log) {
      return Difference(newUpdates, newMessages, otherUpdates);
    }
    return Slice(newUpdates, newMessages, otherUpdates, newUpdates[|newUpdates| - 1].pts);
  }

  // ----- facts about the log

  lemma FirstIsLeast(log: seq<Update>, u: Update)
    requires Sorted(log) && u in log
    ensures log[0].pts <= u.pts
  {
    var i :| 0 <= i < |log| && log[i] == u;
    assert i > 0 ==> log[0].pts < log[i].pts;
  }

  lemma {:induction false} AfterHas(log: seq<Update>, pts: int, u: Update)
    requires Sorted(log)
    ensures u in After(log, pts) <==> u in log && u.pts > pts
    decreases |log|
  {
    if log != [] {
      if log[0].pts > pts {
        if u in log {
          FirstIsLeast(log, u);
        }
      } else {
        assert log == [log[0]] + log[1..];
        AfterHas(log[1..], pts, u);
      }
    }
  }

  lemma {:induction false} AfterEndsAlike(log: seq<Update>, pts: int)
    requires Sorted(log)
    ensures Sorted(After(log, pts)) && (After(log, pts) != [] ==> ServerPts(After(log, pts)) == ServerPts(log))
    decreases |log|
  {
    if log != [] && log[0].pts <= pts {
      AfterEndsAlike(log[1..], pts);
    }
  }

  lemma AfterIsSuffix(log: seq<Update>, pts: int)
    requires Sorted(log)
    ensures Sorted(After(log, pts)) && (forall u :: u in After(log, pts) <==> u in log && u.pts > pts)
    ensures After(log, pts) != [] ==> ServerPts(After(log, pts)) == ServerPts(log)
  {
    AfterEndsAlike(log, pts);
    forall u ensures u in After(log, pts) <==> u in log && u.pts > pts {
      AfterHas(log, pts, u);
    }
  }

  /** Asking again from the last pts of a batch goes on right behind the batch. */
  lemma {:induction false} AfterBatch(log: seq<Update>, pts: int, n: nat)
    requires Sorted(log) && 0 < n <= |After(log, pts)|
    ensures After(log, After(log, pts)[n - 1].pts) == After(log, pts)[n..]
    decreases |log|
  {
    AfterIsSuffix(log, pts);
    var last := After(log, pts)[n - 1];
    if log[0].pts <= pts {
      assert last in After(log, pts) && last.pts > pts;
      AfterBatch(log[1..], pts, n);
    } else {
      SkipTo(log, n);
    }
  }

  lemma {:induction false} SkipTo(us: seq<Update>, n: nat)
    requires Sorted(us) && 0 < n <= |us|
    ensures After(us, us[n - 1].pts) == us[n..]
    decreases |us|
  {
    if n > 1 {
      SkipTo(us[1..], n - 1);
      assert us[1..][n - 1..] == us[n..];
      assert us[0].pts <= us[n - 1].pts;
    } else if |us| > 1 {
      assert us[0].pts < us[1].pts;
    }
  }

  // ----- a whole recovery

  /** The answers to asking again and again from the pts given, with the same limits, until an answer is not a slice;
      `secrets` tells for each call whether secret-chat updates were waiting. The log stands still meanwhile. */
  function Recover(log: seq<Update>, pts: int, total: Option<nat>, limit: Option<nat>, secrets: int -> bool, who: Asker)
    : seq<Response>
    requires Sorted(log)
    decreases |After(log, pts)|
  {
    var r := Answer(log, pts, total, limit, secrets(pts), who);
    if r.Slice? then
      AfterBatch(log, pts, |r.batch|);
      [r] + Recover(log, r.pts, total, limit, secrets, who)
    else [r]
  }

  function Seen(r: Response): seq<Update> {
    if r.Slice? || r.Difference? then r.batch else []
  }

  function Covered(rs: seq<Response>): seq<Update> {
    if rs == [] then [] else Seen(rs[0]) + Covered(rs[1..])
  }

  /** How far an update is from the one before it, or from the starting pts. */
  function Step(us: seq<Update>, pts: int, i: nat): int
    requires i < |us|
  {
    us[i].pts - if i == 0 then pts else us[i - 1].pts
  }

  /** No step in the log is wider than what the client asks for at a time. */
  ghost predicate NoWideStep(us: seq<Update>, pts: int, limit: Option<nat>) {
    limit.Some? ==> forall i: nat :: i < |us| ==> Step(us, pts, i) <= limit.value
  }

  /** The server is not further ahead than what the client wants to catch up with at all. */
  predicate InSight(log: seq<Update>, pts: int, total: Option<nat>) {
    total.Some? ==> ServerPts(log) <= pts + total.value
  }

  lemma NoWideStepSplit(us: seq<Update>, pts: int, limit: Option<nat>, n: nat)
    requires Sorted(us) && 0 < n <= |us|
    requires limit.Some? ==> us[n - 1].pts <= pts + limit.value && us[0].pts > pts
    ensures NoWideStep(us, pts, limit) <==> NoWideStep(us[n..], us[n - 1].pts, limit)
  {
    if limit.Some? {
      forall i: nat | i < n ensures Step(us, pts, i) <= limit.value {
        assert i < n - 1 ==> us[i].pts < us[n - 1].pts;
        assert i > 1 ==> us[0].pts < us[i - 1].pts;
      }
      var rest, from := us[n..], us[n - 1].pts;
      if NoWideStep(us, pts, limit) {
        forall i: nat | i < |rest| ensures Step(rest, from, i) <= limit.value {
          assert Step(rest, from, i) == Step(us, pts, n + i);
        }
      }
      if NoWideStep(rest, from, limit) {
        forall i: nat | i < |us| ensures Step(us, pts, i) <= limit.value {
          assert i >= n ==> Step(rest, from, i - n) == Step(us, pts, i);
        }
      }
    }
  }

  /** With nothing in reach the client is told it is up to date. */
  lemma NothingInReach(log: seq<Update>, pts: int, limit: Option<nat>)
    requires Sorted(log) && Within(After(log, pts), Top(log, pts, limit), SLICE) == 0
    ensures After(log, pts) == [] <==> NoWideStep(After(log, pts), pts, limit)
  {
    var us := After(log, pts);
    AfterIsSuffix(log, pts);
    if us != [] {
      assert us[0].pts <= us[|us| - 1].pts;
      assert Step(us, pts, 0) > limit.value;
    }
  }

  /** An answer that is not a slice comes with the end of the log. */
  lemma EndInReach(log: seq<Update>, pts: int, limit: Option<nat>)
    requires Sorted(log) && Batch(log, pts, limit) != []
    ensures var us, batch := After(log, pts), Batch(log, pts, limit);
      && (batch[|batch| - 1].pts >= ServerPts(log) ==> batch == us)
      && pts < us[0].pts && batch[|batch| - 1].pts <= Top(log, pts, limit)
  {
    var us, n := After(log, pts), |Batch(log, pts, limit)|;
    AfterIsSuffix(log, pts);
    assert us[0] in us;
    if n < |us| {
      assert us[n - 1].pts < us[|us| - 1].pts;
    }
  }

  lemma BatchGoesOn(log: seq<Update>, pts: int, limit: Option<nat>)
    requires Sorted(log) && Batch(log, pts, limit) != []
    ensures Batch(log, pts, limit)[|Batch(log, pts, limit)| - 1].pts > pts
  {
    var us := After(log, pts);
    AfterHas(log, pts, us[|Batch(log, pts, limit)| - 1]);
  }

  /** One answer with something in it. */
  lemma RecoverStep(log: seq<Update>, pts: int, total: Option<nat>, limit: Option<nat>, secrets: int -> bool,
                    who: Asker)
    requires Sorted(log) && Batch(log, pts, limit) != [] && InSight(log, pts, total)
    ensures
      var r, batch := Answer(log, pts, total, limit, secrets(pts), who), Batch(log, pts, limit);
      var seen := Covered(Recover(log, pts, total, limit, secrets, who));
      && (r.Slice? ==>
            && r.pts == batch[|batch| - 1].pts > pts && After(log, r.pts) == After(log, pts)[|batch|..]
            && seen == batch + Covered(Recover(log, r.pts, total, limit, secrets, who)))
      && (!r.Slice? ==> seen == batch == After(log, pts))
  {
    var r, batch := Answer(log, pts, total, limit, secrets(pts), who), Batch(log, pts, limit);
    AfterBatch(log, pts, |batch|);
    EndInReach(log, pts, limit);
    BatchGoesOn(log, pts, limit);
    if r.Slice? {
      CoveredCons(r, Recover(log, r.pts, total, limit, secrets, who));
    } else {
      CoveredCons(r, []);
      assert [r] + [] == [r] && batch + [] == batch;
    }
  }

  /** One answer with nothing in it. */
  lemma RecoverNothing(log: seq<Update>, pts: int, total: Option<nat>, limit: Option<nat>, secrets: int -> bool,
                       who: Asker)
    requires Sorted(log) && (Batch(log, pts, limit) == [] || !InSight(log, pts, total))
    ensures Covered(Recover(log, pts, total, limit, secrets, who)) == []
  {
    var r := Answer(log, pts, total, limit, secrets(pts), who);
    assert Recover(log, pts, total, limit, secrets, who) == [r];
    assert [r][1..] == [];
  }

  /** Recovery ends having read every update above the starting pts exactly once, in order, if and only if there was
      none, or the server was not further ahead than the client's total limit, if it set one, and none of the steps
      between those updates exceeds its limit for one answer, if it set one. */
  lemma {:induction false} RecoveryIsComplete(
    log: seq<Update>, pts: int, total: Option<nat>, limit: Option<nat>, secrets: int -> bool, who: Asker)
    requires Sorted(log)
    ensures Covered(Recover(log, pts, total, limit, secrets, who)) == After(log, pts)
      <==> After(log, pts) == [] || (InSight(log, pts, total) && NoWideStep(After(log, pts), pts, limit))
    decreases |After(log, pts)|
  {
    if Batch(log, pts, limit) == [] || !InSight(log, pts, total) {
      RecoverNothing(log, pts, total, limit, secrets, who);
      if InSight(log, pts, total) {
        NothingInReach(log, pts, limit);
      }
    } else {
      var us, n := After(log, pts), |Batch(log, pts, limit)|;
      AfterIsSuffix(log, pts);
      EndInReach(log, pts, limit);
      NoWideStepSplit(us, pts, limit, n);
      RecoverStep(log, pts, total, limit, secrets, who);
      SplitAt(us, n);
      var r := Answer(log, pts, total, limit, secrets(pts), who);
      if r.Slice? {
        RecoveryIsComplete(log, r.pts, total, limit, secrets, who);
        SameStart(us[..n], Covered(Recover(log, r.pts, total, limit, secrets, who)), us[n..]);
      }
    }
  }

  /** A client at pts 0 that asks for at most 3 at a time, when the log goes on at pts 5: it is told that it has
      everything. */
  lemma WideStepLosesAll(u: Update, secrets: int -> bool, who: Asker)
    requires u.pts == 5 && !secrets(0)
    ensures Sorted([u]) && After([u], 0) == [u] && !NoWideStep([u], 0, Some(3))
    ensures Recover([u], 0, None, Some(3), secrets, who) == [Empty]
  {
    assert Step([u], 0, 0) == 5;
  }

  lemma SplitAt(us: seq<Update>, n: nat)
    requires n <= |us|
    ensures us == us[..n] + us[n..]
  {
  }

  lemma SameStart(start: seq<Update>, a: seq<Update>, b: seq<Update>)
    ensures start + a == start + b <==> a == b
  {
    if start + a == start + b {
      assert (start + a)[|start|..] == a && (start + b)[|start|..] == b;
    }
  }

  lemma CoveredCons(r: Response, rs: seq<Response>)
    ensures Covered([r] + rs) == Seen(r) + Covered(rs)
  {
    assert ([r] + rs)[1..] == rs;
  }

  // ----- what a covered update looks like to the client

  lemma {:induction false} MessagesAre(us: seq<Update>, u: Update)
    ensures u in Messages(us) <==> u in us && IsMessage(u)
    decreases |us|
  {
    if us != [] {
      MessagesAre(us[..|us| - 1], u);
      assert us == us[..|us| - 1] + [us[|us| - 1]];
    }
  }

  lemma {:induction false} OthersAre(batch: seq<Update>, us: seq<Update>, who: Asker, u: Update)
    ensures u in Others(batch, us, who) <==> u in us && IsOther(batch, u, who)
    decreases |us|
  {
    if us != [] {
      OthersAre(batch, us[..|us| - 1], who, u);
      assert us == us[..|us| - 1] + [us[|us| - 1]];
    }
  }

  /** Every update of a batch is shown, as a message or as an update but not both, unless it edits a message that
      comes new in the same batch, tells of the asker's own login or of one to an old client, or has nothing to show. */
  lemma ShownOnce(
    log: seq<Update>, pts: int, total: Option<nat>, limit: Option<nat>, secrets: bool, who: Asker, u: Update)
    requires var r := Answer(log, pts, total, limit, secrets, who); (r.Slice? || r.Difference?) && u in r.batch
    ensures var r := Answer(log, pts, total, limit, secrets, who);
      && !(u in r.messages && u in r.others)
      && (u in r.messages || u in r.others
          <==> !EditOfNew(r.batch, u) && !OwnAuthorization(u, who)
               && if u.kind.NewMessage? then u.messageId.Some? else u.renders)
  {
    var r := Answer(log, pts, total, limit, secrets, who);
    MessagesAre(r.batch, u);
    OthersAre(r.batch, r.batch, who, u);
  }

  /** An update the client is shown was in the batch. */
  lemma NothingInvented(
    log: seq<Update>, pts: int, total: Option<nat>, limit: Option<nat>, secrets: bool, who: Asker, u: Update)
    requires var r := Answer(log, pts, total, limit, secrets, who);
      (r.Slice? || r.Difference?) && (u in r.messages || u in r.others)
    ensures u in Answer(log, pts, total, limit, secrets, who).batch
  {
    var r := Answer(log, pts, total, limit, secrets, who);
    MessagesAre(r.batch, u);
    OthersAre(r.batch, r.batch, who, u);
  }

  // ----- one answer, told by the log and the request alone

  /** The updates `log[a..b]` are those above `pts`, at most 500 of them and as far as the client asks for. */
  ghost predicate Reads(log: seq<Update>, pts: int, limit: Option<nat>, a: nat, b: nat) {
    && a <= b <= |log| && b - a <= 500
    && (forall i :: 0 <= i < a ==> log[i].pts <= pts) && (forall i :: a <= i < |log| ==> log[i].pts > pts)
    && (limit.Some? ==> forall i :: a <= i < b ==> log[i].pts <= pts + limit.value)
    && (b < |log| && b - a < 500 ==> limit.Some? && log[b].pts > pts + limit.value)
  }

  /** What the client is shown of the updates that were read, both by rising pts. */
  ghost predicate Shows(batch: seq<Update>, messages: seq<Update>, others: seq<Update>, who: Asker) {
    && Sorted(messages) && Sorted(others)
    && (forall u :: u in messages <==> u in batch && u.kind.NewMessage? && u.messageId.Some?)
    && forall u :: u in others <==>
         && u in batch && !u.kind.NewMessage? && u.renders
         && !(u.kind.NewAuthorization? && (u.relatedId == Some(who.authId) || who.layer < 163))
         && !(u.kind.MessageEdit? && exists v :: v in batch && v.kind.NewMessage? && v.messageId == u.messageId)
  }

  lemma {:induction false} AfterFrom(log: seq<Update>, pts: int) returns (a: nat)
    requires Sorted(log)
    ensures a <= |log| && After(log, pts) == log[a..]
    ensures (forall i :: 0 <= i < a ==> log[i].pts <= pts) && (forall i :: a <= i < |log| ==> log[i].pts > pts)
    decreases |log|
  {
    if log == [] || log[0].pts > pts {
      a := 0;
      assert forall i :: 0 < i < |log| ==> log[0].pts < log[i].pts;
    } else {
      var k := AfterFrom(log[1..], pts);
      a := k + 1;
      assert forall i :: 0 < i < |log| ==> log[i] == log[1..][i - 1];
    }
  }

  lemma BatchReads(log: seq<Update>, pts: int, limit: Option<nat>) returns (a: nat, b: nat)
    requires Sorted(log)
    ensures Reads(log, pts, limit, a, b) && Batch(log, pts, limit) == log[a..b]
  {
    a := AfterFrom(log, pts);
    b := a + |Batch(log, pts, limit)|;
    CutReads(log, After(log, pts), a, b, Top(log, pts, limit));
    assert limit.None? ==> forall i :: 0 <= i < |log| ==> log[i].pts <= Top(log, pts, limit);
  }

  lemma CutReads(log: seq<Update>, us: seq<Update>, a: nat, b: nat, top: int)
    requires a <= |log| && us == log[a..] && b == a + Within(us, top, SLICE)
    ensures b <= |log| && b - a <= SLICE && us[..b - a] == log[a..b]
    ensures forall i :: a <= i < b ==> log[i].pts <= top
    ensures b < |log| && b - a < SLICE ==> log[b].pts > top
  {
    forall i | a <= i < b ensures log[i].pts <= top {
      assert us[i - a] == log[i];
    }
  }

  lemma {:induction false} MessagesRise(us: seq<Update>)
    requires Sorted(us)
    ensures Sorted(Messages(us))
    decreases |us|
  {
    if us != [] {
      var n := |us| - 1;
      MessagesRise(us[..n]);
      forall i | 0 <= i < |Messages(us[..n])| ensures Messages(us[..n])[i].pts < us[n].pts {
        MessagesAre(us[..n], Messages(us[..n])[i]);
      }
    }
  }

  lemma {:induction false} OthersRise(batch: seq<Update>, us: seq<Update>, who: Asker)
    requires Sorted(us)
    ensures Sorted(Others(batch, us, who))
    decreases |us|
  {
    if us != [] {
      var n := |us| - 1;
      OthersRise(batch, us[..n], who);
      forall i | 0 <= i < |Others(batch, us[..n], who)| ensures Others(batch, us[..n], who)[i].pts < us[n].pts {
        OthersAre(batch, us[..n], who, Others(batch, us[..n], who)[i]);
      }
    }
  }

  lemma BatchShows(batch: seq<Update>, who: Asker)
    requires Sorted(batch)
    ensures Shows(batch, Messages(batch), Others(batch, batch, who), who)
  {
    MessagesRise(batch);
    OthersRise(batch, batch, who);
    forall u ensures u in Messages(batch) <==> u in batch && u.kind.NewMessage? && u.messageId.Some? {
      MessagesAre(batch, u);
    }
    forall u ensures u in Others(batch, batch, who) <==> u in batch && IsOther(batch, u, who) {
      OthersAre(batch, batch, who, u);
    }
  }

  lemma AnswerIs(log: seq<Update>, pts: int, total: Option<nat>, limit: Option<nat>, secrets: bool, who: Asker,
                 batch: seq<Update>)
    requires batch == Batch(log, pts, limit) && !(total.Some? && ServerPts(log) > pts + total.value)
    ensures var r := Answer(log, pts, total, limit, secrets, who);
      if batch == [] && !secrets then r == Empty
      else if batch != [] && batch[|batch| - 1].pts < ServerPts(log) then
        r == Slice(batch, Messages(batch), Others(batch, batch, who), batch[|batch| - 1].pts)
      else r == Difference(batch, Messages(batch), Others(batch, batch, who))
  {
  }

  lemma EndsBefore(log: seq<Update>, a: nat, b: nat)
    requires Sorted(log) && a <= b <= |log|
    ensures a < b ==> log[a..b][b - a - 1] == log[b - 1] && (log[b - 1].pts < ServerPts(log) <==> b < |log|)
  {
  }

  lemma AnswerAt(log: seq<Update>, pts: int, total: Option<nat>, limit: Option<nat>, secrets: bool, who: Asker,
                 a: nat, b: nat)
    requires Sorted(log) && a <= b <= |log| && Batch(log, pts, limit) == log[a..b]
    requires !(total.Some? && ServerPts(log) > pts + total.value)
    ensures var r, batch := Answer(log, pts, total, limit, secrets, who), log[a..b];
      if a == b && !secrets then r == Empty
      else if a < b < |log| then r == Slice(batch, Messages(batch), Others(batch, batch, who), log[b - 1].pts)
      else r == Difference(batch, Messages(batch), Others(batch, batch, who))
  {
    AnswerIs(log, pts, total, limit, secrets, who, log[a..b]);
    EndsBefore(log, a, b);
  }

  /** One answer: too long if and only if the log ends further ahead than the client wants to catch up with; empty if
      and only if nothing was read and no secret-chat update waits; and otherwise what was read, as a slice that ends
      at the last update read if and only if something was read and the log goes on. */
  lemma AnswerExactly(log: seq<Update>, pts: int, total: Option<nat>, limit: Option<nat>, secrets: bool, who: Asker)
    returns (a: nat, b: nat)
    requires Sorted(log)
    ensures Reads(log, pts, limit, a, b)
    ensures
      var r, end := Answer(log, pts, total, limit, secrets, who), if log == [] then 0 else log[|log| - 1].pts;
      if total.Some? && end > pts + total.value then r == TooLong(end)
      else if a == b && !secrets then r == Empty
      else if a < b < |log| then
        r.Slice? && r.batch == log[a..b] && r.pts == log[b - 1].pts && Shows(r.batch, r.messages, r.others, who)
      else r.Difference? && r.batch == log[a..b] && Shows(r.batch, r.messages, r.others, who)
  {
    a, b := BatchReads(log, pts, limit);
    if !(total.Some? && ServerPts(log) > pts + total.value) {
      AnswerAt(log, pts, total, limit, secrets, who, a, b);
      BatchShows(log[a..b], who);
    }
  }
}
