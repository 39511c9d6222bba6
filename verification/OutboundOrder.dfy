/** Message ids, sequence numbers and the order of writes over whole runs of a session. */
module OutboundOrder {
  import opened Containers
  import opened Outbound

  // ----- runs with a clock that does not go back and no second too busy

  predicate CalmStep(s: State, e: Event) {
    Timed(e) ==> e.now >= s.lastTime && NextOffset(s, e.now) <= LAST_OFFSET
  }

  ghost predicate Calm(es: seq<Event>) {
    forall k :: 0 <= k < |es| ==> CalmStep(RunState(es[..k]), es[k])
  }

  /** All ids given out so far are at most this. */
  function Bound(s: State): int {
    s.lastTime * 0x1_0000_0000 + s.offset + 3
  }

  lemma NewIdIsAbove(s: State, now: int, inReply: bool)
    requires s.offset <= LAST_OFFSET && now >= s.lastTime
    ensures Bound(s) < IdFor(s, now, inReply) <= Bound(TakeId(s, now))
  {
    if now > s.lastTime {
      assert now * 0x1_0000_0000 >= (s.lastTime + 1) * 0x1_0000_0000;
    }
  }

  /** An id tells its second and, by its last two bits, whether it answers a client message. */
  lemma IdTells(s: State, now: int, inReply: bool)
    requires NextOffset(s, now) <= LAST_OFFSET && NextOffset(s, now) % 4 == 0
    ensures Telling(Ticket(IdFor(s, now, inReply), now, inReply))
  {
    var low := NextOffset(s, now) + if inReply then 1 else 3;
    assert IdFor(s, now, inReply) == now * 0x1_0000_0000 + low;
    Halves(now, low);
    AddedBits(NextOffset(s, now));
  }

  lemma AddedBits(offset: nat)
    requires offset % 4 == 0
    ensures (offset + 1) % 4 == 1 && (offset + 3) % 4 == 3
  {
  }

  lemma Halves(high: int, low: nat)
    requires low < 0x1_0000_0000
    ensures (high * 0x1_0000_0000 + low) / 0x1_0000_0000 == high && (high * 0x1_0000_0000 + low) % 4 == low % 4
  {
    LowBits(high, low);
  }

  lemma LowBits(high: int, low: nat)
    ensures (high * 0x1_0000_0000 + low) % 4 == low % 4
  {
    var q := high * 0x4000_0000;
    assert high * 0x1_0000_0000 + low == 4 * q + low;
  }

  // ----- the id and sequence number of every message of a run

  /** How many of the first `n` messages are content-related. */
  function Related(kinds: seq<bool>, n: nat): nat
    requires n <= |kinds|
  {
    if n == 0 then 0 else Related(kinds, n - 1) + if kinds[n - 1] then 1 else 0
  }

  lemma {:induction false} RelatedPrefix(kinds: seq<bool>, more: bool, n: nat)
    requires n <= |kinds|
    ensures Related(kinds + [more], n) == Related(kinds, n)
  {
    if n > 0 {
      RelatedPrefix(kinds, more, n - 1);
    }
  }

  ghost predicate Numbered(queued: seq<Msg>, kinds: seq<bool>, next: nat) {
    && |queued| == |kinds| && next == Related(kinds, |kinds|)
    && forall i :: 0 <= i < |kinds| ==> NumberAt(queued, kinds, i)
  }

  ghost predicate NumberAt(queued: seq<Msg>, kinds: seq<bool>, i: nat)
    requires i < |kinds| == |queued|
  {
    queued[i].seqNo == 2 * Related(kinds, i) + if kinds[i] then 1 else 0
  }

  lemma NumberOne(queued: seq<Msg>, kinds: seq<bool>, next: nat, m: Msg, related: bool)
    requires Numbered(queued, kinds, next) && m.seqNo == next * 2 + if related then 1 else 0
    ensures Numbered(queued + [m], kinds + [related], next + if related then 1 else 0)
  {
    var kinds' := kinds + [related];
    RelatedPrefix(kinds, related, |kinds|);
    forall i: nat | i < |kinds'| ensures NumberAt(queued + [m], kinds', i) {
      RelatedPrefix(kinds, related, i);
      assert i < |kinds| ==> NumberAt(queued, kinds, i);
    }
  }

  /** The sequence number of a queued message is twice the number of content-related messages queued before it, plus
      one if it is content-related itself. */
  lemma {:induction false} SequenceNumbers(es: seq<Event>)
    ensures Numbered(RunJournal(es).queued, RunJournal(es).kinds, RunState(es).outSeqNo)
  {
    if es != [] {
      var n := |es| - 1;
      SequenceNumbers(es[..n]);
      StepNumbers(RunState(es[..n]), RunJournal(es[..n]), es[n]);
    }
  }

  lemma StepNumbers(s: State, j: Journal, e: Event)
    requires Numbered(j.queued, j.kinds, s.outSeqNo)
    ensures Numbered(Note(s, j, e).queued, Note(s, j, e).kinds, Next(s, e).outSeqNo)
  {
    if e.Enqueue? {
      NumberOne(j.queued, j.kinds, s.outSeqNo, Queued(s, e), e.related);
    }
  }

  ghost predicate IdsRight(s: State, issued: seq<Ticket>) {
    s.offset % 4 == 0 && s.offset <= LAST_OFFSET && Apart(issued, Bound(s))
  }

  ghost predicate Apart(issued: seq<Ticket>, bound: int) {
    && (forall i :: 0 <= i < |issued| ==> issued[i].id <= bound)
    && (forall i, j :: 0 <= i < j < |issued| ==> issued[i].id < issued[j].id)
    && (forall i :: 0 <= i < |issued| ==> Telling(issued[i]))
  }

  predicate Telling(t: Ticket) {
    t.id % 4 == (if t.inReply then 1 else 3) && t.id / 0x1_0000_0000 == t.now
  }

  lemma IssueOne(issued: seq<Ticket>, bound: int, ticket: Ticket, bound': int)
    requires Apart(issued, bound) && bound < ticket.id <= bound' && Telling(ticket)
    ensures Apart(issued + [ticket], bound')
  {
  }

  lemma NextOffsetBits(s: State, now: int)
    requires s.offset % 4 == 0
    ensures NextOffset(s, now) % 4 == 0
  {
  }

  lemma StepIds(s: State, j: Journal, e: Event)
    requires IdsRight(s, j.issued) && CalmStep(s, e)
    ensures IdsRight(Next(s, e), Note(s, j, e).issued)
  {
    if Timed(e) {
      NextOffsetBits(s, e.now);
      IssueNew(s, j.issued, e.now, e.inReply);
      assert Note(s, j, e).issued == j.issued + [Ticket(IdFor(s, e.now, e.inReply), e.now, e.inReply)];
    }
  }

  lemma IssueNew(s: State, issued: seq<Ticket>, now: int, inReply: bool)
    requires s.offset <= LAST_OFFSET && now >= s.lastTime && Apart(issued, Bound(s))
    requires NextOffset(s, now) <= LAST_OFFSET && NextOffset(s, now) % 4 == 0
    ensures Apart(issued + [Ticket(IdFor(s, now, inReply), now, inReply)], Bound(TakeId(s, now)))
  {
    NewIdIsAbove(s, now, inReply);
    IdTells(s, now, inReply);
    IssueOne(issued, Bound(s), Ticket(IdFor(s, now, inReply), now, inReply), Bound(TakeId(s, now)));
  }

  lemma CalmPrefix(es: seq<Event>)
    requires es != [] && Calm(es)
    ensures Calm(es[..|es| - 1]) && CalmStep(RunState(es[..|es| - 1]), es[|es| - 1])
  {
    var n := |es| - 1;
    forall k | 0 <= k < n ensures CalmStep(RunState(es[..n][..k]), es[..n][k]) {
      assert es[..n][..k] == es[..k];
    }
  }

  /** Over a calm run ids strictly increase, are 1 modulo 4 for a reply and else 3, and give back their second. */
  lemma {:induction false} MessageIds(es: seq<Event>)
    requires Calm(es)
    ensures IdsRight(RunState(es), RunJournal(es).issued)
  {
    if es != [] {
      CalmPrefix(es);
      MessageIds(es[..|es| - 1]);
      StepIds(RunState(es[..|es| - 1]), RunJournal(es[..|es| - 1]), es[|es| - 1]);
    }
  }

  // ----- the order of the store, the queue and the writes

  ghost predicate Asc(ms: seq<Msg>) {
    forall i, j :: 0 <= i < j < |ms| ==> ms[i].id < ms[j].id
  }

  ghost predicate Before(a: seq<Msg>, b: seq<Msg>) {
    forall i, j :: 0 <= i < |a| && 0 <= j < |b| ==> a[i].id < b[j].id
  }

  ghost predicate UpTo(ms: seq<Msg>, bound: int) {
    forall i :: 0 <= i < |ms| ==> ms[i].id <= bound
  }

  /** What is still to be written for the first time. */
  function Rest(s: State): seq<Msg> {
    if s.writer.Writing? then [s.writer.msg] + s.queue else s.queue
  }

  ghost predicate Ordered(s: State) {
    && Asc(s.pending) && Asc(Rest(s)) && Before(s.pending, Rest(s))
    && UpTo(s.pending, Bound(s)) && UpTo(Rest(s), Bound(s)) && s.offset <= LAST_OFFSET
    && (s.writer.Resending? ==> s.writer.todo != [] && Asc(s.writer.todo) && Before(s.writer.todo, Rest(s))
                                && UpTo(s.writer.todo, Bound(s)))
  }

  /** The ids of a call rise, and the write in progress is its last. */
  ghost predicate CallRises(s: State, call: seq<Msg>) {
    && Asc(call)
    && (Started(s.writer) != [] ==> call != [] && call[|call| - 1] == Started(s.writer)[0])
  }

  lemma AscWithout(ms: seq<Msg>, k: nat)
    requires Asc(ms) && k < |ms|
    ensures Asc(Without(ms, k))
  {
  }

  lemma BeforeWithout(ms: seq<Msg>, k: nat, rest: seq<Msg>)
    requires Before(ms, rest) && k < |ms|
    ensures Before(Without(ms, k), rest)
  {
  }

  lemma RemoveOrder(ms: seq<Msg>, id: int, rest: seq<Msg>, bound: int)
    requires Asc(ms) && Before(ms, rest) && UpTo(ms, bound)
    ensures var r := Remove(ms, id); Asc(r) && Before(r, rest) && UpTo(r, bound)
  {
    var k := Find(ms, id);
    if k < |ms| {
      AscWithout(ms, k);
      BeforeWithout(ms, k, rest);
    }
  }

  lemma {:induction false} RemoveAllOrder(ms: seq<Msg>, ids: seq<int>, rest: seq<Msg>, bound: int)
    requires Asc(ms) && Before(ms, rest) && UpTo(ms, bound)
    ensures var r := RemoveAll(ms, ids); Asc(r) && Before(r, rest) && UpTo(r, bound)
  {
    if ids != [] {
      RemoveAllOrder(ms, ids[..|ids| - 1], rest, bound);
      RemoveOrder(RemoveAll(ms, ids[..|ids| - 1]), ids[|ids| - 1], rest, bound);
    }
  }

  /** A written message goes to the end of the store. */
  lemma TrackAppends(ms: seq<Msg>, m: Msg)
    requires UpTo(ms, m.id - 1)
    ensures Track(ms, m) == ms + [m] && Displaced(ms, m) == multiset{}
  {
  }

  /** A message above all others goes behind them. */
  lemma AppendKeeps(front: seq<Msg>, rest: seq<Msg>, m: Msg, bound: int, bound': int)
    requires Asc(rest) && Before(front, rest) && UpTo(front, bound) && UpTo(rest, bound) && bound < m.id <= bound'
    ensures Asc(rest + [m]) && Before(front, rest + [m]) && UpTo(front, bound') && UpTo(rest + [m], bound')
  {
  }

  lemma EnqueueOrder(s: State, e: Event)
    requires Ordered(s) && e.Enqueue? && CalmStep(s, e)
    ensures Ordered(Next(s, e))
  {
    NewIdIsAbove(s, e.now, e.inReply);
    assert Rest(Next(s, e)) == Rest(s) + [NewMsg(s, e)];
    AppendKeeps(s.pending, Rest(s), NewMsg(s, e), Bound(s), Bound(Next(s, e)));
    if s.writer.Resending? {
      AppendKeeps(s.writer.todo, Rest(s), NewMsg(s, e), Bound(s), Bound(Next(s, e)));
    }
  }

  lemma UnencryptedOrder(s: State, e: Event)
    requires Ordered(s) && e.EnqueueUnencrypted? && CalmStep(s, e)
    ensures Ordered(Next(s, e))
  {
    NewIdIsAbove(s, e.now, e.inReply);
    assert Rest(Next(s, e)) == Rest(s);
  }

  lemma TakeNextOrder(s: State, call: seq<Msg>)
    requires Asc(s.pending) && Asc(s.queue) && Before(s.pending, s.queue)
    requires UpTo(s.pending, Bound(s)) && UpTo(s.queue, Bound(s)) && s.offset <= LAST_OFFSET
    requires Asc(call) && (s.queue != [] && call != [] ==> call[|call| - 1].id < s.queue[0].id)
    ensures Ordered(TakeNext(s)) && CallRises(TakeNext(s), call + Started(TakeNext(s).writer))
  {
    assert Rest(TakeNext(s)) == s.queue;
  }

  lemma WrittenOrder(s: State, call: seq<Msg>)
    requires Ordered(s) && CallRises(s, call) && s.writer.Writing?
    ensures Ordered(AfterWrite(s)) && CallRises(AfterWrite(s), call + Started(AfterWrite(s).writer))
    ensures Displaced(s.pending, s.writer.msg) == multiset{}
  {
    RestIsBehind(s);
    TrackAppends(s.pending, s.writer.msg);
    TakeNextOrder(s.(pending := s.pending + [s.writer.msg]), call);
  }

  /** The message being written fits between the store and the queue. */
  lemma RestIsBehind(s: State)
    requires Ordered(s) && s.writer.Writing?
    ensures var m := s.writer.msg;
      && Asc(s.queue) && UpTo(s.queue, Bound(s)) && (s.queue != [] ==> m.id < s.queue[0].id)
      && UpTo(s.pending, m.id - 1)
      && Asc(s.pending + [m]) && UpTo(s.pending + [m], Bound(s)) && Before(s.pending + [m], s.queue)
  {
    var rest := Rest(s);
    assert rest[0] == s.writer.msg;
    forall i | 0 <= i < |s.queue| ensures rest[i + 1] == s.queue[i] && rest[0].id < rest[i + 1].id {
    }
  }

  lemma ResentOrder(s: State, call: seq<Msg>)
    requires Ordered(s) && CallRises(s, call) && s.writer.Resending?
    ensures Ordered(AfterWrite(s)) && CallRises(AfterWrite(s), call + Started(AfterWrite(s).writer))
  {
    var todo := s.writer.todo;
    if |todo| == 1 {
      assert AfterWrite(s) == TakeNext(s);
      TakeNextOrder(s, call);
    } else if s.writer.intact {
      assert todo[0].id < todo[1].id;
      assert Rest(AfterWrite(s)) == Rest(s);
    } else {
      assert Rest(AfterWrite(s)) == Rest(s);
    }
  }

  lemma BeginOrder(s: State)
    requires Ordered(s) && s.writer.Ready?
    ensures Ordered(Next(s, Begin)) && CallRises(Next(s, Begin), Started(Next(s, Begin).writer))
  {
    if !(s.resend && s.pending != []) {
      TakeNextOrder(s, []);
      assert [] + Started(TakeNext(s).writer) == Started(TakeNext(s).writer);
    }
  }

  lemma AckOrder(s: State, ids: seq<int>, call: seq<Msg>)
    requires Ordered(s) && CallRises(s, call)
    ensures Ordered(Next(s, Ack(ids))) && CallRises(Next(s, Ack(ids)), call)
  {
    RemoveAllOrder(s.pending, ids, Rest(s), Bound(s));
    assert Rest(Next(s, Ack(ids))) == Rest(s);
  }

  lemma BeforeFront(front: seq<Msg>, m: Msg, rest: seq<Msg>)
    requires Before(front + [m], rest)
    ensures Before(front, rest)
  {
    forall i | 0 <= i < |front| ensures front[i] == (front + [m])[i] {
    }
  }

  lemma FailOrder(s: State, e: Event, call: seq<Msg>)
    requires Ordered(s) && CallRises(s, call) && e.WriteFails?
    ensures Ordered(Next(s, e)) && CallRises(Next(s, e), call)
  {
    if s.writer.Writing? {
      RestIsBehind(s);
      BeforeFront(s.pending, s.writer.msg, s.queue);
      assert Rest(Next(s, e)) == s.queue;
    } else {
      assert Rest(Next(s, e)) == Rest(s);
    }
  }

  lemma FinalizeOrder(s: State, call: seq<Msg>)
    requires Ordered(s) && CallRises(s, call)
    ensures Ordered(Next(s, Finalize)) && CallRises(Next(s, Finalize), call)
  {
    var t := Next(s, Finalize);
    assert |Rest(t)| <= |Rest(s)| && forall i :: 0 <= i < |Rest(t)| ==> Rest(t)[i] == Rest(s)[i];
  }

  lemma QuietOrder(s: State, e: Event, call: seq<Msg>)
    requires Ordered(s) && CallRises(s, call)
    requires e.Acquire? || e.Connect? || e.Disconnect?
    ensures Ordered(Next(s, e)) && CallRises(Next(s, e), call)
  {
    assert Rest(Next(s, e)) == Rest(s);
  }

  lemma StepOrder(s: State, j: Journal, e: Event)
    requires Ordered(s) && CallRises(s, j.call) && CalmStep(s, e)
    ensures Ordered(Next(s, e)) && CallRises(Next(s, e), Note(s, j, e).call)
  {
    match e
    case Enqueue(_, _, _, _) => EnqueueOrder(s, e);
    case EnqueueUnencrypted(now, inReply) => UnencryptedOrder(s, e);
    case Begin =>
      if s.writer.Ready? {
        BeginOrder(s);
      }
    case WriteOk =>
      if s.writer.Writing? {
        WrittenOrder(s, j.call);
      } else if s.writer.Resending? {
        ResentOrder(s, j.call);
      }
    case Ack(ids) => AckOrder(s, ids, j.call);
    case WriteFails(_) => FailOrder(s, e, j.call);
    case Finalize => FinalizeOrder(s, j.call);
    case _ => QuietOrder(s, e, j.call);
  }

  /** In every calm run the store comes before the queue, both by rising id, and every call writes rising ids
      whatever is acknowledged or enqueued meanwhile. */
  lemma {:induction false} WritesRise(es: seq<Event>)
    requires Calm(es)
    ensures Ordered(RunState(es)) && CallRises(RunState(es), RunJournal(es).call)
  {
    if es != [] {
      CalmPrefix(es);
      WritesRise(es[..|es| - 1]);
      StepOrder(RunState(es[..|es| - 1]), RunJournal(es[..|es| - 1]), es[|es| - 1]);
    }
  }

  /** In a calm run no message pushes another out of the store. */
  lemma {:induction false} NothingIsDisplaced(es: seq<Event>)
    requires Calm(es)
    ensures RunBooks(es).displaced == multiset{}
  {
    if es != [] {
      CalmPrefix(es);
      NothingIsDisplaced(es[..|es| - 1]);
      WritesRise(es[..|es| - 1]);
      var s := RunState(es[..|es| - 1]);
      if s.writer.Writing? {
        assert Rest(s)[0] == s.writer.msg;
        TrackAppends(s.pending, s.writer.msg);
      }
    }
  }

  // ----- a connection that holds writes everything that is left

  function Steps(s: State, es: seq<Event>): State
    decreases |es|
  {
    if es == [] then s else Steps(Next(s, es[0]), es[1..])
  }

  function Oks(n: nat): seq<Event> {
    seq(n, _ => WriteOk)
  }

  /** The messages whose writing these steps begin, in their order. */
  function Written(s: State, es: seq<Event>): seq<Msg>
    decreases |es|
  {
    if es == [] then [] else Begun(s, es[0]) + Written(Next(s, es[0]), es[1..])
  }

  lemma StepsCons(s: State, e: Event, es: seq<Event>)
    ensures Steps(s, [e] + es) == Steps(Next(s, e), es)
    ensures Written(s, [e] + es) == Begun(s, e) + Written(Next(s, e), es)
  {
    assert ([e] + es)[1..] == es;
  }

  /** What `n` successful writes make of a state, and the messages whose writing they begin. */
  function Goes(s: State, n: nat): (State, seq<Msg>)
    decreases n
  {
    if n == 0 then (s, [])
    else
      var rest := Goes(Next(s, WriteOk), n - 1);
      (rest.0, Begun(s, WriteOk) + rest.1)
  }

  lemma {:induction false} GoesIsSteps(s: State, n: nat)
    ensures Goes(s, n) == (Steps(s, Oks(n)), Written(s, Oks(n)))
    decreases n
  {
    if n == 0 {
      assert Oks(0) == [];
    } else {
      GoesIsSteps(Next(s, WriteOk), n - 1);
      StepsCons(s, WriteOk, Oks(n - 1));
      assert Oks(n) == [WriteOk] + Oks(n - 1);
    }
  }

  lemma DrainOne(s: State) returns (t: State)
    requires Asc(s.queue) && Before(s.pending, s.queue) && s.writer.Idle? && s.queue != []
    ensures t == s.(pending := s.pending + [s.queue[0]], queue := s.queue[1..])
    ensures Asc(t.queue) && Before(t.pending, t.queue) && t.pending + t.queue == s.pending + s.queue
    ensures Next(TakeNext(s), WriteOk) == TakeNext(t) && Begun(TakeNext(s), WriteOk) == Started(TakeNext(t).writer)
    ensures Started(TakeNext(s).writer) == [s.queue[0]]
  {
    t := s.(pending := s.pending + [s.queue[0]], queue := s.queue[1..]);
    TrackAppends(s.pending, s.queue[0]);
  }

  function Done(s: State): State {
    s.(queue := [], pending := s.pending + s.queue, writer := Idle)
  }

  lemma {:induction false} DrainWritesAll(s: State) returns (ms: seq<Msg>)
    requires Asc(s.queue) && Before(s.pending, s.queue) && s.writer.Idle?
    ensures Goes(TakeNext(s), |s.queue|) == (Done(s), ms)
    ensures Started(TakeNext(s).writer) + ms == s.queue
    decreases |s.queue|
  {
    if s.queue == [] {
      ms := [];
      assert s.pending + [] == s.pending;
    } else {
      var t := DrainOne(s);
      var rest := DrainWritesAll(t);
      ms := t.queue;
    }
  }

  lemma {:induction false} ResendWritesAll(s: State, todo: seq<Msg>, n: nat)
    requires todo != [] && s.writer == Resending(todo, true) && n == |todo| + |s.queue|
    requires Asc(s.queue) && Before(s.pending, s.queue)
    ensures Goes(s, n) == (Done(s), todo[1..] + s.queue)
    decreases |todo|
  {
    if |todo| == 1 {
      assert AfterWrite(s) == TakeNext(s) == TakeNext(s.(writer := Idle));
      var ms := DrainWritesAll(s.(writer := Idle));
      assert todo[1..] + s.queue == s.queue;
    } else {
      ResendWritesAll(s.(writer := Resending(todo[1..], true)), todo[1..], n - 1);
      TailFirst(todo[1..], s.queue);
    }
  }

  lemma TailFirst(ms: seq<Msg>, rest: seq<Msg>)
    requires ms != []
    ensures [ms[0]] + (ms[1..] + rest) == ms + rest
  {
  }

  lemma PassWritesAll(s: State, n: nat) returns (ms: seq<Msg>)
    requires s.writer.Ready? && (s.pending != [] ==> s.resend) && Asc(s.queue) && Before(s.pending, s.queue)
    requires n == |s.pending| + |s.queue|
    ensures Goes(Next(s, Begin), n) == (Done(s).(resend := s.resend && s.pending == []), ms)
    ensures Begun(s, Begin) + ms == s.pending + s.queue
  {
    if s.pending == [] {
      assert Next(s, Begin) == TakeNext(s.(writer := Idle));
      ms := DrainWritesAll(s.(writer := Idle));
      assert s.pending + s.queue == s.queue;
    } else {
      var t := s.(resend := false, writer := Resending(s.pending, true));
      assert Next(s, Begin) == t && Begun(s, Begin) == [s.pending[0]];
      ms := s.pending[1..] + s.queue;
      ResendWritesAll(t, s.pending, n);
      TailFirst(s.pending, s.queue);
    }
  }

  /** After a disconnection, connecting again schedules the unacknowledged messages: if the connection holds, one
      pass writes the unacknowledged messages and then the queued ones, each once and in their order, and leaves
      exactly those unacknowledged. */
  lemma ReconnectWritesAll(s: State)
    requires Ordered(s) && s.writer.Idle?
    ensures
      var es := [Connect, Acquire, Begin] + Oks(|s.pending| + |s.queue|);
      var t := Steps(s, es);
      && t.pending == s.pending + s.queue && t.queue == [] && t.writer.Idle? && t.connected
      && Written(s, es) == s.pending + s.queue
  {
    var oks := Oks(|s.pending| + |s.queue|);
    var t1 := Next(s, Connect);
    var t2 := Next(t1, Acquire);
    assert Rest(s) == s.queue;
    var n := |s.pending| + |s.queue|;
    var ms := PassWritesAll(t2, n);
    GoesIsSteps(Next(t2, Begin), n);
    ThreeFirst(s, Connect, Acquire, Begin, oks);
    assert Begun(s, Connect) == Begun(t1, Acquire) == [];
  }

  lemma ThreeFirst(s: State, a: Event, b: Event, c: Event, es: seq<Event>)
    ensures Steps(s, [a, b, c] + es) == Steps(Next(Next(Next(s, a), b), c), es)
    ensures Written(s, [a, b, c] + es) ==
      Begun(s, a) + (Begun(Next(s, a), b) +
        (Begun(Next(Next(s, a), b), c) + Written(Next(Next(Next(s, a), b), c), es)))
  {
    assert [a, b, c] + es == [a] + ([b] + ([c] + es));
    StepsCons(s, a, [b] + ([c] + es));
    StepsCons(Next(s, a), b, [c] + es);
    StepsCons(Next(Next(s, a), b), c, es);
  }

  // ----- when there is a connection, and what a rewriting pass sees of the store

  /** This event ends the connection. */
  predicate Cuts(s: State, e: Event) {
    e.Disconnect? || e.Finalize? || (e.WriteFails? && e.disconnects && !s.writer.Idle?)
  }

  /** Event `k` of the run connects, and nothing ends the connection after it. */
  ghost predicate LastJoins(es: seq<Event>, k: nat)
    requires k < |es|
  {
    es[k].Connect? && forall i :: k < i < |es| ==> Uncut(es, i)
  }

  ghost predicate Uncut(es: seq<Event>, i: nat)
    requires i < |es|
  {
    !Cuts(RunState(es[..i]), es[i])
  }

  lemma JoinsLater(es: seq<Event>, k: nat)
    requires es != [] && k < |es| - 1
    ensures LastJoins(es, k) <==> LastJoins(es[..|es| - 1], k) && Uncut(es, |es| - 1)
  {
    var before := es[..|es| - 1];
    forall i | 0 <= i < |before| ensures Uncut(before, i) <==> Uncut(es, i) {
      assert before[..i] == es[..i];
    }
  }

  lemma StepConnects(s: State, e: Event)
    ensures Next(s, e).connected <==> e.Connect? || (s.connected && !Cuts(s, e))
  {
  }

  lemma SomeJoins(es: seq<Event>)
    requires es != []
    ensures
      var n := |es| - 1;
      (exists k: nat :: k <= n && LastJoins(es, k)) <==>
      es[n].Connect? || ((exists k: nat :: k < n && LastJoins(es[..n], k)) && Uncut(es, n))
  {
    var n := |es| - 1;
    forall k: nat | k < n ensures LastJoins(es, k) <==> LastJoins(es[..n], k) && Uncut(es, n) {
      JoinsLater(es, k);
    }
    assert es[n].Connect? <==> LastJoins(es, n);
  }

  /** The session is connected if and only if it was connected at some point and nothing has ended that since. */
  lemma {:induction false} ConnectedExactly(es: seq<Event>)
    ensures RunState(es).connected <==> exists k: nat :: k < |es| && LastJoins(es, k)
  {
    if es != [] {
      var n := |es| - 1;
      ConnectedExactly(es[..n]);
      StepConnects(RunState(es[..n]), es[n]);
      SomeJoins(es);
    }
  }

  /** Event `k` connects with messages unacknowledged, and nothing after it begins to write them again or finalizes. */
  ghost predicate LastSchedules(es: seq<Event>, k: nat)
    requires k < |es|
  {
    es[k].Connect? && RunState(es[..k]).pending != [] && forall i :: k < i < |es| ==> Unserved(es, i)
  }

  predicate Serves(s: State, e: Event) {
    e.Finalize? || (Next(s, e).writer.Resending? && !s.writer.Resending?)
  }

  ghost predicate Unserved(es: seq<Event>, i: nat)
    requires i < |es|
  {
    !Serves(RunState(es[..i]), es[i])
  }

  lemma SchedulesLater(es: seq<Event>, k: nat)
    requires es != [] && k < |es| - 1
    ensures LastSchedules(es, k) <==> LastSchedules(es[..|es| - 1], k) && Unserved(es, |es| - 1)
  {
    var before := es[..|es| - 1];
    assert before[..k] == es[..k];
    forall i | 0 <= i < |before| ensures Unserved(before, i) <==> Unserved(es, i) {
      assert before[..i] == es[..i];
    }
  }

  lemma StepSchedules(s: State, e: Event)
    ensures Next(s, e).resend <==> (e.Connect? && s.pending != []) || (s.resend && !Serves(s, e))
  {
  }

  lemma SomeSchedules(es: seq<Event>)
    requires es != []
    ensures
      var n := |es| - 1;
      (exists k: nat :: k <= n && LastSchedules(es, k)) <==>
      || (es[n].Connect? && RunState(es[..n]).pending != [])
      || ((exists k: nat :: k < n && LastSchedules(es[..n], k)) && Unserved(es, n))
  {
    var n := |es| - 1;
    forall k: nat | k < n ensures LastSchedules(es, k) <==> LastSchedules(es[..n], k) && Unserved(es, n) {
      SchedulesLater(es, k);
    }
    assert es[n].Connect? && RunState(es[..n]).pending != [] <==> LastSchedules(es, n);
  }

  /** Unacknowledged messages are to be written again if and only if there were some at a connection and no rewriting
      pass has begun since, however many connections or acknowledgements there were. */
  lemma {:induction false} ResendExactly(es: seq<Event>)
    ensures RunState(es).resend <==> exists k: nat :: k < |es| && LastSchedules(es, k)
  {
    if es != [] {
      var n := |es| - 1;
      ResendExactly(es[..n]);
      StepSchedules(RunState(es[..n]), es[n]);
      SomeSchedules(es);
    }
  }

  /** A rewriting pass that is intact still has before it the end of the store as it is now. */
  ghost predicate SeesStore(s: State) {
    s.writer.Resending? && s.writer.intact ==>
      |s.writer.todo| <= |s.pending| && s.writer.todo == s.pending[|s.pending| - |s.writer.todo|..]
  }

  lemma StepSeesStore(s: State, e: Event)
    requires SeesStore(s)
    ensures SeesStore(Next(s, e))
    ensures s.writer.Resending? && Next(s, e).writer.Resending? && Next(s, e).pending == s.pending ==>
      Next(s, e).writer.intact == s.writer.intact
  {
    if e.WriteOk? && s.writer.Resending? && s.writer.intact && |s.writer.todo| > 1 {
      var from := |s.pending| - |s.writer.todo|;
      assert s.writer.todo[1..] == s.pending[from..][1..] == s.pending[from + 1..];
    } else if e.Begin? {
      assert s.pending[0..] == s.pending;
    }
  }

  lemma {:induction false} PassSeesStore(es: seq<Event>)
    ensures SeesStore(RunState(es))
  {
    if es != [] {
      PassSeesStore(es[..|es| - 1]);
      StepSeesStore(RunState(es[..|es| - 1]), es[|es| - 1]);
    }
  }

  /** Nothing has been written and nothing is being written. */
  ghost predicate Silent(s: State, call: seq<Msg>) {
    s.writer.Idle? && s.pending == [] && !s.connected && call == []
  }

  lemma StepSilent(s: State, j: Journal, e: Event)
    requires Silent(s, j.call) && !e.Connect?
    ensures Silent(Next(s, e), Note(s, j, e).call)
  {
    if e.Ack? {
      NothingToRemove(e.ids);
    }
  }

  /** Writing starts only on a connection: until there is one nothing is written, whatever else happens. */
  lemma {:induction false} SilentUntilConnected(es: seq<Event>)
    requires forall k :: 0 <= k < |es| ==> !es[k].Connect?
    ensures Silent(RunState(es), RunJournal(es).call)
  {
    if es != [] {
      SilentUntilConnected(es[..|es| - 1]);
      StepSilent(RunState(es[..|es| - 1]), RunJournal(es[..|es| - 1]), es[|es| - 1]);
    }
  }

  lemma {:induction false} NothingToRemove(ids: seq<int>)
    ensures RemoveAll([], ids) == []
  {
    if ids != [] {
      NothingToRemove(ids[..|ids| - 1]);
    }
  }
}
