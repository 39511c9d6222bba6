/** The outbound side of an MTProto session as a state machine; every await of the original is a step boundary. */
module Outbound {
  import opened Containers

  type Data = seq<bv8>

  datatype Msg = Msg(id: int, seqNo: nat, data: Data)

  /** Where the one holder of the flush lock is: waiting to look at the queues, writing the unacknowledged
      messages again, or writing a message it took from the queue. */
  datatype Writer =
    | Idle
    | Ready
    | Resending(todo: seq<Msg>, intact: bool)
    | Writing(msg: Msg)

  /** `pending` is the ordered dictionary of unacknowledged messages. */
  datatype State = State(
    lastTime: int, offset: nat, outSeqNo: nat,
    queue: seq<Msg>, pending: seq<Msg>, resend: bool, connected: bool, writer: Writer)

  datatype Event =
    | Enqueue(now: int, inReply: bool, related: bool, data: Data)
    | EnqueueUnencrypted(now: int, inReply: bool)
    | Acquire
    | Begin
    | WriteOk
    | WriteFails(disconnects: bool)
    | Ack(ids: seq<int>)
    | Connect
    | Disconnect
    | Finalize

  const INITIAL := State(0, 0, 0, [], [], false, false, Idle)

  predicate Timed(e: Event) {
    e.Enqueue? || e.EnqueueUnencrypted?
  }

  // ----- message ids and sequence numbers

  /** The last id of a second would be reached by the 2^30-th message in it. */
  const LAST_OFFSET: int := 0xFFFF_FFFC

  function NextOffset(s: State, now: int): nat {
    if now == s.lastTime then s.offset + 4 else 0
  }

  /** Ids count in units of 2^-32 seconds. */
  function IdFor(s: State, now: int, inReply: bool): int {
    now * 0x1_0000_0000 + NextOffset(s, now) + if inReply then 1 else 3
  }

  function TakeId(s: State, now: int): State {
    s.(lastTime := now, offset := NextOffset(s, now))
  }

  function SeqNoFor(s: State, related: bool): nat {
    s.outSeqNo * 2 + if related then 1 else 0
  }

  function NewMsg(s: State, e: Event): Msg
    requires e.Enqueue?
  {
    Msg(IdFor(s, e.now, e.inReply), SeqNoFor(s, e.related), e.data)
  }

  // ----- the unacknowledged store

  function Find(ms: seq<Msg>, id: int): (r: nat)
    ensures r <= |ms|
    ensures r < |ms| ==> ms[r].id == id
    ensures forall i :: 0 <= i < r ==> ms[i].id != id
  {
    if ms == [] || ms[0].id == id then 0 else 1 + Find(ms[1..], id)
  }

  /** Assigning a key of an ordered dictionary: a key it has keeps its place. */
  function Track(ms: seq<Msg>, m: Msg): seq<Msg> {
    var k := Find(ms, m.id);
    if k < |ms| then ms[k := m] else ms + [m]
  }

  function Remove(ms: seq<Msg>, id: int): seq<Msg> {
    var k := Find(ms, id);
    if k < |ms| then Without(ms, k) else ms
  }

  function RemoveAll(ms: seq<Msg>, ids: seq<int>): seq<Msg> {
    if ids == [] then ms else Remove(RemoveAll(ms, ids[..|ids| - 1]), ids[|ids| - 1])
  }

  // ----- steps

  /** Takes the next message off the queue, or lets go of the lock. */
  function TakeNext(s: State): State {
    if s.queue == [] then s.(writer := Idle) else s.(writer := Writing(s.queue[0]), queue := s.queue[1..])
  }

  /** Changing the store under a resend pass makes the pass raise at its next step. */
  function Shaken(w: Writer, changed: bool): Writer {
    if w.Resending? && changed then Resending(w.todo, false) else w
  }

  function AfterWrite(s: State): State {
    match s.writer
    case Resending(todo, intact) =>
      if |todo| <= 1 then TakeNext(s)
      else if intact then s.(writer := Resending(todo[1..], true))
      else s.(writer := Idle)
    case Writing(m) => TakeNext(s.(pending := Track(s.pending, m)))
    case _ => s
  }

  function Next(s: State, e: Event): State {
    match e
    case Enqueue(now, _, related, _) =>
      TakeId(s, now).(outSeqNo := s.outSeqNo + (if related then 1 else 0), queue := s.queue + [NewMsg(s, e)])
    case EnqueueUnencrypted(now, _) => TakeId(s, now)
    case Acquire => if s.writer.Idle? && s.connected then s.(writer := Ready) else s
    case Begin =>
      if !s.writer.Ready? then s
      else if s.resend && s.pending != [] then s.(resend := false, writer := Resending(s.pending, true))
      else TakeNext(s)
    case WriteOk => AfterWrite(s)
    case WriteFails(disconnects) =>
      if s.writer.Idle? then s else s.(writer := Idle, connected := s.connected && !disconnects)
    case Ack(ids) =>
      var left := RemoveAll(s.pending, ids);
      s.(pending := left, writer := Shaken(s.writer, left != s.pending))
    case Connect => s.(connected := true, resend := s.resend || s.pending != [])
    case Disconnect => s.(connected := false)
    case Finalize =>
      s.(connected := false, resend := false, queue := [], pending := [], writer := Shaken(s.writer, s.pending != []))
  }

  // ----- what became of every message

  /** `displaced`: overwritten in the store by a message with the same id. */
  datatype Books = Books(
    enqueued: multiset<Msg>, acked: multiset<Msg>, dropped: multiset<Msg>, displaced: multiset<Msg>,
    cleared: multiset<Msg>, failedWrites: nat)

  const BLANK := Books(multiset{}, multiset{}, multiset{}, multiset{}, multiset{}, 0)

  function Log(s: State, b: Books, e: Event): Books {
    match e
    case Enqueue(_, _, _, _) => b.(enqueued := b.enqueued + multiset{Queued(s, e)})
    case WriteOk =>
      if s.writer.Writing? then b.(displaced := b.displaced + Displaced(s.pending, s.writer.msg)) else b
    case WriteFails(_) =>
      if s.writer.Writing? then
        b.(dropped := b.dropped + multiset{s.writer.msg}, failedWrites := b.failedWrites + 1)
      else b
    case Ack(ids) => b.(acked := b.acked + (multiset(s.pending) - multiset(RemoveAll(s.pending, ids))))
    case Finalize => b.(cleared := b.cleared + multiset(s.queue) + multiset(s.pending))
    case _ => b
  }

  function Displaced(ms: seq<Msg>, m: Msg): multiset<Msg> {
    var k := Find(ms, m.id);
    if k < |ms| then multiset{ms[k]} else multiset{}
  }

  /** The message an enqueuing step has put behind the queue. */
  function Queued(s: State, e: Event): Msg
    requires e.Enqueue?
  {
    var queue := Next(s, e).queue;
    queue[|queue| - 1]
  }

  function RunState(es: seq<Event>): State {
    if es == [] then INITIAL else Next(RunState(es[..|es| - 1]), es[|es| - 1])
  }

  function RunBooks(es: seq<Event>): Books {
    if es == [] then BLANK
    else Log(RunState(es[..|es| - 1]), RunBooks(es[..|es| - 1]), es[|es| - 1])
  }

  // ----- what was given out and written, in order

  /** What an id was given out for: the time the clock showed and whether it answers a client message. */
  datatype Ticket = Ticket(id: int, now: int, inReply: bool)

  /** `queued` lists the enqueued messages, `kinds` which of them were content-related, and `call` the messages whose
      writing the current holder of the flush lock began. */
  datatype Journal = Journal(issued: seq<Ticket>, queued: seq<Msg>, kinds: seq<bool>, call: seq<Msg>)

  function Started(w: Writer): seq<Msg> {
    if w.Writing? then [w.msg] else if w.Resending? && w.todo != [] then [w.todo[0]] else []
  }

  /** The message whose writing this step begins. */
  function Begun(s: State, e: Event): seq<Msg> {
    if (e.Begin? && s.writer.Ready?) || (e.WriteOk? && !s.writer.Idle? && !s.writer.Ready?) then
      Started(Next(s, e).writer)
    else
      []
  }

  function Note(s: State, j: Journal, e: Event): Journal {
    match e
    case Enqueue(now, inReply, related, _) =>
      var m := Queued(s, e);
      j.(issued := j.issued + [Ticket(m.id, now, inReply)], queued := j.queued + [m], kinds := j.kinds + [related])
    case EnqueueUnencrypted(now, inReply) => j.(issued := j.issued + [Ticket(IdFor(s, now, inReply), now, inReply)])
    case Begin => if s.writer.Ready? then j.(call := Begun(s, e)) else j
    case WriteOk => j.(call := j.call + Begun(s, e))
    case _ => j
  }

  function RunJournal(es: seq<Event>): Journal {
    if es == [] then Journal([], [], [], [])
    else Note(RunState(es[..|es| - 1]), RunJournal(es[..|es| - 1]), es[|es| - 1])
  }

  // ----- conservation

  predicate InFlight(w: Writer, x: Msg) {
    w.Writing? && w.msg == x
  }

  function Held(queue: seq<Msg>, pending: seq<Msg>, x: Msg): nat {
    multiset(queue)[x] + multiset(pending)[x]
  }

  /** How often `x` is held. */
  function Kept(s: State, x: Msg): nat {
    Held(s.queue, s.pending, x) + if InFlight(s.writer, x) then 1 else 0
  }

  function Gone(b: Books, x: Msg): nat {
    b.acked[x] + b.dropped[x] + b.displaced[x] + b.cleared[x]
  }

  ghost predicate Conserved(s: State, b: Books) {
    && (forall x :: b.enqueued[x] == Kept(s, x) + Gone(b, x))
    && |b.dropped| == b.failedWrites
  }

  lemma JoinCount(a: seq<Msg>, b: seq<Msg>, x: Msg)
    ensures multiset(a + b)[x] == multiset(a)[x] + multiset(b)[x]
  {
  }

  lemma SplitCount(ms: seq<Msg>, k: nat, x: Msg)
    requires k < |ms|
    ensures multiset(ms)[x] == multiset(ms[..k])[x] + (if ms[k] == x then 1 else 0) + multiset(ms[k + 1..])[x]
  {
    assert ms == ms[..k] + ([ms[k]] + ms[k + 1..]);
    JoinCount(ms[..k], [ms[k]] + ms[k + 1..], x);
    JoinCount([ms[k]], ms[k + 1..], x);
  }

  lemma TrackConserves(ms: seq<Msg>, m: Msg, x: Msg)
    ensures multiset(Track(ms, m))[x] + Displaced(ms, m)[x] == multiset(ms)[x] + if m == x then 1 else 0
  {
    var k := Find(ms, m.id);
    if k < |ms| {
      SplitCount(ms, k, x);
      SplitCount(ms[k := m], k, x);
      assert ms[k := m][..k] == ms[..k] && ms[k := m][k + 1..] == ms[k + 1..];
    }
  }

  lemma WithoutCount(ms: seq<Msg>, k: nat, x: Msg)
    requires k < |ms|
    ensures multiset(Without(ms, k))[x] + (if ms[k] == x then 1 else 0) == multiset(ms)[x]
  {
    SplitCount(ms, k, x);
    JoinCount(ms[..k], ms[k + 1..], x);
  }

  lemma RemoveShrinks(ms: seq<Msg>, id: int, x: Msg)
    ensures multiset(Remove(ms, id))[x] <= multiset(ms)[x]
  {
    if Find(ms, id) < |ms| {
      WithoutCount(ms, Find(ms, id), x);
    }
  }

  lemma {:induction false} RemoveAllShrinks(ms: seq<Msg>, ids: seq<int>, x: Msg)
    ensures multiset(RemoveAll(ms, ids))[x] <= multiset(ms)[x]
  {
    if ids != [] {
      RemoveAllShrinks(ms, ids[..|ids| - 1], x);
      RemoveShrinks(RemoveAll(ms, ids[..|ids| - 1]), ids[|ids| - 1], x);
    }
  }

  /** The messages one step brings in and the ones it takes out. */
  function Came(s: State, e: Event): multiset<Msg> {
    if e.Enqueue? then multiset{Queued(s, e)} else multiset{}
  }

  function Left(s: State, e: Event): multiset<Msg> {
    match e
    case WriteOk => if s.writer.Writing? then Displaced(s.pending, s.writer.msg) else multiset{}
    case WriteFails(_) => if s.writer.Writing? then multiset{s.writer.msg} else multiset{}
    case Ack(ids) => multiset(s.pending) - multiset(RemoveAll(s.pending, ids))
    case Finalize => multiset(s.queue) + multiset(s.pending)
    case _ => multiset{}
  }

  lemma TakeNextKeeps(s: State, x: Msg)
    ensures Kept(TakeNext(s), x) == Held(s.queue, s.pending, x)
  {
    if s.queue != [] {
      SplitCount(s.queue, 0, x);
      assert s.queue[..0] == [];
    }
  }

  lemma AfterWriteKeeps(s: State, x: Msg)
    ensures Kept(AfterWrite(s), x) + Left(s, WriteOk)[x] == Kept(s, x)
  {
    if s.writer.Writing? {
      TrackConserves(s.pending, s.writer.msg, x);
      TakeNextKeeps(s.(pending := Track(s.pending, s.writer.msg)), x);
    } else if s.writer.Resending? {
      TakeNextKeeps(s, x);
    }
  }

  lemma EnqueueKeeps(s: State, e: Event, x: Msg)
    requires e.Enqueue?
    ensures Kept(Next(s, e), x) == Kept(s, x) + multiset{Queued(s, e)}[x]
  {
    var m := NewMsg(s, e);
    assert multiset(s.queue + [m]) == multiset(s.queue) + multiset{m};
  }

  lemma FinalizeKeeps(s: State, x: Msg)
    ensures Kept(Next(s, Finalize), x) + Left(s, Finalize)[x] == Kept(s, x)
  {
    var none: seq<Msg> := [];
    assert multiset(none)[x] == 0;
  }

  lemma AckKeeps(s: State, ids: seq<int>, x: Msg)
    ensures Kept(Next(s, Ack(ids)), x) + Left(s, Ack(ids))[x] == Kept(s, x)
  {
    RemoveAllShrinks(s.pending, ids, x);
  }

  lemma StepKeeps(s: State, e: Event, x: Msg)
    ensures Kept(Next(s, e), x) + Left(s, e)[x] == Kept(s, x) + Came(s, e)[x]
  {
    match e
    case Enqueue(_, _, _, _) => EnqueueKeeps(s, e, x);
    case Begin =>
      if s.writer.Ready? {
        TakeNextKeeps(s, x);
      }
    case WriteOk => AfterWriteKeeps(s, x);
    case Ack(ids) => AckKeeps(s, ids, x);
    case Finalize => FinalizeKeeps(s, x);
    case _ =>
  }

  lemma StepLogs(s: State, b: Books, e: Event, x: Msg)
    ensures Gone(Log(s, b, e), x) == Gone(b, x) + Left(s, e)[x]
    ensures Log(s, b, e).enqueued[x] == b.enqueued[x] + Came(s, e)[x]
  {
  }

  lemma StepConserves(s: State, b: Books, e: Event)
    requires Conserved(s, b)
    ensures Conserved(Next(s, e), Log(s, b, e))
  {
    forall x ensures Log(s, b, e).enqueued[x] == Kept(Next(s, e), x) + Gone(Log(s, b, e), x) {
      StepKeeps(s, e, x);
      StepLogs(s, b, e, x);
    }
  }

  // ----- an acknowledgement takes out what it names and nothing else

  /** No two messages in the store have the same id. */
  ghost predicate OwnIds(ms: seq<Msg>) {
    forall i, j :: 0 <= i < j < |ms| ==> ms[i].id != ms[j].id
  }

  /** The messages whose id is not among `ids`, in their order. */
  function Unnamed(ms: seq<Msg>, ids: seq<int>): seq<Msg> {
    if ms == [] then []
    else if ms[0].id in ids then Unnamed(ms[1..], ids)
    else [ms[0]] + Unnamed(ms[1..], ids)
  }

  lemma {:induction false} UnnamedHas(ms: seq<Msg>, ids: seq<int>, m: Msg)
    ensures m in Unnamed(ms, ids) <==> m in ms && m.id !in ids
  {
    if ms != [] {
      UnnamedHas(ms[1..], ids, m);
      assert ms == [ms[0]] + ms[1..];
    }
  }

  lemma {:induction false} UnnamedAll(ms: seq<Msg>, ids: seq<int>)
    requires forall i :: 0 <= i < |ms| ==> ms[i].id !in ids
    ensures Unnamed(ms, ids) == ms
  {
    if ms != [] {
      UnnamedAll(ms[1..], ids);
    }
  }

  lemma {:induction false} UnnamedOwnIds(ms: seq<Msg>, ids: seq<int>)
    requires OwnIds(ms)
    ensures OwnIds(Unnamed(ms, ids))
  {
    if ms != [] {
      var rest := Unnamed(ms[1..], ids);
      UnnamedOwnIds(ms[1..], ids);
      forall i | 0 <= i < |rest| ensures rest[i].id != ms[0].id {
        UnnamedHas(ms[1..], ids, rest[i]);
      }
    }
  }

  lemma {:induction false} UnnamedMore(ms: seq<Msg>, ids: seq<int>, id: int)
    ensures Unnamed(Unnamed(ms, ids), [id]) == Unnamed(ms, ids + [id])
  {
    if ms != [] {
      UnnamedMore(ms[1..], ids, id);
      var rest := Unnamed(ms[1..], ids);
      assert ([ms[0]] + rest)[1..] == rest;
    }
  }

  lemma {:induction false} RemoveTakesOne(ms: seq<Msg>, id: int)
    requires OwnIds(ms)
    ensures Remove(ms, id) == Unnamed(ms, [id])
  {
    if ms != [] {
      if ms[0].id == id {
        UnnamedAll(ms[1..], [id]);
        assert Without(ms, 0) == ms[1..];
      } else {
        RemoveTakesOne(ms[1..], id);
        var k := Find(ms[1..], id);
        assert k < |ms[1..]| ==> Without(ms, k + 1) == [ms[0]] + Without(ms[1..], k);
        assert ms == [ms[0]] + ms[1..];
      }
    }
  }

  /** Dropping the named ids one by one leaves exactly the messages that are not named, in their order. */
  lemma {:induction false} AckTakesNamed(ms: seq<Msg>, ids: seq<int>)
    requires OwnIds(ms)
    ensures RemoveAll(ms, ids) == Unnamed(ms, ids)
    ensures forall m :: m in RemoveAll(ms, ids) <==> m in ms && m.id !in ids
  {
    if ids == [] {
      UnnamedAll(ms, ids);
    } else {
      var n := |ids| - 1;
      AckTakesNamed(ms, ids[..n]);
      UnnamedOwnIds(ms, ids[..n]);
      RemoveTakesOne(Unnamed(ms, ids[..n]), ids[n]);
      UnnamedMore(ms, ids[..n], ids[n]);
      assert ids[..n] + [ids[n]] == ids;
    }
    forall m ensures m in Unnamed(ms, ids) <==> m in ms && m.id !in ids {
      UnnamedHas(ms, ids, m);
    }
  }

  lemma TrackOwnIds(ms: seq<Msg>, m: Msg)
    requires OwnIds(ms)
    ensures OwnIds(Track(ms, m))
  {
  }

  /** A written message takes the place of the one with its id; if there is none it goes behind the others. */
  lemma TrackKeepsPlaces(ms: seq<Msg>, m: Msg)
    requires OwnIds(ms)
    ensures |ms| <= |Track(ms, m)| <= |ms| + 1 && m in Track(ms, m)
    ensures |Track(ms, m)| == |ms| <==> exists i :: 0 <= i < |ms| && ms[i].id == m.id
    ensures |Track(ms, m)| == |ms| + 1 ==> Track(ms, m)[|ms|] == m
    ensures forall i :: 0 <= i < |ms| ==> Track(ms, m)[i] == if ms[i].id == m.id then m else ms[i]
  {
    var k := Find(ms, m.id);
    assert k < |ms| ==> ms[k := m][k] == m;
    assert k == |ms| ==> (ms + [m])[|ms|] == m;
  }

  lemma StepOwnIds(s: State, e: Event)
    requires OwnIds(s.pending)
    ensures OwnIds(Next(s, e).pending)
  {
    match e
    case WriteOk =>
      if s.writer.Writing? {
        TrackOwnIds(s.pending, s.writer.msg);
      }
    case Ack(ids) =>
      AckTakesNamed(s.pending, ids);
      UnnamedOwnIds(s.pending, ids);
    case _ =>
  }

  lemma {:induction false} EveryRunOwnIds(es: seq<Event>)
    ensures OwnIds(RunState(es).pending)
  {
    if es != [] {
      EveryRunOwnIds(es[..|es| - 1]);
      StepOwnIds(RunState(es[..|es| - 1]), es[|es| - 1]);
    }
  }

  /** Message `x` was waiting for an acknowledgement, and this event names it in one. */
  predicate Acknowledges(s: State, e: Event, x: Msg) {
    e.Ack? && x.id in e.ids && x in s.pending
  }

  /** How many events of a run acknowledged `x` while it was unacknowledged. */
  function Acknowledged(es: seq<Event>, x: Msg): nat {
    if es == [] then 0
    else Acknowledged(es[..|es| - 1], x) + if Acknowledges(RunState(es[..|es| - 1]), es[|es| - 1], x) then 1 else 0
  }

  lemma {:induction false} OnceEach(ms: seq<Msg>, x: Msg)
    requires OwnIds(ms)
    ensures multiset(ms)[x] == if x in ms then 1 else 0
  {
    if ms != [] {
      OnceEach(ms[1..], x);
      SplitCount(ms, 0, x);
      assert ms[..0] == [] && ms == [ms[0]] + ms[1..];
    }
  }

  lemma AckCounts(s: State, e: Event, x: Msg)
    requires OwnIds(s.pending) && e.Ack?
    ensures Left(s, e)[x] == if Acknowledges(s, e, x) then 1 else 0
  {
    AckTakesNamed(s.pending, e.ids);
    UnnamedOwnIds(s.pending, e.ids);
    OnceEach(s.pending, x);
    OnceEach(RemoveAll(s.pending, e.ids), x);
  }

  lemma {:induction false} AckedIsNamed(es: seq<Event>, x: Msg)
    ensures RunBooks(es).acked[x] == Acknowledged(es, x)
  {
    if es != [] {
      var s, e := RunState(es[..|es| - 1]), es[|es| - 1];
      AckedIsNamed(es[..|es| - 1], x);
      if e.Ack? {
        EveryRunOwnIds(es[..|es| - 1]);
        AckCounts(s, e, x);
      }
    }
  }

  lemma {:induction false} BooksBalance(es: seq<Event>)
    ensures Conserved(RunState(es), RunBooks(es))
  {
    if es != [] {
      BooksBalance(es[..|es| - 1]);
      StepConserves(RunState(es[..|es| - 1]), RunBooks(es[..|es| - 1]), es[|es| - 1]);
    }
  }

  /** In every run each enqueued message is in exactly one place: queued, being written, unacknowledged, or
      gone by an acknowledgement that named it while it was unacknowledged, a failed write of it, a later message
      with its id, or the end of the session. */
  lemma EveryRunConserves(es: seq<Event>)
    ensures Conserved(RunState(es), RunBooks(es)) && OwnIds(RunState(es).pending)
    ensures forall x :: RunBooks(es).acked[x] == Acknowledged(es, x)
  {
    BooksBalance(es);
    EveryRunOwnIds(es);
    forall x ensures RunBooks(es).acked[x] == Acknowledged(es, x) {
      AckedIsNamed(es, x);
    }
  }
}
