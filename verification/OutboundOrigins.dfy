/** Where the messages of a session come from, told by the events of a run alone: no state of the session is named in
    what an event asks for. */
module OutboundOrigins {
  import opened Outbound
  import opened OutboundOrder

  // ----- what the events ask for

  /** How many ids the events give out, at their end and without a pause, while the clock shows `now`; the session
      starts as if it had given one out at time 0. */
  function SameSecond(es: seq<Event>, now: int): nat {
    if es == [] then if now == 0 then 1 else 0
    else
      var e, before := es[|es| - 1], es[..|es| - 1];
      if !Timed(e) then SameSecond(before, now)
      else if e.now == now then SameSecond(before, now) + 1
      else 0
  }

  function RelatedIn(es: seq<Event>): nat {
    if es == [] then 0
    else RelatedIn(es[..|es| - 1]) + if es[|es| - 1].Enqueue? && es[|es| - 1].related then 1 else 0
  }

  /** Message `m` is the one that event `i` of the run asks to send: its data; an id that counts in steps of 4 within
      its second and tells a reply by its last two bits; and twice as a number the content-related messages enqueued
      before, plus one for such a message. */
  ghost predicate StemsFrom(es: seq<Event>, i: nat, m: Msg)
    requires i < |es|
  {
    var e := es[i];
    && e.Enqueue? && m.data == e.data
    && m.id == e.now * 0x1_0000_0000 + 4 * SameSecond(es[..i], e.now) + (if e.inReply then 1 else 3)
    && m.seqNo == 2 * RelatedIn(es[..i]) + if e.related then 1 else 0
  }

  /** Positions of the events that enqueue, in their order. */
  function Enqueues(es: seq<Event>): (ks: seq<nat>)
    ensures forall j :: 0 <= j < |ks| ==> ks[j] < |es|
  {
    if es == [] then []
    else Enqueues(es[..|es| - 1]) + if es[|es| - 1].Enqueue? then [|es| - 1] else []
  }

  /** The messages `ms` are those that the enqueuing events of the run ask for, one each and in their order. */
  ghost predicate AsAsked(es: seq<Event>, ms: seq<Msg>) {
    && |ms| == |Enqueues(es)|
    && forall j :: 0 <= j < |ms| ==> StemsFrom(es, Enqueues(es)[j], ms[j])
  }

  // ----- the state follows them

  lemma {:induction false} CountersFollow(es: seq<Event>, now: int)
    ensures NextOffset(RunState(es), now) == 4 * SameSecond(es, now)
    ensures RunState(es).outSeqNo == RelatedIn(es)
  {
    if es != [] {
      var before, e := es[..|es| - 1], es[|es| - 1];
      CountersFollow(before, now);
      StepCounts(RunState(before), e, now);
    }
  }

  lemma StepCounts(s: State, e: Event, now: int)
    ensures !Timed(e) ==> NextOffset(Next(s, e), now) == NextOffset(s, now)
    ensures Timed(e) && e.now == now ==> NextOffset(Next(s, e), now) == NextOffset(s, now) + 4
    ensures Timed(e) && e.now != now ==> NextOffset(Next(s, e), now) == 0
    ensures Next(s, e).outSeqNo == s.outSeqNo + if e.Enqueue? && e.related then 1 else 0
  {
  }

  lemma QueuedStems(es: seq<Event>)
    requires es != [] && es[|es| - 1].Enqueue?
    ensures StemsFrom(es, |es| - 1, Queued(RunState(es[..|es| - 1]), es[|es| - 1]))
  {
    CountersFollow(es[..|es| - 1], es[|es| - 1].now);
  }

  lemma StemsLater(es: seq<Event>, i: nat, m: Msg)
    requires es != [] && i < |es| - 1 && StemsFrom(es[..|es| - 1], i, m)
    ensures StemsFrom(es, i, m)
  {
    assert es[..|es| - 1][..i] == es[..i];
  }

  lemma AskedOnce(es: seq<Event>, ms: seq<Msg>)
    requires es != [] && AsAsked(es[..|es| - 1], ms)
    ensures !es[|es| - 1].Enqueue? ==> AsAsked(es, ms)
    ensures forall m :: es[|es| - 1].Enqueue? && StemsFrom(es, |es| - 1, m) ==> AsAsked(es, ms + [m])
  {
    var n := |es| - 1;
    forall j | 0 <= j < |ms| ensures StemsFrom(es, Enqueues(es)[j], ms[j]) {
      StemsLater(es, Enqueues(es[..n])[j], ms[j]);
    }
  }

  lemma {:induction false} QueuedAsAsked(es: seq<Event>)
    ensures AsAsked(es, RunJournal(es).queued) && RunBooks(es).enqueued == multiset(RunJournal(es).queued)
  {
    if es != [] {
      var before, e := es[..|es| - 1], es[|es| - 1];
      QueuedAsAsked(before);
      AskedOnce(es, RunJournal(before).queued);
      if e.Enqueue? {
        QueuedStems(es);
      }
    }
  }

  // ----- every message of the session

  /** The session has message `m` in its queue or its store, or is writing or about to rewrite it. */
  predicate Has(s: State, m: Msg) {
    || m in s.queue || m in s.pending
    || (s.writer.Writing? && s.writer.msg == m) || (s.writer.Resending? && m in s.writer.todo)
  }

  lemma KeptIsQueued(es: seq<Event>, m: Msg)
    requires Kept(RunState(es), m) > 0
    ensures m in RunJournal(es).queued
  {
    EveryRunConserves(es);
    QueuedAsAsked(es);
    assert RunBooks(es).enqueued[m] > 0;
  }

  lemma RewrittenWas(s: State, e: Event, m: Msg)
    requires Next(s, e).writer.Resending? && m in Next(s, e).writer.todo
    ensures m in s.pending || (s.writer.Resending? && m in s.writer.todo)
  {
  }

  lemma {:induction false} HadIsQueued(es: seq<Event>, m: Msg)
    requires Has(RunState(es), m)
    ensures m in RunJournal(es).queued
  {
    if Kept(RunState(es), m) > 0 {
      KeptIsQueued(es, m);
    } else {
      assert es != [];
      var before, e := es[..|es| - 1], es[|es| - 1];
      RewrittenWas(RunState(before), e, m);
      HadIsQueued(before, m);
    }
  }

  /** In every run the session has no message that some event did not ask for just as it is, and over the run it has
      enqueued one message for each event that asks for one, in their order. */
  lemma EveryMessageStems(es: seq<Event>)
    ensures AsAsked(es, RunJournal(es).queued) && RunBooks(es).enqueued == multiset(RunJournal(es).queued)
    ensures forall m :: Has(RunState(es), m) ==> exists i: nat :: i < |es| && StemsFrom(es, i, m)
  {
    QueuedAsAsked(es);
    forall m | Has(RunState(es), m) ensures exists i: nat :: i < |es| && StemsFrom(es, i, m) {
      HadIsQueued(es, m);
      var j :| 0 <= j < |RunJournal(es).queued| && RunJournal(es).queued[j] == m;
      assert StemsFrom(es, Enqueues(es)[j], m);
    }
  }

  /** An id tells whether its message answers a client message, and in a calm run also when it was enqueued. */
  lemma IdsTell(es: seq<Event>, i: nat, m: Msg)
    requires i < |es| && StemsFrom(es, i, m)
    ensures m.id % 4 == if es[i].inReply then 1 else 3
    ensures Calm(es) ==> m.id / 0x1_0000_0000 == es[i].now
  {
    TellsReply(es[i].now, SameSecond(es[..i], es[i].now), es[i].inReply, m.id);
    if Calm(es) {
      CountersFollow(es[..i], es[i].now);
      assert CalmStep(RunState(es[..i]), es[i]);
    }
  }

  lemma TellsReply(now: int, k: nat, inReply: bool, id: int)
    requires id == now * 0x1_0000_0000 + 4 * k + if inReply then 1 else 3
    ensures id % 4 == if inReply then 1 else 3
    ensures 4 * k <= LAST_OFFSET ==> id / 0x1_0000_0000 == now
  {
    var low := 4 * k + if inReply then 1 else 3;
    LowBits(now, low);
    if 4 * k <= LAST_OFFSET {
      Halves(now, low);
    }
  }
}
