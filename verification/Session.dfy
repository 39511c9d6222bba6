/** The session object: its methods are the steps of the outbound and completion state machines. */
module Session {
  import opened Containers
  import Out = Outbound
  import Order = OutboundOrder
  import Rpc

  /** Messages in a container: ids rise strictly within `(low, high]`, and sequence numbers rise up to `top`. */
  ghost predicate Packed(inner: seq<(int, nat)>, low: int, high: int, top: nat) {
    && (forall i :: 0 <= i < |inner| ==> low < inner[i].0 <= high && inner[i].1 <= top)
    && (forall i, j :: 0 <= i < j < |inner| ==> inner[i].0 < inner[j].0 && inner[i].1 <= inner[j].1)
  }

  lemma PackOne(inner: seq<(int, nat)>, low: int, high: int, top: nat, id: int, n: nat, high': int, top': nat)
    requires Packed(inner, low, high, top) && low <= high < id <= high' && top <= n <= top'
    ensures Packed(inner + [(id, n)], low, high', top')
  {
  }

  /** How many of the first `n` objects are content-related. */
  function RelatedOf(objects: seq<(bool, bool)>, n: nat): nat
    requires n <= |objects|
  {
    if n == 0 then 0 else RelatedOf(objects, n - 1) + if objects[n - 1].0 then 1 else 0
  }

  /** Each message packed so far has the id and the number that its object calls for, from number `first` on. */
  ghost predicate AsGiven(inner: seq<(int, nat)>, objects: seq<(bool, bool)>, clock: seq<int>, first: nat)
    requires |inner| <= |objects| <= |clock|
  {
    forall i :: 0 <= i < |inner| ==> GivenAt(inner[i], objects, clock, first, i)
  }

  ghost predicate GivenAt(m: (int, nat), objects: seq<(bool, bool)>, clock: seq<int>, first: nat, i: nat)
    requires i < |objects| <= |clock|
  {
    Given(m, objects[i], clock[i], 2 * (first + RelatedOf(objects, i)))
  }

  predicate Given(m: (int, nat), item: (bool, bool), now: int, number: nat) {
    && m.0 % 4 == (if item.1 then 1 else 3) && m.0 / 0x1_0000_0000 == now
    && m.1 == number + if item.0 then 1 else 0
  }

  lemma GivenOne(inner: seq<(int, nat)>, objects: seq<(bool, bool)>, clock: seq<int>, first: nat, m: (int, nat))
    requires |inner| < |objects| <= |clock| && AsGiven(inner, objects, clock, first)
    requires Given(m, objects[|inner|], clock[|inner|], 2 * (first + RelatedOf(objects, |inner|)))
    ensures AsGiven(inner + [m], objects, clock, first)
  {
    var more := inner + [m];
    forall i | 0 <= i < |more| ensures GivenAt(more[i], objects, clock, first, i) {
      assert i < |inner| ==> more[i] == inner[i] && GivenAt(inner[i], objects, clock, first, i);
    }
  }

  class Session {
    var lastTime: int
    var offset: nat
    var outSeqNo: nat
    var messageQueue: seq<Out.Msg>
    var pendingOutbound: seq<Out.Msg>
    var resendPendingOnConnect: bool
    var connected: bool
    var writer: Out.Writer

    var rpcCompletedIds: set<int>
    var rpcCompletedOrder: seq<int>
    var rpcCompletions: map<int, nat>
    var events: seq<Rpc.Signal>
    var tasks: map<nat, Rpc.Task>
    var epoch: nat
    ghost var marked: set<int>

    ghost function Outgoing(): Out.State
      reads this
    {
      Out.State(lastTime, offset, outSeqNo, messageQueue, pendingOutbound, resendPendingOnConnect, connected, writer)
    }

    ghost function Completions(): Rpc.State
      reads this
    {
      Rpc.State(rpcCompletedIds, rpcCompletedOrder, rpcCompletions, events, tasks, epoch, marked)
    }

    constructor ()
      ensures Outgoing() == Out.INITIAL && Completions() == Rpc.INITIAL
    {
      lastTime, offset, outSeqNo := 0, 0, 0;
      messageQueue, pendingOutbound := [], [];
      resendPendingOnConnect, connected, writer := false, false, Out.Idle;
      rpcCompletedIds, rpcCompletedOrder, rpcCompletions := {}, [], map[];
      events, tasks, epoch, marked := [], map[], 0, {};
    }

    // ----- ids and numbers

    method MsgId(now: int, inReply: bool) returns (id: int)
      requires offset % 4 == 0
      modifies `lastTime, `offset
      ensures id == Out.IdFor(old(Outgoing()), now, inReply) && id % 4 == if inReply then 1 else 3
      ensures Outgoing() == Out.TakeId(old(Outgoing()), now) && offset % 4 == 0
    {
      offset := if now == lastTime then offset + 4 else 0;
      lastTime := now;
      id := now * 0x1_0000_0000 + offset + if inReply then 1 else 3;
      Order.LowBits(now, offset + if inReply then 1 else 3);
    }

    method GetOutgoingSeqNo(related: bool) returns (n: nat)
      modifies `outSeqNo
      ensures n == Out.SeqNoFor(old(Outgoing()), related)
      ensures outSeqNo == old(outSeqNo) + if related then 1 else 0
    {
      n := outSeqNo * 2;
      if related {
        outSeqNo := outSeqNo + 1;
        n := n + 1;
      }
    }

    method PackMessage(now: int, inReply: bool, related: bool) returns (id: int, n: nat)
      requires offset % 4 == 0
      modifies `lastTime, `offset, `outSeqNo
      ensures id == Out.IdFor(old(Outgoing()), now, inReply) && n == Out.SeqNoFor(old(Outgoing()), related)
      ensures id % 4 == if inReply then 1 else 3
      ensures Outgoing() ==
        Out.TakeId(old(Outgoing()), now).(outSeqNo := old(outSeqNo) + if related then 1 else 0)
      ensures offset % 4 == 0
    {
      id := MsgId(now, inReply);
      n := GetOutgoingSeqNo(related);
    }

    /** Packs `objects`, pairs of content relation and reply flag, into one container; `clock` is what the clock
        shows for each of them and for the container. */
    method PackContainer(objects: seq<(bool, bool)>, clock: seq<int>) returns (inner: seq<(int, nat)>, id: int, n: nat)
      requires offset % 4 == 0 && |clock| == |objects| + 1 && lastTime <= clock[0]
      requires forall i, j :: 0 <= i < j < |clock| ==> clock[i] <= clock[j]
      requires offset + 4 * |clock| <= Out.LAST_OFFSET
      modifies `lastTime, `offset, `outSeqNo
      ensures |inner| == |objects| && Packed(inner, old(Order.Bound(Outgoing())), id - 1, n)
      ensures AsGiven(inner, objects, clock, old(outSeqNo))
      ensures Given((id, n), (false, false), clock[|objects|], 2 * (old(outSeqNo) + RelatedOf(objects, |objects|)))
      ensures offset % 4 == 0
    {
      inner := [];
      ghost var low := Order.Bound(Outgoing());
      for k := 0 to |objects|
        invariant |inner| == k && offset % 4 == 0 && lastTime <= clock[k]
        invariant offset + 4 * (|clock| - k) <= Out.LAST_OFFSET
        invariant low <= Order.Bound(Outgoing()) && Packed(inner, low, Order.Bound(Outgoing()), outSeqNo * 2)
        invariant outSeqNo == old(outSeqNo) + RelatedOf(objects, k) && AsGiven(inner, objects, clock, old(outSeqNo))
      {
        var m := PackInner(inner, low, clock[k], objects[k]);
        GivenOne(inner, objects, clock, old(outSeqNo), m);
        inner := inner + [m];
      }
      Order.NewIdIsAbove(Outgoing(), clock[|objects|], false);
      Order.IdTells(Outgoing(), clock[|objects|], false);
      id, n := PackMessage(clock[|objects|], false, false);
    }

    method PackInner(ghost inner: seq<(int, nat)>, ghost low: int, now: int, item: (bool, bool))
      returns (m: (int, nat))
      requires offset % 4 == 0 && offset + 4 <= Out.LAST_OFFSET && lastTime <= now
      requires low <= Order.Bound(Outgoing()) && Packed(inner, low, Order.Bound(Outgoing()), outSeqNo * 2)
      modifies `lastTime, `offset, `outSeqNo
      ensures Given(m, item, now, 2 * old(outSeqNo)) && outSeqNo == old(outSeqNo) + if item.0 then 1 else 0
      ensures offset % 4 == 0 && lastTime == now && offset <= old(offset) + 4
      ensures low <= Order.Bound(Outgoing()) && Packed(inner + [m], low, Order.Bound(Outgoing()), outSeqNo * 2)
    {
      Order.NewIdIsAbove(Outgoing(), now, item.1);
      Order.IdTells(Outgoing(), now, item.1);
      ghost var bound, next := Order.Bound(Outgoing()), outSeqNo * 2;
      var id, n := PackMessage(now, item.1, item.0);
      PackOne(inner, low, bound, next, id, n, Order.Bound(Outgoing()), outSeqNo * 2);
      m := (id, n);
    }

    // ----- outbound messages

    method Enqueue(now: int, inReply: bool, related: bool, data: Out.Data)
      requires offset % 4 == 0
      modifies this
      ensures Outgoing() == Out.Next(old(Outgoing()), Out.Enqueue(now, inReply, related, data))
      ensures Completions() == old(Completions()) && offset % 4 == 0
    {
      var id, n := PackMessage(now, inReply, related);
      messageQueue := messageQueue + [Out.Msg(id, n, data)];
    }

    method EnqueueUnencrypted(now: int, inReply: bool)
      requires offset % 4 == 0
      modifies this
      ensures Outgoing() == Out.Next(old(Outgoing()), Out.EnqueueUnencrypted(now, inReply))
      ensures Completions() == old(Completions()) && offset % 4 == 0
    {
      var _ := MsgId(now, inReply);
    }

    method TrackPendingOutbound(m: Out.Msg)
      modifies `pendingOutbound
      ensures pendingOutbound == Out.Track(old(pendingOutbound), m)
    {
      var k := Out.Find(pendingOutbound, m.id);
      if k < |pendingOutbound| {
        pendingOutbound := pendingOutbound[k := m];
      } else {
        pendingOutbound := pendingOutbound + [m];
      }
    }

    method AckOutbound(msgIds: seq<int>)
      modifies `pendingOutbound, `writer
      ensures Outgoing() == Out.Next(old(Outgoing()), Out.Ack(msgIds))
      ensures Out.OwnIds(old(pendingOutbound)) ==> pendingOutbound == Out.Unnamed(old(pendingOutbound), msgIds)
    {
      var before := pendingOutbound;
      if Out.OwnIds(before) {
        Out.AckTakesNamed(before, msgIds);
      }
      for i := 0 to |msgIds|
        invariant pendingOutbound == Out.RemoveAll(before, msgIds[..i])
        invariant writer == old(writer)
      {
        assert msgIds[..i + 1][..i] == msgIds[..i];
        var k := Out.Find(pendingOutbound, msgIds[i]);
        if k < |pendingOutbound| {
          pendingOutbound := Without(pendingOutbound, k);
        }
      }
      assert msgIds[..|msgIds|] == msgIds;
      writer := Out.Shaken(writer, pendingOutbound != before);
    }

    method Connect()
      modifies this
      ensures Outgoing() == Out.Next(old(Outgoing()), Out.Connect) && Completions() == old(Completions())
    {
      connected := true;
      if pendingOutbound != [] {
        resendPendingOnConnect := true;
      }
    }

    method Disconnect()
      modifies this
      ensures Outgoing() == Out.Next(old(Outgoing()), Out.Disconnect) && Completions() == old(Completions())
    {
      connected := false;
    }

    method Finalize()
      modifies this
      ensures Outgoing() == Out.Next(old(Outgoing()), Out.Finalize)
      ensures Completions() == Rpc.Next(old(Completions()), Rpc.Finalize)
    {
      ForgetCompletions();
      ClearOutbound();
    }

    method ClearOutbound()
      modifies `connected, `writer, `pendingOutbound, `resendPendingOnConnect, `messageQueue
      ensures Outgoing() == Out.Next(old(Outgoing()), Out.Finalize)
    {
      connected := false;
      writer := Out.Shaken(writer, pendingOutbound != []);
      pendingOutbound := [];
      resendPendingOnConnect := false;
      DrainQueue();
    }

    method ForgetCompletions()
      modifies `rpcCompletions, `rpcCompletedIds, `rpcCompletedOrder, `epoch
      ensures Completions() == Rpc.Next(old(Completions()), Rpc.Finalize)
    {
      rpcCompletions, rpcCompletedIds, rpcCompletedOrder := map[], {}, [];
      epoch := epoch + 1;
    }

    method DrainQueue()
      modifies `messageQueue
      ensures messageQueue == []
    {
      while messageQueue != []
        decreases |messageQueue|
      {
        messageQueue := messageQueue[1..];
      }
    }

    // ----- the pass that writes the queues, from one await to the next

    method Acquire()
      modifies this
      ensures Outgoing() == Out.Next(old(Outgoing()), Out.Acquire) && Completions() == old(Completions())
    {
      if writer.Idle? && connected {
        writer := Out.Ready;
      }
    }

    method TakeNext()
      modifies `messageQueue, `writer
      ensures Outgoing() == Out.TakeNext(old(Outgoing()))
    {
      if messageQueue == [] {
        writer := Out.Idle;
      } else {
        writer := Out.Writing(messageQueue[0]);
        messageQueue := messageQueue[1..];
      }
    }

    method Begin()
      modifies this
      ensures Outgoing() == Out.Next(old(Outgoing()), Out.Begin) && Completions() == old(Completions())
    {
      if writer.Ready? {
        if resendPendingOnConnect && pendingOutbound != [] {
          resendPendingOnConnect := false;
          writer := Out.Resending(pendingOutbound, true);
        } else {
          TakeNext();
        }
      }
    }

    method WriteOk()
      modifies this
      ensures Outgoing() == Out.Next(old(Outgoing()), Out.WriteOk) && Completions() == old(Completions())
    {
      match writer
      case Resending(todo, intact) =>
        if |todo| <= 1 {
          TakeNext();
        } else if intact {
          writer := Out.Resending(todo[1..], true);
        } else {
          writer := Out.Idle;
        }
      case Writing(m) =>
        TrackPendingOutbound(m);
        TakeNext();
      case _ =>
    }

    method WriteFails(disconnects: bool)
      modifies this
      ensures Outgoing() == Out.Next(old(Outgoing()), Out.WriteFails(disconnects))
        && Completions() == old(Completions())
    {
      if !writer.Idle? {
        writer := Out.Idle;
        if disconnects {
          Disconnect();
        }
      }
    }

    // ----- completed requests

    method PruneRpcCompletions()
      requires Rpc.Tracked(Completions())
      modifies `rpcCompletedIds, `rpcCompletedOrder, `rpcCompletions
      ensures Completions() == Rpc.Prune(old(Completions()))
    {
      while |rpcCompletedIds| > Rpc.TRACK_LIMIT
        invariant Rpc.Prune(Completions()) == Rpc.Prune(old(Completions()))
        invariant Rpc.Tracked(Completions())
        decreases |rpcCompletedOrder|
      {
        Rpc.ForgetTracked(Completions());
        var oldest := rpcCompletedOrder[0];
        rpcCompletedOrder := rpcCompletedOrder[1..];
        rpcCompletedIds := rpcCompletedIds - {oldest};
        rpcCompletions := rpcCompletions - {oldest};
      }
    }

    method MarkRpcCompleted(msgId: int)
      requires Rpc.Inv(Completions())
      modifies this
      ensures Completions() == Rpc.Next(old(Completions()), Rpc.Mark(msgId)) && Rpc.Inv(Completions())
      ensures Outgoing() == old(Outgoing())
    {
      Rpc.StepKeeps(Completions(), Rpc.Mark(msgId));
      AddCompletion(msgId);
      SetEvent(msgId);
      marked := marked + {msgId};
    }

    method AddCompletion(msgId: int)
      requires Rpc.Tracked(Completions())
      modifies `rpcCompletedIds, `rpcCompletedOrder, `rpcCompletions
      ensures Completions() == Rpc.Complete(old(Completions()), msgId)
    {
      if msgId !in rpcCompletedIds {
        rpcCompletedIds := rpcCompletedIds + {msgId};
        rpcCompletedOrder := rpcCompletedOrder + [msgId];
        PruneRpcCompletions();
      }
    }

    method SetEvent(msgId: int)
      modifies `events
      ensures Completions() == Rpc.Raise(old(Completions()), msgId)
    {
      if msgId in rpcCompletions && rpcCompletions[msgId] < |events| {
        var e := rpcCompletions[msgId];
        events := events[e := events[e].(raised := true)];
      }
    }

    /** The part of a wait before its await: done at once, or an event to wait for. */
    method WaitForRpc(msgId: int) returns (event: Option<nat>)
      modifies `rpcCompletions, `events
      ensures event.None? <==> msgId in rpcCompletedIds
      ensures event.None? ==> Completions() == old(Completions())
      ensures event.Some? ==> (Completions(), event.value) == Rpc.Register(old(Completions()), msgId)
    {
      if msgId in rpcCompletedIds {
        return None;
      }
      if msgId !in rpcCompletions {
        rpcCompletions := rpcCompletions[msgId := |events|];
        events := events + [Rpc.Signal(msgId, false)];
      }
      return Some(rpcCompletions[msgId]);
    }

    /** Waits for the requests of a query from the `k`-th on, until one is not completed; the query starts when
        none is left. */
    method WaitForInvokeAfter(task: nat, msgIds: seq<int>, k: nat)
      requires k <= |msgIds|
      modifies `rpcCompletions, `events, `tasks
      ensures Completions() == Rpc.Advance(old(Completions()), task, msgIds, k)
    {
      var i := k;
      while i < |msgIds|
        invariant k <= i <= |msgIds|
        invariant Rpc.Advance(Completions(), task, msgIds, i) == Rpc.Advance(old(Completions()), task, msgIds, k)
      {
        var event := WaitForRpc(msgIds[i]);
        if event.Some? {
          tasks := tasks[task := Rpc.Waiting(msgIds, i, event.value, epoch)];
          return;
        }
        i := i + 1;
      }
      tasks := tasks[task := Rpc.Started(msgIds)];
    }
  }
}
