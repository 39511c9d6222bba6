/** Bounded tracking of completed requests, who waits for them, and queries that start after others. */
module Rpc {
  import opened Containers

  const TRACK_LIMIT: nat := 256

  /** An event object belongs to the request it was made for. */
  datatype Signal = Signal(id: int, raised: bool)

  /** A query that has to wait for `ids` in turn; `epoch` tells in which life of the session it began to wait. */
  datatype Task =
    | Waiting(ids: seq<int>, k: nat, signal: nat, epoch: nat)
    | Started(ids: seq<int>)
    | TimedOut(ids: seq<int>)

  /** `signals` holds the stored events as indices into `pool`; `marked` is every request ever completed. */
  datatype State = State(
    completed: set<int>, order: seq<int>, signals: map<int, nat>, pool: seq<Signal>,
    tasks: map<nat, Task>, epoch: nat, marked: set<int>)

  const INITIAL := State({}, [], map[], [], map[], 0, {})

  datatype Event =
    | Mark(id: int)
    | Ask(task: nat, ids: seq<int>)
    | Wake(task: nat)
    | Timeout(task: nat)
    | Finalize

  // ----- steps

  /** Forgets the oldest completions above the limit, and their stored events. */
  function Prune(s: State): State
    decreases |s.order|
  {
    if |s.completed| <= TRACK_LIMIT || s.order == [] then s
    else Prune(s.(completed := s.completed - {s.order[0]}, order := s.order[1..], signals := s.signals - {s.order[0]}))
  }

  function Complete(s: State, id: int): State {
    if id in s.completed then s else Prune(s.(completed := s.completed + {id}, order := s.order + [id]))
  }

  function Raise(s: State, id: int): State {
    if id in s.signals && s.signals[id] < |s.pool| then
      s.(pool := s.pool[s.signals[id] := s.pool[s.signals[id]].(raised := true)])
    else s
  }

  /** The stored event of a request, made if there is none. */
  function Register(s: State, id: int): (r: (State, nat)) {
    if id in s.signals then (s, s.signals[id])
    else (s.(signals := s.signals[id := |s.pool|], pool := s.pool + [Signal(id, false)]), |s.pool|)
  }

  /** Waits for the `k`-th request and the ones after it, as far as they are completed. */
  function Advance(s: State, task: nat, ids: seq<int>, k: nat): State
    requires k <= |ids|
    decreases |ids| - k
  {
    if k == |ids| then s.(tasks := s.tasks[task := Started(ids)])
    else if ids[k] in s.completed then Advance(s, task, ids, k + 1)
    else
      var (t, signal) := Register(s, ids[k]);
      t.(tasks := t.tasks[task := Waiting(ids, k, signal, t.epoch)])
  }

  function Next(s: State, e: Event): State {
    match e
    case Mark(id) => Raise(Complete(s, id), id).(marked := s.marked + {id})
    case Ask(task, ids) => if task in s.tasks then s else Advance(s, task, ids, 0)
    case Wake(task) =>
      if Blocked(s, task) || task !in s.tasks || !s.tasks[task].Waiting? then s
      else
        var t := s.tasks[task];
        if t.k < |t.ids| then Advance(s, task, t.ids, t.k + 1) else s
    case Timeout(task) =>
      if task in s.tasks && s.tasks[task].Waiting? then s.(tasks := s.tasks[task := TimedOut(s.tasks[task].ids)]) else s
    case Finalize => s.(completed := {}, order := [], signals := map[], epoch := s.epoch + 1)
  }

  predicate Blocked(s: State, task: nat) {
    && task in s.tasks && s.tasks[task].Waiting?
    && s.tasks[task].signal < |s.pool| && !s.pool[s.tasks[task].signal].raised
  }

  function Run(es: seq<Event>): State {
    if es == [] then INITIAL else Next(Run(es[..|es| - 1]), es[|es| - 1])
  }

  // ----- what every run keeps

  ghost predicate Tracked(s: State) {
    && Distinct(s.order) && (forall id :: id in s.completed <==> id in s.order)
    && |s.order| == |s.completed|
  }

  /** A stored event is set exactly when its request is among the completed ones. */
  ghost predicate SignalRight(s: State, id: int)
    requires id in s.signals
  {
    && s.signals[id] < |s.pool| && s.pool[s.signals[id]].id == id
    && (s.pool[s.signals[id]].raised <==> id in s.completed)
  }

  ghost predicate TaskRight(s: State, t: Task) {
    match t
    case Waiting(ids, k, signal, epoch) =>
      && k < |ids| && signal < |s.pool| && s.pool[signal].id == ids[k] && epoch <= s.epoch
      && (forall j :: 0 <= j < k ==> ids[j] in s.marked)
      && (s.pool[signal].raised ==> ids[k] in s.marked)
      && (epoch == s.epoch && !s.pool[signal].raised ==> ids[k] in s.signals && s.signals[ids[k]] == signal)
    case Started(ids) => forall j :: 0 <= j < |ids| ==> ids[j] in s.marked
    case TimedOut(_) => true
  }

  ghost predicate Inv(s: State) {
    && Tracked(s) && |s.completed| <= TRACK_LIMIT && s.completed <= s.marked
    && (forall id :: id in s.signals ==> SignalRight(s, id))
    && (forall task :: task in s.tasks ==> TaskRight(s, s.tasks[task]))
  }

  /** All of the invariant but the bound. */
  ghost predicate Coherent(s: State) {
    && Tracked(s) && s.completed <= s.marked
    && (forall id :: id in s.signals ==> SignalRight(s, id))
    && (forall task :: task in s.tasks ==> TaskRight(s, s.tasks[task]))
  }

  // ----- pruning

  function Forget(s: State): State
    requires s.order != []
  {
    s.(completed := s.completed - {s.order[0]}, order := s.order[1..], signals := s.signals - {s.order[0]})
  }

  lemma ForgetTracked(s: State)
    requires Tracked(s) && s.order != []
    ensures Tracked(Forget(s)) && |Forget(s).completed| == |s.completed| - 1
  {
    var oldest := s.order[0];
    assert s.order == [oldest] + s.order[1..];
    assert oldest in s.order;
    assert oldest in s.completed;
    assert oldest !in s.order[1..];
  }

  /** The oldest completion is not one a task still waits for, so its event may go. */
  lemma ForgetKeeps(s: State)
    requires Coherent(s) && s.order != []
    ensures Coherent(Forget(s)) && |Forget(s).completed| == |s.completed| - 1
  {
    var t, oldest := Forget(s), s.order[0];
    ForgetTracked(s);
    assert oldest in s.completed;
    forall id | id in t.signals ensures SignalRight(t, id) {
      assert SignalRight(s, id);
    }
    forall task | task in t.tasks ensures TaskRight(t, t.tasks[task]) {
      assert TaskRight(s, s.tasks[task]);
      assert oldest in s.signals ==> SignalRight(s, oldest);
    }
  }

  lemma {:induction false} PruneKeeps(s: State)
    requires Coherent(s)
    ensures Inv(Prune(s)) && Prune(s).marked == s.marked && Prune(s).pool == s.pool
    decreases |s.order|
  {
    if |s.completed| > TRACK_LIMIT {
      ForgetKeeps(s);
      PruneKeeps(Forget(s));
    }
  }

  /** The newest completion survives pruning, so setting its event can as well come first. */
  lemma {:induction false} PruneThenRaise(s: State, id: int)
    requires Tracked(s) && s.order != [] && s.order[|s.order| - 1] == id
    ensures Raise(Prune(s), id) == Prune(Raise(s, id))
    decreases |s.order|
  {
    if |s.completed| > TRACK_LIMIT {
      var t := Forget(s);
      assert s.order[0] != id;
      ForgetTracked(s);
      PruneThenRaise(t, id);
      assert Raise(t, id) == Forget(Raise(s, id));
    }
  }

  // ----- every step keeps the invariant

  /** The request is added and its event set, before anything is forgotten. */
  function MarkedNow(s: State, id: int): State {
    Raise(if id in s.completed then s else s.(completed := s.completed + {id}, order := s.order + [id]), id)
      .(marked := s.marked + {id})
  }

  lemma MarkedNowCoherent(s: State, id: int)
    requires Inv(s)
    ensures Coherent(MarkedNow(s, id))
  {
    var t := MarkedNow(s, id);
    assert id in s.signals ==> SignalRight(s, id);
    forall other | other in t.signals ensures SignalRight(t, other) {
      assert SignalRight(s, other);
    }
    forall task | task in t.tasks ensures TaskRight(t, t.tasks[task]) {
      assert TaskRight(s, s.tasks[task]);
    }
  }

  lemma MarkKeeps(s: State, id: int)
    requires Inv(s)
    ensures Inv(Next(s, Mark(id))) && (id !in s.completed ==> Next(s, Mark(id)) == Prune(MarkedNow(s, id)))
    ensures Next(s, Mark(id)).pool == MarkedNow(s, id).pool
  {
    MarkedNowCoherent(s, id);
    if id !in s.completed {
      var added := s.(completed := s.completed + {id}, order := s.order + [id]);
      var known := added.(marked := s.marked + {id});
      assert Tracked(known);
      PruneThenRaise(known, id);
      PruneIgnoresMarked(added, s.marked + {id});
      PruneKeeps(MarkedNow(s, id));
      assert MarkedNow(s, id) == Raise(known, id);
    }
  }

  lemma {:induction false} PruneIgnoresMarked(s: State, marked: set<int>)
    ensures Prune(s.(marked := marked)) == Prune(s).(marked := marked)
    decreases |s.order|
  {
    if |s.completed| > TRACK_LIMIT && s.order != [] {
      PruneIgnoresMarked(Forget(s), marked);
    }
  }

  lemma RegisterKeeps(s: State, id: int)
    requires Inv(s) && id !in s.completed
    ensures var (t, signal) := Register(s, id);
      && Inv(t) && id in t.signals && t.signals[id] == signal
      && t.completed == s.completed && t.marked == s.marked && t.epoch == s.epoch && t.tasks == s.tasks
  {
    var (t, signal) := Register(s, id);
    if id !in s.signals {
      forall other | other in t.signals ensures SignalRight(t, other) {
        assert other != id ==> SignalRight(s, other);
      }
      forall task | task in t.tasks ensures TaskRight(t, t.tasks[task]) {
        assert TaskRight(s, s.tasks[task]);
      }
    }
  }

  lemma SetTask(s: State, task: nat, t: Task)
    requires Inv(s) && TaskRight(s, t)
    ensures Inv(s.(tasks := s.tasks[task := t]))
  {
    var s' := s.(tasks := s.tasks[task := t]);
    forall id | id in s'.signals ensures SignalRight(s', id) {
      assert SignalRight(s, id);
    }
    forall other | other in s'.tasks ensures TaskRight(s', s'.tasks[other]) {
      assert other != task ==> TaskRight(s, s.tasks[other]);
    }
  }

  lemma {:induction false} AdvanceKeeps(s: State, task: nat, ids: seq<int>, k: nat)
    requires Inv(s) && k <= |ids| && forall j :: 0 <= j < k ==> ids[j] in s.marked
    ensures Inv(Advance(s, task, ids, k))
    decreases |ids| - k
  {
    if k == |ids| {
      SetTask(s, task, Started(ids));
    } else if ids[k] in s.completed {
      AdvanceKeeps(s, task, ids, k + 1);
    } else {
      RegisterKeeps(s, ids[k]);
      var (t, signal) := Register(s, ids[k]);
      assert SignalRight(t, ids[k]);
      SetTask(t, task, Waiting(ids, k, signal, t.epoch));
    }
  }

  lemma FinalizeKeeps(s: State)
    requires Inv(s)
    ensures Inv(Next(s, Finalize))
  {
    var t := Next(s, Finalize);
    forall task | task in t.tasks ensures TaskRight(t, t.tasks[task]) {
      assert TaskRight(s, s.tasks[task]);
    }
  }

  lemma StepKeeps(s: State, e: Event)
    requires Inv(s)
    ensures Inv(Next(s, e))
  {
    match e
    case Mark(id) =>
      MarkKeeps(s, id);
      if id in s.completed {
        MarkedNowCoherent(s, id);
      }
    case Ask(task, ids) =>
      if task !in s.tasks {
        AdvanceKeeps(s, task, ids, 0);
      }
    case Wake(task) =>
      if task in s.tasks && s.tasks[task].Waiting? && !Blocked(s, task) {
        var t := s.tasks[task];
        assert TaskRight(s, t);
        AdvanceKeeps(s, task, t.ids, t.k + 1);
      }
    case Timeout(task) =>
      if task in s.tasks && s.tasks[task].Waiting? {
        SetTask(s, task, TimedOut(s.tasks[task].ids));
      }
    case Finalize => FinalizeKeeps(s);
  }

  /** In every reachable state at most 256 completions are tracked; a stored event is set exactly when its request
      is completed; and the event of a task that waits in this life of the session is the stored one. */
  lemma {:induction false} EveryRunKeeps(es: seq<Event>)
    ensures Inv(Run(es))
  {
    if es != [] {
      EveryRunKeeps(es[..|es| - 1]);
      StepKeeps(Run(es[..|es| - 1]), es[|es| - 1]);
    }
  }

  // ----- what the invariant is for

  /** A query starts only after every request it names was completed. */
  lemma StartsAfterAll(es: seq<Event>, task: nat)
    requires task in Run(es).tasks && Run(es).tasks[task].Started?
    ensures forall id :: id in Run(es).tasks[task].ids ==> id in Run(es).marked
  {
    EveryRunKeeps(es);
    assert TaskRight(Run(es), Run(es).tasks[task]);
  }

  /** `marked` is no more than the requests that were reported completed. */
  lemma {:induction false} MarkedWasReported(es: seq<Event>, id: int)
    ensures id in Run(es).marked <==> Mark(id) in es
  {
    if es != [] {
      var n := |es| - 1;
      MarkedWasReported(es[..n], id);
      assert es == es[..n] + [es[n]];
      StepMarks(Run(es[..n]), es[n]);
    }
  }

  lemma StepMarks(s: State, e: Event)
    ensures Next(s, e).marked == if e.Mark? then s.marked + {e.id} else s.marked
  {
    match e
    case Ask(task, ids) =>
      if task !in s.tasks {
        AdvanceMarks(s, task, ids, 0);
      }
    case Wake(task) =>
      if task in s.tasks && s.tasks[task].Waiting? && s.tasks[task].k < |s.tasks[task].ids| {
        AdvanceMarks(s, task, s.tasks[task].ids, s.tasks[task].k + 1);
      }
    case _ =>
  }

  lemma {:induction false} AdvanceMarks(s: State, task: nat, ids: seq<int>, k: nat)
    requires k <= |ids|
    ensures Advance(s, task, ids, k).marked == s.marked
    decreases |ids| - k
  {
    if k < |ids| && ids[k] in s.completed {
      AdvanceMarks(s, task, ids, k + 1);
    }
  }

  /** A completion wakes every task that waits for it since the last finalization, however many others completed. */
  lemma MarkWakes(es: seq<Event>, id: int, task: nat)
    requires task in Run(es).tasks && Run(es).tasks[task].Waiting?
    requires var t := Run(es).tasks[task]; t.k < |t.ids| && t.ids[t.k] == id && t.epoch == Run(es).epoch
    ensures !Blocked(Next(Run(es), Mark(id)), task)
  {
    var s := Run(es);
    EveryRunKeeps(es);
    MarkKeeps(s, id);
    assert TaskRight(s, s.tasks[task]);
    MarkLeavesTasks(s, id);
  }

  lemma MarkLeavesTasks(s: State, id: int)
    ensures Next(s, Mark(id)).tasks == s.tasks
  {
    PruneLeavesTasks(s.(completed := s.completed + {id}, order := s.order + [id]));
  }

  lemma {:induction false} PruneLeavesTasks(s: State)
    ensures Prune(s).tasks == s.tasks
    decreases |s.order|
  {
    if |s.completed| > TRACK_LIMIT && s.order != [] {
      PruneLeavesTasks(Forget(s));
    }
  }

  /** A task that is blocked in this life of the session waits for a request that is not among the completed. */
  lemma BlockedIsWarranted(es: seq<Event>, task: nat)
    requires Blocked(Run(es), task) && Run(es).tasks[task].epoch == Run(es).epoch
    ensures var t := Run(es).tasks[task]; t.k < |t.ids| && t.ids[t.k] !in Run(es).completed
  {
    var s := Run(es);
    EveryRunKeeps(es);
    var t := s.tasks[task];
    assert TaskRight(s, t);
    assert SignalRight(s, t.ids[t.k]);
  }

  /** A woken task moves on: it starts, or waits for a later request. */
  lemma {:induction false} AdvanceMovesOn(s: State, task: nat, ids: seq<int>, k: nat)
    requires k <= |ids|
    ensures var t := Advance(s, task, ids, k);
      task in t.tasks && (t.tasks[task] == Started(ids) || (t.tasks[task].Waiting? && t.tasks[task].k >= k))
    decreases |ids| - k
  {
    if k < |ids| && ids[k] in s.completed {
      AdvanceMovesOn(s, task, ids, k + 1);
    }
  }

  /** Whether a query for one request starts at once is decided by the bounded memory: a completion that was
      forgotten makes the query wait. */
  lemma AskOne(es: seq<Event>, task: nat, id: int)
    requires task !in Run(es).tasks
    ensures var tasks := Next(Run(es), Ask(task, [id])).tasks;
      task in tasks && (tasks[task].Started? <==> id in Run(es).completed)
  {
    var s := Run(es);
    if id in s.completed {
      assert Advance(s, task, [id], 1).tasks[task].Started?;
    }
  }

  // ----- what each event does to the waiting queries

  /** A query with these requests, from the `k`-th on, goes as far as the first that is not completed and waits for it,
      or starts if there is none. */
  ghost predicate GoesOn(s: State, t: State, task: nat, ids: seq<int>, k: nat) {
    && t.tasks.Keys == s.tasks.Keys + {task}
    && (forall other :: other in s.tasks && other != task ==> t.tasks[other] == s.tasks[other])
    && exists m :: k <= m <= |ids| && StopsAt(s, t, t.tasks[task], ids, k, m)
  }

  ghost predicate StopsAt(s: State, t: State, now: Task, ids: seq<int>, k: int, m: int)
    requires 0 <= k <= m <= |ids|
  {
    && (forall j :: k <= j < m ==> ids[j] in s.completed)
    && if m == |ids| then now == Started(ids)
       else
         && ids[m] !in s.completed && now.Waiting? && now.ids == ids && now.k == m && now.epoch == s.epoch
         && ids[m] in t.signals && now.signal == t.signals[ids[m]]
  }

  lemma {:induction false} AdvanceGoesOn(s: State, task: nat, ids: seq<int>, k: nat) returns (m: nat)
    requires k <= |ids|
    ensures var t := Advance(s, task, ids, k);
      && task in t.tasks && t.tasks == s.tasks[task := t.tasks[task]] && t.completed == s.completed
      && k <= m <= |ids| && StopsAt(s, t, t.tasks[task], ids, k, m)
    decreases |ids| - k
  {
    if k < |ids| && ids[k] in s.completed {
      m := AdvanceGoesOn(s, task, ids, k + 1);
    } else {
      m := k;
    }
  }

  /** Asking makes a query go on from its first request, and waking it, once its event is set, from behind the one it
      waited for; a query that times out while it waits is given up; nothing else changes a query. */
  lemma TasksExactly(s: State, e: Event)
    ensures var t := Next(s, e);
      if e.Ask? && e.task !in s.tasks then GoesOn(s, t, e.task, e.ids, 0)
      else if e.Wake? && e.task in s.tasks && s.tasks[e.task].Waiting? && !Blocked(s, e.task)
              && s.tasks[e.task].k < |s.tasks[e.task].ids| then
        GoesOn(s, t, e.task, s.tasks[e.task].ids, s.tasks[e.task].k + 1)
      else if e.Timeout? && e.task in s.tasks && s.tasks[e.task].Waiting? then
        t == s.(tasks := s.tasks[e.task := TimedOut(s.tasks[e.task].ids)])
      else t.tasks == s.tasks
  {
    match e
    case Mark(id) => MarkLeavesTasks(s, id);
    case Ask(task, ids) =>
      if task !in s.tasks {
        var m := AdvanceGoesOn(s, task, ids, 0);
      }
    case Wake(task) =>
      if task in s.tasks && s.tasks[task].Waiting? && !Blocked(s, task) && s.tasks[task].k < |s.tasks[task].ids| {
        var m := AdvanceGoesOn(s, task, s.tasks[task].ids, s.tasks[task].k + 1);
      }
    case _ =>
  }

  // ----- which completions are remembered, told by the events alone

  /** The last 256 of a list. */
  function Newest(ids: seq<int>): seq<int> {
    if |ids| <= 256 then ids else ids[|ids| - 256..]
  }

  /** The completions since the last finalization in the order in which they came; one that comes again while it is
      among the newest is not a new one. */
  function CompletionLog(es: seq<Event>): seq<int> {
    if es == [] then []
    else
      var log := CompletionLog(es[..|es| - 1]);
      match es[|es| - 1]
      case Mark(id) => if id in Newest(log) then log else log + [id]
      case Finalize => []
      case _ => log
  }

  lemma PruneOnce(s: State)
    requires Tracked(s) && |s.order| <= 257
    ensures Prune(s).order == Newest(s.order)
  {
    if |s.order| == 257 {
      ForgetTracked(s);
      assert Prune(s) == Prune(Forget(s)) == Forget(s);
    }
  }

  lemma {:induction false} AdvanceLeavesOrder(s: State, task: nat, ids: seq<int>, k: nat)
    requires k <= |ids|
    ensures Advance(s, task, ids, k).order == s.order
    decreases |ids| - k
  {
    if k < |ids| && ids[k] in s.completed {
      AdvanceLeavesOrder(s, task, ids, k + 1);
    }
  }

  lemma StepLeavesOrder(s: State, e: Event)
    requires !e.Mark?
    ensures Next(s, e).order == if e.Finalize? then [] else s.order
  {
    match e
    case Ask(task, ids) =>
      if task !in s.tasks {
        AdvanceLeavesOrder(s, task, ids, 0);
      }
    case Wake(task) =>
      if task in s.tasks && s.tasks[task].Waiting? && s.tasks[task].k < |s.tasks[task].ids| {
        AdvanceLeavesOrder(s, task, s.tasks[task].ids, s.tasks[task].k + 1);
      }
    case _ =>
  }

  lemma MarkOrders(s: State, id: int)
    requires Inv(s)
    ensures Next(s, Mark(id)).order == if id in s.order then s.order else Newest(s.order + [id])
  {
    if id !in s.order {
      PruneOnce(s.(completed := s.completed + {id}, order := s.order + [id]));
    }
  }

  lemma NewestOfMore(log: seq<int>, id: int)
    ensures Newest(Newest(log) + [id]) == Newest(log + [id])
  {
  }

  /** The newest 256 completions stay tracked, each until as many others have completed after it. */
  lemma {:induction false} NewestStayTracked(es: seq<Event>)
    ensures Run(es).order == Newest(CompletionLog(es))
    ensures forall id :: id in Run(es).completed <==> id in Newest(CompletionLog(es))
  {
    if es != [] {
      var before, e := es[..|es| - 1], es[|es| - 1];
      NewestStayTracked(before);
      EveryRunKeeps(before);
      if e.Mark? {
        MarkOrders(Run(before), e.id);
        NewestOfMore(CompletionLog(before), e.id);
      } else {
        StepLeavesOrder(Run(before), e);
      }
    }
    EveryRunKeeps(es);
  }
}
