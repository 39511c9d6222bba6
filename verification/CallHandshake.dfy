/** The stored call and the requests that change it, in every interleaving. Accepting and confirming run in a
    transaction; receiving and discarding read the call first and write it later. */
module CallHandshake {
  import opened Containers

  type Bytes = seq<bv8>

  datatype Reason = Missed | Disconnected | Hangup | Busy

  datatype Protocol = Protocol(p2p: bool, reflector: bool, minLayer: int, maxLayer: int, versions: set<string>)

  datatype Call = Call(
    gAHash: Bytes, gA: Option<Bytes>, gB: Option<Bytes>, toSess: Option<int>, protocol: Protocol,
    startedAt: Option<int>, duration: Option<int>, reason: Option<Reason>)

  // ----- library versions

  const NUMBERS: map<string, seq<nat>> := map[
    "2.4.4" := [2, 4, 4], "2.7.7" := [2, 7, 7], "4.0.0" := [4, 0, 0], "5.0.0" := [5, 0, 0], "7.0.0" := [7, 0, 0],
    "8.0.0" := [8, 0, 0], "9.0.0" := [9, 0, 0], "11.0.0" := [11, 0, 0], "12.0.0" := [12, 0, 0], "13.0.0" := [13, 0, 0]]

  function Supported(): set<string> {
    NUMBERS.Keys
  }

  /** Tuples of numbers compare by their first difference. */
  predicate AtMost(a: seq<nat>, b: seq<nat>) {
    a == [] || (b != [] && (a[0] < b[0] || (a[0] == b[0] && AtMost(a[1..], b[1..]))))
  }

  lemma {:induction false} AtMostTotal(a: seq<nat>, b: seq<nat>)
    ensures AtMost(a, b) || AtMost(b, a)
  {
    if a != [] && b != [] && a[0] == b[0] {
      AtMostTotal(a[1..], b[1..]);
    }
  }

  lemma {:induction false} AtMostTransitive(a: seq<nat>, b: seq<nat>, c: seq<nat>)
    requires AtMost(a, b) && AtMost(b, c)
    ensures AtMost(a, c)
  {
    if a != [] && a[0] == b[0] && b[0] == c[0] {
      AtMostTransitive(a[1..], b[1..], c[1..]);
    }
  }

  ghost predicate Greatest(v: string, vs: set<string>) {
    v in vs && v in NUMBERS && forall w :: w in vs && w in NUMBERS ==> AtMost(NUMBERS[w], NUMBERS[v])
  }

  lemma {:induction false} AtMostAntisymmetric(a: seq<nat>, b: seq<nat>)
    requires AtMost(a, b) && AtMost(b, a)
    ensures a == b
  {
    if a != [] {
      AtMostAntisymmetric(a[1..], b[1..]);
      assert a == [a[0]] + a[1..] && b == [b[0]] + b[1..];
    }
  }

  /** The numbers tell the versions apart. */
  lemma NumbersTell(v: string, w: string)
    requires v in NUMBERS && w in NUMBERS && NUMBERS[v] == NUMBERS[w]
    ensures v == w
  {
  }

  lemma GreatestIsUnique(v: string, w: string, vs: set<string>)
    requires Greatest(v, vs) && Greatest(w, vs)
    ensures v == w
  {
    AtMostAntisymmetric(NUMBERS[v], NUMBERS[w]);
    NumbersTell(v, w);
  }

  lemma {:induction false} SomeIsGreatest(vs: set<string>)
    requires vs != {} && vs <= Supported()
    ensures exists v :: Greatest(v, vs)
    decreases |vs|
  {
    var v :| v in vs;
    AtMostTotal(NUMBERS[v], NUMBERS[v]);
    if vs == {v} {
      assert Greatest(v, vs);
    } else {
      SomeIsGreatest(vs - {v});
      var w :| Greatest(w, vs - {v});
      AtMostTotal(NUMBERS[v], NUMBERS[w]);
      if AtMost(NUMBERS[v], NUMBERS[w]) {
        assert Greatest(w, vs);
      } else {
        forall u | u in vs - {v} ensures AtMost(NUMBERS[u], NUMBERS[v]) {
          AtMostTransitive(NUMBERS[u], NUMBERS[w], NUMBERS[v]);
        }
        assert Greatest(v, vs);
      }
    }
  }

  /** The version with the greatest numbers. */
  ghost function GreatestOf(vs: set<string>): (r: string)
    requires vs != {} && vs <= Supported()
    ensures Greatest(r, vs)
  {
    SomeIsGreatest(vs);
    var v :| Greatest(v, vs);
    v
  }

  function Normalized(vs: set<string>): (r: set<string>)
    ensures r != {} && r <= Supported()
  {
    if vs * Supported() != {} then vs * Supported() else assert "2.4.4" in NUMBERS; {"2.4.4"}
  }

  /** What both sides know, or failing that what either knows. */
  function Common(a: set<string>, b: set<string>): (r: set<string>)
    ensures r != {} && r <= Supported()
  {
    if a * b * Supported() != {} then a * b * Supported() else Normalized(a + b)
  }

  method PickGreatest(vs: set<string>) returns (v: string)
    requires vs != {} && vs <= Supported()
    ensures v == GreatestOf(vs)
  {
    v :| v in vs;
    AtMostTotal(NUMBERS[v], NUMBERS[v]);
    var left := vs - {v};
    while left != {}
      invariant left <= vs && v in vs
      invariant forall w :: w in vs - left ==> AtMost(NUMBERS[w], NUMBERS[v])
      decreases |left|
    {
      var w :| w in left;
      left := left - {w};
      AtMostTotal(NUMBERS[w], NUMBERS[v]);
      AtMostTotal(NUMBERS[w], NUMBERS[w]);
      if !AtMost(NUMBERS[w], NUMBERS[v]) {
        forall u | u in vs - left ensures AtMost(NUMBERS[u], NUMBERS[w]) {
          if u != w {
            AtMostTransitive(NUMBERS[u], NUMBERS[v], NUMBERS[w]);
          }
        }
        v := w;
      }
    }
    GreatestIsUnique(v, GreatestOf(vs), vs);
  }

  // ----- protocols

  predicate Proper(p: Protocol) {
    && (p.p2p || p.reflector) && 65 <= p.minLayer <= p.maxLayer <= 200
    && p.versions != {} && p.versions <= Supported()
  }

  function Checked(p: Protocol): (r: Option<Protocol>)
    ensures r.Some? ==> Proper(r.value)
  {
    if (!p.p2p && !p.reflector) || p.minLayer > p.maxLayer || p.minLayer < 65 || p.maxLayer > 200 then None
    else Some(p.(versions := Normalized(p.versions)))
  }

  /** Merging; a final merge settles on one version. */
  ghost function Merged(a: Protocol, b: Protocol, final: bool): Option<Protocol> {
    var lo := if a.minLayer > b.minLayer then a.minLayer else b.minLayer;
    var hi := if a.maxLayer < b.maxLayer then a.maxLayer else b.maxLayer;
    var versions := Common(a.versions, b.versions);
    if lo > hi then None
    else
      Some(Protocol(a.p2p || b.p2p, a.reflector || b.reflector, lo, hi,
                    if final then {GreatestOf(versions)} else versions))
  }

  method MergeProtocols(a: Protocol, b: Protocol, final: bool) returns (r: Option<Protocol>)
    ensures r == Merged(a, b, final)
  {
    var versions := Common(a.versions, b.versions);
    if final {
      var v := PickGreatest(versions);
      versions := {v};
    }
    var lo := if a.minLayer > b.minLayer then a.minLayer else b.minLayer;
    var hi := if a.maxLayer < b.maxLayer then a.maxLayer else b.maxLayer;
    if lo > hi {
      return None;
    }
    return Some(Protocol(a.p2p || b.p2p, a.reflector || b.reflector, lo, hi, versions));
  }

  // ----- steps

  /** A discard under way: the call as it was read, and the reason that was settled on then. */
  datatype Pending = Pending(read: Call, why: Reason)

  /** Requests that read first and write later keep what they read under a number of their own: the session that
      reports receiving, a discard, and the calls found to be stale. */
  datatype State = State(call: Call, receiving: map<nat, int>, discarding: map<nat, Pending>, stale: set<nat>)

  /** Times are in microseconds. */
  datatype Event =
    | Accept(sess: int, gB: Bytes, protocol: Protocol)
    | Confirm(gA: Bytes, protocol: Protocol, now: int)
    | BeginReceived(task: nat, sess: int)
    | EndReceived(task: nat)
    | BeginDiscard(task: nat, byCaller: bool, lost: bool)
    | EndDiscard(task: nat, now: int)
    | BeginStale(task: nat)
    | EndStale(task: nat)

  const DH_BYTES: nat := 256

  predicate DhBytes(data: Bytes) {
    0 < |data| <= DH_BYTES
  }

  predicate CanReceive(c: Call) {
    c.reason.None? && c.gB.None? && c.toSess.None?
  }

  ghost function Accepted(c: Call, sess: int, gB: Bytes, protocol: Protocol): Call {
    var checked := Checked(protocol);
    if !DhBytes(gB) || checked.None? || c.reason.Some? || c.gB.Some?
       || (c.toSess.Some? && c.toSess.value != sess)
    then c
    else
      var merged := Merged(c.protocol, checked.value, false);
      if merged.None? then c else c.(toSess := Some(sess), gB := Some(gB), protocol := merged.value)
  }

  /** `hash` stands for SHA-256. */
  ghost function Confirmed(hash: Bytes -> Bytes, c: Call, gA: Bytes, protocol: Protocol, now: int): Call {
    var checked := Checked(protocol);
    if !DhBytes(gA) || checked.None? || c.reason.Some? || c.gB.None? || hash(gA) != c.gAHash || c.gA.Some? then c
    else
      var merged := Merged(c.protocol, checked.value, true);
      if merged.None? then c else c.(gA := Some(gA), protocol := merged.value, startedAt := Some(now))
  }

  /** Before anyone answered, the caller's discard makes the call missed and the callee's busy; afterwards it counts
      whether the request says that the connection was `lost`. */
  function ReasonFor(c: Call, byCaller: bool, lost: bool): Reason {
    if c.toSess.None? then if byCaller then Missed else Busy
    else if lost then Disconnected
    else Hangup
  }

  const MICROSECONDS: int := 1_000_000

  /** Truncation is toward zero. */
  function WholeSeconds(span: int): int {
    if span >= 0 then span / MICROSECONDS else -(-span / MICROSECONDS)
  }

  /** Discarding saves the reason, and the duration from what was read. */
  function Discarded(c: Call, p: Pending, now: int): Call {
    c.(reason := Some(p.why),
       duration := if p.read.startedAt.Some? then Some(WholeSeconds(now - p.read.startedAt.value)) else p.read.duration)
  }

  ghost function Next(hash: Bytes -> Bytes, s: State, e: Event): State {
    var c := s.call;
    match e
    case Accept(sess, gB, protocol) => s.(call := Accepted(c, sess, gB, protocol))
    case Confirm(gA, protocol, now) => s.(call := Confirmed(hash, c, gA, protocol, now))
    case BeginReceived(task, sess) => if CanReceive(c) then s.(receiving := s.receiving[task := sess]) else s
    case EndReceived(task) =>
      if task !in s.receiving then s
      else s.(call := c.(toSess := Some(s.receiving[task])), receiving := s.receiving - {task})
    case BeginDiscard(task, byCaller, lost) =>
      if c.reason.Some? then s
      else s.(discarding := s.discarding[task := Pending(c, ReasonFor(c, byCaller, lost))])
    case EndDiscard(task, now) =>
      if task !in s.discarding then s
      else s.(call := Discarded(c, s.discarding[task], now), discarding := s.discarding - {task})
    case BeginStale(task) => if c.reason.None? && c.startedAt.None? then s.(stale := s.stale + {task}) else s
    case EndStale(task) =>
      if task !in s.stale then s else s.(call := c.(reason := Some(Hangup)), stale := s.stale - {task})
  }

  /** A call is requested with a checked protocol; with nobody to ring it is missed at once. */
  ghost predicate Requested(c: Call) {
    && Proper(c.protocol) && c.gA.None? && c.gB.None? && c.toSess.None? && c.startedAt.None? && c.duration.None?
    && (c.reason.Some? ==> c.reason.value.Missed?)
  }

  ghost function Steps(hash: Bytes -> Bytes, s: State, es: seq<Event>): State {
    if es == [] then s else Next(hash, Steps(hash, s, es[..|es| - 1]), es[|es| - 1])
  }

  ghost function Run(hash: Bytes -> Bytes, c: Call, es: seq<Event>): State {
    Steps(hash, State(c, map[], map[], {}), es)
  }

  lemma StepsLast(hash: Bytes -> Bytes, s: State, es: seq<Event>, e: Event)
    ensures Steps(hash, s, es + [e]) == Next(hash, Steps(hash, s, es), e)
  {
    assert (es + [e])[..|es|] == es;
  }

  // ----- what every interleaving keeps

  ghost predicate Sound(hash: Bytes -> Bytes, c: Call) {
    && Proper(c.protocol)
    && (c.gB.Some? ==> c.toSess.Some?)
    && (c.gA.Some? <==> c.startedAt.Some?)
    && (c.gA.Some? ==> c.gB.Some? && hash(c.gA.value) == c.gAHash && |c.protocol.versions| == 1)
  }

  /** Keys are written once, a confirmed protocol stays, and until then the layers only narrow. */
  ghost predicate Progress(c: Call, d: Call) {
    && d.gAHash == c.gAHash
    && (c.gB.Some? ==> d.gB == c.gB)
    && (c.gA.Some? ==> d.gA == c.gA && d.startedAt == c.startedAt && d.protocol == c.protocol)
    && c.protocol.minLayer <= d.protocol.minLayer && d.protocol.maxLayer <= c.protocol.maxLayer
  }

  lemma StepIsSound(hash: Bytes -> Bytes, s: State, e: Event)
    requires Sound(hash, s.call)
    ensures Sound(hash, Next(hash, s, e).call) && Progress(s.call, Next(hash, s, e).call)
  {
  }

  /** However requests interleave: the first key implies the second, a start and the announced hash; the layers are
      never empty; and a confirmed call has one library version. */
  lemma {:induction false} EveryRunIsSound(hash: Bytes -> Bytes, c: Call, es: seq<Event>)
    requires Requested(c)
    ensures Sound(hash, Run(hash, c, es).call)
  {
    if es != [] {
      EveryRunIsSound(hash, c, es[..|es| - 1]);
      StepIsSound(hash, Run(hash, c, es[..|es| - 1]), es[|es| - 1]);
    }
  }

  /** Between any two points of a run. */
  lemma {:induction false} EveryRunProgresses(hash: Bytes -> Bytes, c: Call, es: seq<Event>, n: nat)
    requires Requested(c) && n <= |es|
    ensures Progress(Run(hash, c, es[..n]).call, Run(hash, c, es).call)
    decreases |es|
  {
    if n == |es| {
      assert es[..n] == es;
    } else {
      var before := es[..|es| - 1];
      assert before[..n] == es[..n];
      EveryRunProgresses(hash, c, before, n);
      EveryRunIsSound(hash, c, before);
      StepIsSound(hash, Run(hash, c, before), es[|es| - 1]);
    }
  }

  // ----- the version a confirmed call ends up with

  /** Accepting with this protocol leads from the versions of the request to `vs`. */
  ghost predicate AcceptedWith(c: Call, e: Event, gB: Bytes, vs: set<string>) {
    e.Accept? && e.gB == gB && vs == Common(c.protocol.versions, Normalized(e.protocol.versions))
  }

  ghost predicate ConfirmedWith(e: Event, gA: Bytes, agreed: set<string>, vs: set<string>, start: Option<int>) {
    && e.Confirm? && e.gA == gA && start == Some(e.now)
    && vs == {GreatestOf(Common(agreed, Normalized(e.protocol.versions)))}
  }

  ghost predicate HasAccept(c: Call, es: seq<Event>, gB: Bytes, vs: set<string>) {
    exists a :: 0 <= a < |es| && AcceptedWith(c, es[a], gB, vs)
  }

  ghost predicate HasConfirm(c: Call, es: seq<Event>, gA: Bytes, gB: Bytes, vs: set<string>, start: Option<int>) {
    exists b, agreed ::
      0 <= b < |es| && ConfirmedWith(es[b], gA, agreed, vs, start) && HasAccept(c, es[..b], gB, agreed)
  }

  /** Where the versions of the stored protocol and the start come from. */
  ghost predicate Traced(c: Call, es: seq<Event>, d: Call) {
    && (d.gB.None? ==> d.gA.None? && d.protocol.versions == c.protocol.versions)
    && (d.gB.Some? && d.gA.None? ==> HasAccept(c, es, d.gB.value, d.protocol.versions))
    && (d.gB.Some? && d.gA.Some? ==> HasConfirm(c, es, d.gA.value, d.gB.value, d.protocol.versions, d.startedAt))
  }

  lemma AcceptStays(c: Call, es: seq<Event>, e: Event, gB: Bytes, vs: set<string>)
    requires HasAccept(c, es, gB, vs)
    ensures HasAccept(c, es + [e], gB, vs)
  {
    var a :| 0 <= a < |es| && AcceptedWith(c, es[a], gB, vs);
    assert (es + [e])[a] == es[a];
  }

  lemma ConfirmStays(c: Call, es: seq<Event>, e: Event, gA: Bytes, gB: Bytes, vs: set<string>, start: Option<int>)
    requires HasConfirm(c, es, gA, gB, vs, start)
    ensures HasConfirm(c, es + [e], gA, gB, vs, start)
  {
    var b, agreed :|
      0 <= b < |es| && ConfirmedWith(es[b], gA, agreed, vs, start) && HasAccept(c, es[..b], gB, agreed);
    assert (es + [e])[b] == es[b] && (es + [e])[..b] == es[..b];
  }

  lemma StaysTraced(c: Call, es: seq<Event>, e: Event, d: Call)
    requires Traced(c, es, d)
    ensures Traced(c, es + [e], d)
    ensures d.gB.Some? && d.gA.None? ==> HasAccept(c, es + [e], d.gB.value, d.protocol.versions)
  {
    if d.gB.Some? && d.gA.None? {
      AcceptStays(c, es, e, d.gB.value, d.protocol.versions);
    }
    if d.gB.Some? && d.gA.Some? {
      ConfirmStays(c, es, e, d.gA.value, d.gB.value, d.protocol.versions, d.startedAt);
    }
  }

  lemma StepIsTraced(hash: Bytes -> Bytes, c: Call, es: seq<Event>, s: State, e: Event)
    requires Traced(c, es, s.call)
    ensures Traced(c, es + [e], Next(hash, s, e).call)
  {
    var d, d' := s.call, Next(hash, s, e).call;
    assert (es + [e])[|es|] == e && (es + [e])[..|es|] == es;
    StaysTraced(c, es, e, d);
    if d.gB.None? && d'.gB.Some? {
      assert AcceptedWith(c, e, d'.gB.value, d'.protocol.versions);
    }
    if d.gA.None? && d'.gA.Some? {
      assert ConfirmedWith(e, d'.gA.value, d.protocol.versions, d'.protocol.versions, d'.startedAt);
    }
  }

  lemma {:induction false} EveryRunIsTraced(hash: Bytes -> Bytes, c: Call, es: seq<Event>)
    requires Requested(c)
    ensures Traced(c, es, Run(hash, c, es).call)
  {
    if es != [] {
      var n := |es| - 1;
      EveryRunIsTraced(hash, c, es[..n]);
      StepIsTraced(hash, c, es[..n], Run(hash, c, es[..n]), es[n]);
      assert es == es[..n] + [es[n]];
    }
  }

  /** In every run, a confirmed call holds the one version that is the greatest of what the caller's request, the
      callee's acceptance and the caller's confirmation have in common, merged in that order; and it started when it
      was confirmed. */
  lemma ConfirmedVersionIsGreatest(hash: Bytes -> Bytes, c: Call, es: seq<Event>) returns (a: nat, b: nat)
    requires Requested(c) && Run(hash, c, es).call.gA.Some?
    ensures a < b < |es| && es[a].Accept? && es[b].Confirm?
    ensures var d := Run(hash, c, es).call;
      && d.gB == Some(es[a].gB) && d.gA == Some(es[b].gA) && d.startedAt == Some(es[b].now)
      && d.protocol.versions
         == {GreatestOf(Common(Common(c.protocol.versions, Normalized(es[a].protocol.versions)),
                               Normalized(es[b].protocol.versions)))}
  {
    var d := Run(hash, c, es).call;
    EveryRunIsSound(hash, c, es);
    EveryRunIsTraced(hash, c, es);
    var agreed: set<string>;
    b, agreed :| 0 <= b < |es| && ConfirmedWith(es[b], d.gA.value, agreed, d.protocol.versions, d.startedAt)
                 && HasAccept(c, es[..b], d.gB.value, agreed);
    a :| 0 <= a < b && AcceptedWith(c, es[..b][a], d.gB.value, agreed);
  }

  // ----- late writes

  /** A step changes the session of an answered call exactly when it is the late write of another session. */
  lemma AnswerChangesExactly(hash: Bytes -> Bytes, s: State, e: Event)
    requires s.call.toSess.Some?
    ensures Next(hash, s, e).call.toSess != s.call.toSess
      <==> e.EndReceived? && e.task in s.receiving && s.receiving[e.task] != s.call.toSess.value
  {
  }

  /** Nobody who read the call before it was answered is still to write another session. */
  ghost predicate AnswerSettled(s: State) {
    s.call.toSess.Some? && forall task :: task in s.receiving ==> s.receiving[task] == s.call.toSess.value
  }

  lemma {:induction false} SettledAnswerStays(hash: Bytes -> Bytes, s: State, more: seq<Event>)
    requires AnswerSettled(s)
    ensures AnswerSettled(Steps(hash, s, more)) && Steps(hash, s, more).call.toSess == s.call.toSess
  {
    if more != [] {
      SettledAnswerStays(hash, s, more[..|more| - 1]);
    }
  }

  /** From an answered call on, the answering session is the same whatever follows, if and only if no request that
      read the call before is still to write another one. */
  lemma AnswerStaysExactly(hash: Bytes -> Bytes, s: State)
    requires s.call.toSess.Some?
    ensures (forall more :: Steps(hash, s, more).call.toSess == s.call.toSess) <==> AnswerSettled(s)
  {
    if AnswerSettled(s) {
      forall more ensures Steps(hash, s, more).call.toSess == s.call.toSess {
        SettledAnswerStays(hash, s, more);
      }
    } else {
      var task :| task in s.receiving && s.receiving[task] != s.call.toSess.value;
      OneStep(hash, s, EndReceived(task));
    }
  }

  lemma OneStep(hash: Bytes -> Bytes, s: State, e: Event)
    ensures Steps(hash, s, [e]) == Next(hash, s, e)
  {
    assert [e][..0] == [];
  }

  /** What a discard under way will write is what is stored already. */
  predicate WritesNothingNew(c: Call, p: Pending) {
    c.reason == Some(p.why) && p.read.startedAt.None? && p.read.duration == c.duration
  }

  /** Nothing that was read before the call was discarded is still to be written, or it would bring nothing new. */
  ghost predicate DiscardSettled(s: State) {
    && s.call.reason.Some?
    && (forall task :: task in s.discarding ==> WritesNothingNew(s.call, s.discarding[task]))
    && (s.stale != {} ==> s.call.reason.value == Hangup)
    && forall task :: task in s.receiving ==> s.call.toSess == Some(s.receiving[task])
  }

  lemma SettledStep(hash: Bytes -> Bytes, s: State, e: Event)
    requires DiscardSettled(s)
    ensures DiscardSettled(Next(hash, s, e)) && Next(hash, s, e).call == s.call
  {
    if e.EndDiscard? && e.task in s.discarding {
      assert WritesNothingNew(s.call, s.discarding[e.task]);
    }
  }

  lemma {:induction false} SettledDiscardStays(hash: Bytes -> Bytes, s: State, more: seq<Event>)
    requires DiscardSettled(s)
    ensures DiscardSettled(Steps(hash, s, more)) && Steps(hash, s, more).call == s.call
  {
    if more != [] {
      SettledDiscardStays(hash, s, more[..|more| - 1]);
      SettledStep(hash, Steps(hash, s, more[..|more| - 1]), more[|more| - 1]);
    }
  }

  /** The time an event takes from the clock. */
  predicate At(e: Event, now: int) {
    (e.Confirm? || e.EndDiscard?) ==> e.now == now
  }

  /** The clock, at `from` now, does not go back while these events happen. */
  ghost predicate ClockFrom(es: seq<Event>, from: int) {
    exists times: seq<int> ::
      && |times| == |es|
      && (forall i :: 0 <= i < |es| ==> from <= times[i] && At(es[i], times[i]))
      && (forall i, j :: 0 <= i < j < |es| ==> times[i] <= times[j])
  }

  lemma OneEventFits(e: Event, from: int)
    requires (e.Confirm? || e.EndDiscard?) ==> from <= e.now
    ensures ClockFrom([e], from)
  {
    var times := [if e.Confirm? || e.EndDiscard? then e.now else from];
    assert At([e][0], times[0]);
  }

  /** A time, not before `from`, at which the span since `start` is longer than `seconds`. */
  lemma LateEnough(start: int, seconds: int, from: int) returns (now: int)
    ensures now >= from && WholeSeconds(now - start) != seconds
  {
    var span := MICROSECONDS * ((if seconds >= 0 then seconds else 0) + 1);
    now := if from >= start + span then from else start + span;
    assert (now - start) / MICROSECONDS >= span / MICROSECONDS > seconds;
  }

  /** A pending discard that would bring something new can do so now. */
  lemma PendingDiscardChanges(hash: Bytes -> Bytes, s: State, task: nat, from: int) returns (e: Event)
    requires s.call.reason.Some? && task in s.discarding && !WritesNothingNew(s.call, s.discarding[task])
    ensures ClockFrom([e], from) && Steps(hash, s, [e]).call != s.call
  {
    var p, now := s.discarding[task], from;
    if p.read.startedAt.Some? {
      now := LateEnough(p.read.startedAt.value, if s.call.duration.Some? then s.call.duration.value else 0, from);
    }
    e := EndDiscard(task, now);
    OneEventFits(e, from);
    OneStep(hash, s, e);
    assert Discarded(s.call, p, now).reason != s.call.reason || Discarded(s.call, p, now).duration != s.call.duration;
  }

  /** From a discarded call on, whatever follows at whatever times to come leaves it as it is, if and only if no
      request that read it before it was discarded is still to write something else: another session, another
      reason, another duration, or a hang-up. */
  lemma DiscardedStaysExactly(hash: Bytes -> Bytes, s: State, from: int)
    requires s.call.reason.Some?
    ensures (forall more :: ClockFrom(more, from) ==> Steps(hash, s, more).call == s.call) <==> DiscardSettled(s)
  {
    if DiscardSettled(s) {
      forall more | ClockFrom(more, from) ensures Steps(hash, s, more).call == s.call {
        SettledDiscardStays(hash, s, more);
      }
    } else if task :| task in s.discarding && !WritesNothingNew(s.call, s.discarding[task]) {
      var e := PendingDiscardChanges(hash, s, task, from);
      assert ClockFrom([e], from);
    } else if s.stale != {} && s.call.reason.value != Hangup {
      var task :| task in s.stale;
      LateWriteChanges(hash, s, EndStale(task), from);
    } else {
      var task :| task in s.receiving && s.call.toSess != Some(s.receiving[task]);
      LateWriteChanges(hash, s, EndReceived(task), from);
    }
  }

  lemma LateWriteChanges(hash: Bytes -> Bytes, s: State, e: Event, from: int)
    requires !e.Confirm? && !e.EndDiscard? && Next(hash, s, e).call != s.call
    ensures ClockFrom([e], from) && Steps(hash, s, [e]).call != s.call
  {
    OneEventFits(e, from);
    OneStep(hash, s, e);
  }

  // ----- runs in which it happens

  /** Two sessions of the callee: one reports receiving, the other accepts before that report is written. */
  lemma ReceivedOverAccepted(hash: Bytes -> Bytes, c: Call, gB: Bytes, first: int, other: int)
    requires Requested(c) && c.reason.None? && DhBytes(gB) && first != other
    ensures
      var es := [BeginReceived(0, first), Accept(other, gB, c.protocol)];
      var a, b := Run(hash, c, es).call, Run(hash, c, es + [EndReceived(0)]).call;
      a.gB == Some(gB) && a.toSess == Some(other) && b.gB == Some(gB) && b.toSess == Some(first)
  {
    var start := State(c, map[], map[], {});
    var e0, e1 := BeginReceived(0, first), Accept(other, gB, c.protocol);
    OneStep(hash, start, e0);
    StepsLast(hash, start, [e0], e1);
    assert [e0] + [e1] == [e0, e1];
    StepsLast(hash, start, [e0, e1], EndReceived(0));
    assert c.protocol.versions * Supported() == c.protocol.versions;
    assert Checked(c.protocol) == Some(c.protocol);
  }

  lemma ThreeSteps(hash: Bytes -> Bytes, s: State, e0: Event, e1: Event, e2: Event)
    ensures Steps(hash, s, [e0, e1, e2]) == Next(hash, Next(hash, Next(hash, s, e0), e1), e2)
    ensures forall e :: Steps(hash, s, [e0, e1, e2] + [e]) == Next(hash, Steps(hash, s, [e0, e1, e2]), e)
  {
    OneStep(hash, s, e0);
    StepsLast(hash, s, [e0], e1);
    assert [e0] + [e1] == [e0, e1];
    StepsLast(hash, s, [e0, e1], e2);
    assert [e0, e1] + [e2] == [e0, e1, e2];
    forall e ensures Steps(hash, s, [e0, e1, e2] + [e]) == Next(hash, Steps(hash, s, [e0, e1, e2]), e) {
      StepsLast(hash, s, [e0, e1, e2], e);
    }
  }

  /** Callee and caller discard at the same time: the call is discarded as busy, and then again as missed. */
  lemma DiscardedTwice(hash: Bytes -> Bytes, c: Call)
    requires Requested(c) && c.reason.None?
    ensures
      var es := [BeginDiscard(0, false, false), BeginDiscard(1, true, false), EndDiscard(0, 0)];
      var a, b := Run(hash, c, es).call, Run(hash, c, es + [EndDiscard(1, 0)]).call;
      a.reason == Some(Busy) && b.reason == Some(Missed)
  {
    var start := State(c, map[], map[], {});
    ThreeSteps(hash, start, BeginDiscard(0, false, false), BeginDiscard(1, true, false), EndDiscard(0, 0));
  }

  /** The callee declines on two devices: one discard is still under way, and yet the call stays as it is. */
  lemma DeclinedTwiceStays(hash: Bytes -> Bytes, c: Call, lost: bool, from: int)
    requires Requested(c) && c.reason.None?
    ensures
      var s := Run(hash, c, [BeginDiscard(0, false, lost), BeginDiscard(1, false, lost), EndDiscard(0, from)]);
      && s.call.reason == Some(Busy) && 1 in s.discarding && DiscardSettled(s)
      && forall more :: ClockFrom(more, from) ==> Steps(hash, s, more).call == s.call
  {
    var start := State(c, map[], map[], {});
    var e0, e1, e2 := BeginDiscard(0, false, lost), BeginDiscard(1, false, lost), EndDiscard(0, from);
    ThreeSteps(hash, start, e0, e1, e2);
    DiscardedStaysExactly(hash, Steps(hash, start, [e0, e1, e2]), from);
  }

  /** The callee declines while the caller's next request hangs up the old call as stale. */
  lemma HungUpAfterDiscard(hash: Bytes -> Bytes, c: Call)
    requires Requested(c) && c.reason.None?
    ensures
      var es := [BeginStale(0), BeginDiscard(0, false, false), EndDiscard(0, 0)];
      var a, b := Run(hash, c, es).call, Run(hash, c, es + [EndStale(0)]).call;
      a.reason == Some(Busy) && b.reason == Some(Hangup)
  {
    var start := State(c, map[], map[], {});
    ThreeSteps(hash, start, BeginStale(0), BeginDiscard(0, false, false), EndDiscard(0, 0));
  }
}
