/** How many login codes may be sent: counters and a time of last sending in a cache whose entries expire. */
module RateLimit {
  import opened Containers

  /** Durations in seconds. */
  datatype Config = Config(enabled: bool, minInterval: int, ipLimit: int, ipWindow: int, keyLimit: int, keyWindow: int)

  datatype Slot =
    | SendLast(ip: string)
    | SendIp(ip: string)
    | SendKey(key: int)

  /** `expires` in milliseconds, like all points in time here. */
  datatype Entry = Entry(value: int, expires: int)

  type Cache = map<Slot, Entry>

  function Get(cache: Cache, slot: Slot, now: int): Option<int> {
    if slot in cache && now < cache[slot].expires then Some(cache[slot].value) else None
  }

  function Set(cache: Cache, slot: Slot, value: int, ttl: int, now: int): Cache {
    cache[slot := Entry(value, now + 1000 * ttl)]
  }

  /** The integer part of the clock. */
  function Seconds(now: int): int {
    now / 1000
  }

  function Bump(cache: Cache, slot: Slot, window: int, now: int): Cache {
    var current := Get(cache, slot, now);
    Set(cache, slot, if current.None? then 1 else current.value + 1, window, now)
  }

  function SecondsUntil(cache: Cache, ip: string, interval: int, now: int): Option<int> {
    var last := Get(cache, SendLast(ip), now);
    if last.None? then None
    else
      var elapsed := Seconds(now) - last.value;
      if elapsed < interval then Some(interval - elapsed) else None
  }

  predicate Full(cache: Cache, slot: Slot, limit: int, now: int) {
    var count := Get(cache, slot, now);
    count.Some? && count.value >= limit
  }

  /** The seconds of a flood error, or nothing if a code may be sent. */
  function Refusal(cfg: Config, cache: Cache, ip: string, key: Option<int>, now: int): Option<int> {
    if !cfg.enabled then None
    else
      var wait := if cfg.minInterval > 0 then SecondsUntil(cache, ip, cfg.minInterval, now) else None;
      if wait.Some? then Some(AtLeastOne(wait.value))
      else if Full(cache, SendIp(ip), cfg.ipLimit, now)
              || (key.Some? && Full(cache, SendKey(key.value), cfg.keyLimit, now))
      then
        Some(AtLeastOne(cfg.minInterval))
      else None
  }

  function AtLeastOne(x: int): int {
    if x > 1 then x else 1
  }

  function Recorded(cfg: Config, cache: Cache, ip: string, key: Option<int>, now: int): Cache {
    if !cfg.enabled then cache
    else
      var c := Bump(Set(cache, SendLast(ip), Seconds(now), cfg.ipWindow, now), SendIp(ip), cfg.ipWindow, now);
      if key.Some? then Bump(c, SendKey(key.value), cfg.keyWindow, now) else c
  }

  // ----- the functions as they change the cache

  class Limiter {
    const cfg: Config
    var cache: Cache

    constructor (cfg: Config)
      ensures this.cfg == cfg && cache == map[]
    {
      this.cfg := cfg;
      cache := map[];
    }

    method BumpCounter(slot: Slot, window: int, now: int) returns (value: int)
      modifies this
      ensures cache == Bump(old(cache), slot, window, now) && cache[slot].value == value
    {
      var current := Get(cache, slot, now);
      value := if current.None? then 1 else current.value + 1;
      cache := Set(cache, slot, value, window, now);
    }

    method CheckSendCodeAllowed(ip: string, key: Option<int>, now: int) returns (wait: Option<int>)
      ensures wait == Refusal(cfg, cache, ip, key, now)
    {
      if !cfg.enabled {
        return None;
      }
      if cfg.minInterval > 0 {
        var left := SecondsUntil(cache, ip, cfg.minInterval, now);
        if left.Some? {
          return Some(AtLeastOne(left.value));
        }
      }
      var ipCount := Get(cache, SendIp(ip), now);
      if ipCount.Some? && ipCount.value >= cfg.ipLimit {
        return Some(AtLeastOne(cfg.minInterval));
      }
      if key.Some? {
        var keyCount := Get(cache, SendKey(key.value), now);
        if keyCount.Some? && keyCount.value >= cfg.keyLimit {
          return Some(AtLeastOne(cfg.minInterval));
        }
      }
      return None;
    }

    method RecordSendCode(ip: string, key: Option<int>, now: int)
      modifies this
      ensures cache == Recorded(cfg, old(cache), ip, key, now)
    {
      if !cfg.enabled {
        return;
      }
      cache := Set(cache, SendLast(ip), Seconds(now), cfg.ipWindow, now);
      var _ := BumpCounter(SendIp(ip), cfg.ipWindow, now);
      if key.Some? {
        var _ := BumpCounter(SendKey(key.value), cfg.keyWindow, now);
      }
    }
  }

  // ----- runs

  /** A request for a code; checking and recording are one step. */
  datatype Request = Request(ip: string, key: Option<int>, now: int)

  datatype State = State(cache: Cache, sent: seq<Request>)

  function Next(cfg: Config, s: State, q: Request): State {
    if Refusal(cfg, s.cache, q.ip, q.key, q.now).Some? then s
    else State(Recorded(cfg, s.cache, q.ip, q.key, q.now), s.sent + [q])
  }

  function Run(cfg: Config, qs: seq<Request>): State {
    if qs == [] then State(map[], []) else Next(cfg, Run(cfg, qs[..|qs| - 1]), qs[|qs| - 1])
  }

  ghost predicate ClockForward(qs: seq<Request>) {
    forall i, j :: 0 <= i < j < |qs| ==> qs[i].now <= qs[j].now
  }

  /** The counters a sent code is counted in. */
  predicate Counts(q: Request, slot: Slot) {
    (slot.SendIp? && slot.ip == q.ip) || (slot.SendKey? && q.key == Some(slot.key))
  }

  function Window(cfg: Config, slot: Slot): int {
    if slot.SendKey? then cfg.keyWindow else cfg.ipWindow
  }

  function Limit(cfg: Config, slot: Slot): int {
    if slot.SendKey? then cfg.keyLimit else cfg.ipLimit
  }

  /** The times of the codes counted in a slot. */
  function Times(sent: seq<Request>, slot: Slot): seq<int> {
    if sent == [] then []
    else Times(sent[..|sent| - 1], slot) + if Counts(sent[|sent| - 1], slot) then [sent[|sent| - 1].now] else []
  }

  /** How many of the last codes followed each other within less than the window. */
  function Chain(ts: seq<int>, window: int): nat {
    if ts == [] then 0
    else
      var n := |ts| - 1;
      1 + if n > 0 && ts[n] - ts[n - 1] < 1000 * window then Chain(ts[..n], window) else 0
  }

  ghost predicate Rising(ts: seq<int>) {
    forall i, j :: 0 <= i < j < |ts| ==> ts[i] <= ts[j]
  }

  /** Even a limit of zero or less lets the first code of a chain through. */
  function Allowed(limit: int): nat {
    if limit < 1 then 1 else limit
  }

  ghost predicate CounterRight(cfg: Config, cache: Cache, ts: seq<int>, slot: Slot) {
    && (slot in cache <==> ts != [])
    && (ts != [] ==> cache[slot] == Entry(Chain(ts, Window(cfg, slot)), ts[|ts| - 1] + 1000 * Window(cfg, slot)))
    && (forall n :: 0 <= n <= |ts| ==> Chain(ts[..n], Window(cfg, slot)) <= Allowed(Limit(cfg, slot)))
    && Rising(ts)
  }

  lemma RecordCounts(cfg: Config, cache: Cache, ts: seq<int>, slot: Slot, now: int)
    requires CounterRight(cfg, cache, ts, slot) && (ts != [] ==> ts[|ts| - 1] <= now)
    requires !Full(cache, slot, Limit(cfg, slot), now)
    ensures CounterRight(cfg, Bump(cache, slot, Window(cfg, slot), now), ts + [now], slot)
  {
    var ts', w := ts + [now], Window(cfg, slot);
    assert ts'[..|ts|] == ts;
    assert ts[..|ts|] == ts;
    forall n | 0 <= n <= |ts'| ensures Chain(ts'[..n], w) <= Allowed(Limit(cfg, slot)) {
      if n <= |ts| {
        assert ts'[..n] == ts[..n];
      } else {
        assert ts'[..n] == ts';
      }
    }
  }

  /** The gap the code guarantees between two codes to one address. */
  function Gap(cfg: Config): int {
    if cfg.minInterval <= 0 then 0 else if cfg.ipWindow < cfg.minInterval then cfg.ipWindow else cfg.minInterval
  }

  ghost predicate Spaced(cfg: Config, ts: seq<int>) {
    cfg.minInterval > 0 ==> forall n :: 0 < n < |ts| ==> Seconds(ts[n]) - Seconds(ts[n - 1]) >= Gap(cfg)
  }

  ghost predicate LastRight(cfg: Config, cache: Cache, ts: seq<int>, ip: string) {
    && Spaced(cfg, ts)
    && (SendLast(ip) in cache <==> ts != [])
    && (ts != [] ==> cache[SendLast(ip)] == Entry(Seconds(ts[|ts| - 1]), ts[|ts| - 1] + 1000 * cfg.ipWindow))
  }

  ghost predicate Right(cfg: Config, s: State, now: int) {
    && (forall i :: 0 <= i < |s.sent| ==> s.sent[i].now <= now)
    && (forall slot: Slot :: !slot.SendLast? ==> CounterRight(cfg, s.cache, Times(s.sent, slot), slot))
    && (forall ip: string :: LastRight(cfg, s.cache, Times(s.sent, SendIp(ip)), ip))
  }

  lemma {:induction false} TimesBounded(sent: seq<Request>, slot: Slot, now: int)
    requires forall i :: 0 <= i < |sent| ==> sent[i].now <= now
    ensures forall i :: 0 <= i < |Times(sent, slot)| ==> Times(sent, slot)[i] <= now
  {
    if sent != [] {
      TimesBounded(sent[..|sent| - 1], slot, now);
    }
  }

  lemma RecordSpaces(cfg: Config, cache: Cache, ts: seq<int>, ip: string, now: int)
    requires LastRight(cfg, cache, ts, ip) && (ts != [] ==> ts[|ts| - 1] <= now)
    requires cfg.minInterval > 0 ==> SecondsUntil(cache, ip, cfg.minInterval, now).None?
    ensures Spaced(cfg, ts + [now])
  {
    if cfg.minInterval > 0 && ts != [] {
      var last := ts[|ts| - 1];
      if now >= last + 1000 * cfg.ipWindow {
        assert Seconds(last + 1000 * cfg.ipWindow) == Seconds(last) + cfg.ipWindow;
      }
      assert Seconds(now) - Seconds(last) >= Gap(cfg);
    }
  }

  /** Recording touches the counters of the request and no other. */
  lemma RecordedAt(cfg: Config, cache: Cache, q: Request, slot: Slot)
    requires cfg.enabled && !slot.SendLast?
    ensures
      var after := Recorded(cfg, cache, q.ip, q.key, q.now);
      if Counts(q, slot) then slot in after && after[slot] == Bump(cache, slot, Window(cfg, slot), q.now)[slot]
      else (slot in after <==> slot in cache) && (slot in cache ==> after[slot] == cache[slot])
  {
  }

  lemma AgreeAt(cfg: Config, a: Cache, b: Cache, ts: seq<int>, slot: Slot)
    requires CounterRight(cfg, a, ts, slot) && (slot in a <==> slot in b) && (slot in a ==> a[slot] == b[slot])
    ensures CounterRight(cfg, b, ts, slot)
  {
  }

  lemma CountersStay(cfg: Config, s: State, q: Request, slot: Slot)
    requires cfg.enabled && Right(cfg, s, q.now) && !slot.SendLast?
    requires Refusal(cfg, s.cache, q.ip, q.key, q.now).None?
    ensures CounterRight(cfg, Recorded(cfg, s.cache, q.ip, q.key, q.now), Times(s.sent + [q], slot), slot)
  {
    var ts, after := Times(s.sent, slot), Recorded(cfg, s.cache, q.ip, q.key, q.now);
    assert (s.sent + [q])[..|s.sent|] == s.sent;
    RecordedAt(cfg, s.cache, q, slot);
    if Counts(q, slot) {
      TimesBounded(s.sent, slot, q.now);
      RecordCounts(cfg, s.cache, ts, slot, q.now);
      AgreeAt(cfg, Bump(s.cache, slot, Window(cfg, slot), q.now), after, ts + [q.now], slot);
    } else {
      AgreeAt(cfg, s.cache, after, ts, slot);
      assert Times(s.sent + [q], slot) == ts;
    }
  }

  lemma LastStays(cfg: Config, s: State, q: Request, ip: string)
    requires cfg.enabled && Right(cfg, s, q.now)
    requires Refusal(cfg, s.cache, q.ip, q.key, q.now).None?
    ensures LastRight(cfg, Recorded(cfg, s.cache, q.ip, q.key, q.now), Times(s.sent + [q], SendIp(ip)), ip)
  {
    TimesMore(s.sent, q, SendIp(ip));
    assert LastRight(cfg, s.cache, Times(s.sent, SendIp(ip)), ip);
    if ip == q.ip {
      TimesBounded(s.sent, SendIp(ip), q.now);
      OwnLast(cfg, s.cache, Times(s.sent, SendIp(ip)), q);
    } else {
      OtherLast(cfg, s.cache, q, ip);
    }
  }

  /** Recording a code renews the time of the last one to its address. */
  lemma OwnLast(cfg: Config, cache: Cache, ts: seq<int>, q: Request)
    requires cfg.enabled && LastRight(cfg, cache, ts, q.ip) && (ts != [] ==> ts[|ts| - 1] <= q.now)
    requires Refusal(cfg, cache, q.ip, q.key, q.now).None?
    ensures LastRight(cfg, Recorded(cfg, cache, q.ip, q.key, q.now), ts + [q.now], q.ip)
  {
    RecordSpaces(cfg, cache, ts, q.ip, q.now);
  }

  /** Recording a code leaves what is known of other addresses. */
  lemma OtherLast(cfg: Config, cache: Cache, q: Request, ip: string)
    requires ip != q.ip
    ensures var r := Recorded(cfg, cache, q.ip, q.key, q.now);
      && (SendLast(ip) in r <==> SendLast(ip) in cache)
      && (SendLast(ip) in r ==> r[SendLast(ip)] == cache[SendLast(ip)])
  {
  }

  lemma TimesMore(sent: seq<Request>, q: Request, slot: Slot)
    ensures Times(sent + [q], slot) == Times(sent, slot) + if Counts(q, slot) then [q.now] else []
  {
    assert (sent + [q])[..|sent|] == sent;
  }

  lemma StepKeeps(cfg: Config, s: State, q: Request)
    requires cfg.enabled && Right(cfg, s, q.now)
    ensures Right(cfg, Next(cfg, s, q), q.now)
  {
    if Refusal(cfg, s.cache, q.ip, q.key, q.now).None? {
      forall slot: Slot | !slot.SendLast?
        ensures CounterRight(cfg, Next(cfg, s, q).cache, Times(Next(cfg, s, q).sent, slot), slot)
      {
        CountersStay(cfg, s, q, slot);
      }
      forall ip: string ensures LastRight(cfg, Next(cfg, s, q).cache, Times(Next(cfg, s, q).sent, SendIp(ip)), ip) {
        LastStays(cfg, s, q, ip);
      }
    }
  }

  lemma {:induction false} RunKeeps(cfg: Config, qs: seq<Request>, now: int)
    requires cfg.enabled && ClockForward(qs) && (qs != [] ==> qs[|qs| - 1].now <= now)
    ensures Right(cfg, Run(cfg, qs), now)
  {
    if qs == [] {
      forall slot: Slot ensures Times([], slot) == [] {
      }
    } else {
      var q := qs[|qs| - 1];
      RunKeeps(cfg, qs[..|qs| - 1], q.now);
      StepKeeps(cfg, Run(cfg, qs[..|qs| - 1]), q);
    }
  }

  // ----- what is guaranteed

  lemma {:induction false} ChainCovers(ts: seq<int>, window: int, i: nat)
    requires Rising(ts) && i < |ts| && ts[|ts| - 1] - ts[i] < 1000 * window
    ensures Chain(ts, window) >= |ts| - i
    decreases |ts|
  {
    var n := |ts| - 1;
    if i < n {
      assert ts[i] <= ts[n - 1] <= ts[n];
      ChainCovers(ts[..n], window, i);
    }
  }

  /** In every run, of the codes counted for one address or one key, any that lie within one window are no more
      than the limit, or one if the limit is less. */
  lemma WindowHolds(cfg: Config, qs: seq<Request>, slot: Slot, i: nat, j: nat)
    requires cfg.enabled && ClockForward(qs) && !slot.SendLast?
    requires var ts := Times(Run(cfg, qs).sent, slot); i <= j < |ts| && ts[j] - ts[i] < 1000 * Window(cfg, slot)
    ensures j - i + 1 <= Allowed(Limit(cfg, slot))
  {
    if qs != [] {
      RunKeeps(cfg, qs, qs[|qs| - 1].now);
      var ts := Times(Run(cfg, qs).sent, slot);
      assert CounterRight(cfg, Run(cfg, qs).cache, ts, slot);
      ChainBounds(ts, Window(cfg, slot), Allowed(Limit(cfg, slot)), i, j);
    }
  }

  lemma ChainBounds(ts: seq<int>, window: int, most: nat, i: nat, j: nat)
    requires Rising(ts) && i <= j < |ts| && ts[j] - ts[i] < 1000 * window
    requires forall n :: 0 <= n <= |ts| ==> Chain(ts[..n], window) <= most
    ensures j - i + 1 <= most
  {
    ChainCovers(ts[..j + 1], window, i);
  }

  /** Codes to one address are sent at least the minimum interval apart, or the window if that is shorter. */
  lemma IntervalHolds(cfg: Config, qs: seq<Request>, ip: string, n: nat)
    requires cfg.enabled && ClockForward(qs) && cfg.minInterval > 0
    requires 0 < n < |Times(Run(cfg, qs).sent, SendIp(ip))|
    ensures var ts := Times(Run(cfg, qs).sent, SendIp(ip));
      Seconds(ts[n]) - Seconds(ts[n - 1]) >= Gap(cfg)
  {
    if qs != [] {
      RunKeeps(cfg, qs, qs[|qs| - 1].now);
      assert LastRight(cfg, Run(cfg, qs).cache, Times(Run(cfg, qs).sent, SendIp(ip)), ip);
    }
  }

  /** The first code, and the next as soon as the window is over. */
  function TwoCodes(cfg: Config, ip: string, now: int): seq<Request> {
    [Request(ip, None, now), Request(ip, None, now + 1000 * if cfg.ipWindow > 0 then cfg.ipWindow else 0)]
  }

  /** With a window shorter than the minimum interval, two codes a window apart are both sent. */
  lemma ShortWindowBreaksInterval(cfg: Config, ip: string, now: int)
    requires cfg.enabled && cfg.minInterval > 0 && cfg.ipWindow < cfg.minInterval
    ensures var qs := TwoCodes(cfg, ip, now);
      && ClockForward(qs) && Run(cfg, qs).sent == qs
      && Seconds(qs[1].now) - Seconds(qs[0].now) < cfg.minInterval
  {
    var qs := TwoCodes(cfg, ip, now);
    RunOfTwo(cfg, qs[0], qs[1]);
    FirstIsSent(cfg, qs[0]);
    SentAfterWindow(cfg, Next(cfg, State(map[], []), qs[0]), qs[1]);
    assert cfg.ipWindow > 0 ==> Seconds(now + 1000 * cfg.ipWindow) == Seconds(now) + cfg.ipWindow;
  }

  lemma RunOfTwo(cfg: Config, a: Request, b: Request)
    ensures Run(cfg, [a, b]) == Next(cfg, Next(cfg, State(map[], []), a), b)
  {
    assert [a, b][..1] == [a] && [a][..0] == [];
    assert Run(cfg, [a]) == Next(cfg, Run(cfg, [a][..0]), a);
  }

  lemma FirstIsSent(cfg: Config, a: Request)
    requires cfg.enabled
    ensures var s := Next(cfg, State(map[], []), a);
      && s.sent == [a] && SendLast(a.ip) in s.cache && SendIp(a.ip) in s.cache
      && s.cache[SendLast(a.ip)].expires == s.cache[SendIp(a.ip)].expires == a.now + 1000 * cfg.ipWindow
  {
  }

  lemma SentAfterWindow(cfg: Config, s: State, b: Request)
    requires SendLast(b.ip) in s.cache && s.cache[SendLast(b.ip)].expires <= b.now
    requires SendIp(b.ip) in s.cache && s.cache[SendIp(b.ip)].expires <= b.now && b.key.None?
    ensures Next(cfg, s, b).sent == s.sent + [b]
  {
  }

  /** In no run are two codes to one address closer than the minimum interval, by the clock's seconds. */
  ghost predicate KeepsInterval(cfg: Config) {
    forall qs, ip, n {:trigger Times(Run(cfg, qs).sent, SendIp(ip))[n]} ::
      ClockForward(qs) && 0 < n < |Times(Run(cfg, qs).sent, SendIp(ip))| ==>
        var ts := Times(Run(cfg, qs).sent, SendIp(ip)); Seconds(ts[n]) - Seconds(ts[n - 1]) >= cfg.minInterval
  }

  /** The interval is kept in every run if and only if the window is no shorter. */
  lemma IntervalIsKeptExactly(cfg: Config)
    requires cfg.enabled && cfg.minInterval > 0
    ensures KeepsInterval(cfg) <==> cfg.ipWindow >= cfg.minInterval
  {
    if cfg.ipWindow >= cfg.minInterval {
      forall qs, ip, n | ClockForward(qs) && 0 < n < |Times(Run(cfg, qs).sent, SendIp(ip))|
        ensures var ts := Times(Run(cfg, qs).sent, SendIp(ip)); Seconds(ts[n]) - Seconds(ts[n - 1]) >= cfg.minInterval
      {
        IntervalHolds(cfg, qs, ip, n);
      }
    } else {
      var qs := TwoCodes(cfg, "", 0);
      ShortWindowBreaksInterval(cfg, "", 0);
      TimesOfTwo(qs[0], qs[1], "");
      assert Times(Run(cfg, qs).sent, SendIp(""))[1] == qs[1].now;
    }
  }

  lemma TimesOfTwo(a: Request, b: Request, ip: string)
    requires a.ip == ip && b.ip == ip
    ensures Times([a, b], SendIp(ip)) == [a.now, b.now]
  {
    assert [a, b][..1] == [a] && [a][..0] == [];
    assert Times([a][..0], SendIp(ip)) == [];
    assert Times([a], SendIp(ip)) == [a.now];
  }

  // ----- when a code is refused, told by the times of the codes sent

  /** The last of these codes was sent less than a window ago. */
  predicate Alive(ts: seq<int>, window: int, now: int) {
    ts != [] && now < ts[|ts| - 1] + 1000 * window
  }

  /** As many codes as the limit followed each other, the last of them less than a window ago. */
  predicate Used(ts: seq<int>, window: int, limit: int, now: int) {
    Alive(ts, window, now) && Chain(ts, window) >= limit
  }

  /** The last code was sent less than a window ago and less than the minimum interval, in whole seconds. */
  predicate TooSoon(cfg: Config, ts: seq<int>, now: int) {
    && cfg.minInterval > 0 && Alive(ts, cfg.ipWindow, now)
    && now / 1000 - ts[|ts| - 1] / 1000 < cfg.minInterval
  }

  lemma FullIsUsed(cfg: Config, cache: Cache, ts: seq<int>, slot: Slot, now: int)
    requires CounterRight(cfg, cache, ts, slot)
    ensures Full(cache, slot, Limit(cfg, slot), now) <==> Used(ts, Window(cfg, slot), Limit(cfg, slot), now)
  {
  }

  /** The cache knows when the last of these codes was sent. */
  ghost predicate LastKept(cfg: Config, cache: Cache, ts: seq<int>, ip: string) {
    && (SendLast(ip) in cache <==> ts != [])
    && (ts != [] ==> cache[SendLast(ip)] == Entry(ts[|ts| - 1] / 1000, ts[|ts| - 1] + 1000 * cfg.ipWindow))
  }

  lemma LastIsKept(cfg: Config, qs: seq<Request>, ip: string, now: int)
    requires cfg.enabled && ClockForward(qs) && (qs != [] ==> qs[|qs| - 1].now <= now)
    ensures LastKept(cfg, Run(cfg, qs).cache, Times(Run(cfg, qs).sent, SendIp(ip)), ip)
  {
    RunKeeps(cfg, qs, now);
    assert LastRight(cfg, Run(cfg, qs).cache, Times(Run(cfg, qs).sent, SendIp(ip)), ip);
  }

  lemma WaitIsTooSoon(cfg: Config, cache: Cache, ts: seq<int>, ip: string, now: int)
    requires LastKept(cfg, cache, ts, ip) && cfg.minInterval > 0
    ensures SecondsUntil(cache, ip, cfg.minInterval, now) ==
      if TooSoon(cfg, ts, now) then Some(cfg.minInterval - (now / 1000 - ts[|ts| - 1] / 1000)) else None
  {
  }

  lemma SlotTells(cfg: Config, qs: seq<Request>, slot: Slot, now: int)
    requires cfg.enabled && ClockForward(qs) && (qs != [] ==> qs[|qs| - 1].now <= now) && !slot.SendLast?
    ensures var s := Run(cfg, qs);
      Full(s.cache, slot, Limit(cfg, slot), now) <==>
      Used(Times(s.sent, slot), Window(cfg, slot), Limit(cfg, slot), now)
  {
    RunKeeps(cfg, qs, now);
    FullIsUsed(cfg, Run(cfg, qs).cache, Times(Run(cfg, qs).sent, slot), slot, now);
  }

  lemma LastTells(cfg: Config, qs: seq<Request>, ip: string, now: int)
    requires cfg.enabled && ClockForward(qs) && (qs != [] ==> qs[|qs| - 1].now <= now) && cfg.minInterval > 0
    ensures var s := Run(cfg, qs);
      var byIp := Times(s.sent, SendIp(ip));
      SecondsUntil(s.cache, ip, cfg.minInterval, now) ==
        if TooSoon(cfg, byIp, now) then Some(cfg.minInterval - (now / 1000 - byIp[|byIp| - 1] / 1000)) else None
  {
    LastIsKept(cfg, qs, ip, now);
    WaitIsTooSoon(cfg, Run(cfg, qs).cache, Times(Run(cfg, qs).sent, SendIp(ip)), ip, now);
  }

  /** In every run a request is refused if and only if the last code to its address is too recent, or the address or
      the key has used its limit; the first makes it wait for the rest of the interval, the others for the interval or
      a second. A limiter that is switched off refuses nothing. */
  lemma RefusedExactly(cfg: Config, qs: seq<Request>, q: Request)
    requires ClockForward(qs + [q])
    ensures
      var s := Run(cfg, qs);
      var byIp := Times(s.sent, SendIp(q.ip));
      Refusal(cfg, s.cache, q.ip, q.key, q.now) ==
        if !cfg.enabled then None
        else if TooSoon(cfg, byIp, q.now) then Some(cfg.minInterval - (q.now / 1000 - byIp[|byIp| - 1] / 1000))
        else if Used(byIp, cfg.ipWindow, cfg.ipLimit, q.now)
                || (q.key.Some? && Used(Times(s.sent, SendKey(q.key.value)), cfg.keyWindow, cfg.keyLimit, q.now))
        then Some(if cfg.minInterval > 1 then cfg.minInterval else 1)
        else None
  {
    if cfg.enabled {
      Earlier(qs, q);
      SlotTells(cfg, qs, SendIp(q.ip), q.now);
      if cfg.minInterval > 0 {
        LastTells(cfg, qs, q.ip, q.now);
      }
      if q.key.Some? {
        SlotTells(cfg, qs, SendKey(q.key.value), q.now);
      }
    }
  }

  lemma Earlier(qs: seq<Request>, q: Request)
    requires ClockForward(qs + [q])
    ensures ClockForward(qs) && (qs != [] ==> qs[|qs| - 1].now <= q.now)
  {
    var all := qs + [q];
    assert forall i :: 0 <= i < |qs| ==> all[i] == qs[i];
    assert all[|qs|] == q;
  }
}
