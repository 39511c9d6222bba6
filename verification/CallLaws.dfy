/** What each request does to a stored call, told by the fields of the call and of the request alone. */
module CallLaws {
  import opened Containers
  import opened CallHandshake

  // ----- what the two sides have in common

  predicate InBounds(p: Protocol) {
    (p.p2p || p.reflector) && 65 <= p.minLayer <= p.maxLayer <= 200
  }

  predicate Covers(p: Protocol, layer: int) {
    p.minLayer <= layer <= p.maxLayer
  }

  ghost predicate ShareLayer(a: Protocol, b: Protocol) {
    exists layer :: Covers(a, layer) && Covers(b, layer)
  }

  ghost predicate KnowsSome(versions: set<string>) {
    exists w :: w in versions && w in NUMBERS
  }

  /** A request counts as offering the versions it names that are known, or the oldest one if none of them is. */
  ghost predicate Offers(p: Protocol, v: string) {
    if KnowsSome(p.versions) then v in p.versions && v in NUMBERS else v == "2.4.4"
  }

  ghost predicate OnBothSides(a: Protocol, b: Protocol, v: string) {
    v in NUMBERS && v in a.versions && Offers(b, v)
  }

  ghost predicate OnSomeSide(a: Protocol, b: Protocol, v: string) {
    v in NUMBERS && (v in a.versions || Offers(b, v))
  }

  /** Versions that both sides have are in common; if there is none, those that one of them has. */
  ghost predicate InCommon(a: Protocol, b: Protocol, v: string) {
    if exists w :: OnBothSides(a, b, w) then OnBothSides(a, b, v) else OnSomeSide(a, b, v)
  }

  /** Protocol `d` takes the layers that both have, and each way to connect that either has. */
  ghost predicate Unites(a: Protocol, b: Protocol, d: Protocol) {
    && (d.p2p <==> a.p2p || b.p2p) && (d.reflector <==> a.reflector || b.reflector)
    && forall layer :: Covers(d, layer) <==> Covers(a, layer) && Covers(b, layer)
  }

  lemma CommonIsInCommon(a: Protocol, b: Protocol, v: string)
    ensures v in Common(a.versions, Normalized(b.versions)) <==> InCommon(a, b, v)
  {
    assert forall w :: w in Normalized(b.versions) <==> Offers(b, w) by {
      forall w ensures w in Normalized(b.versions) <==> Offers(b, w) {
        NormalizedIsOffered(b, w);
      }
    }
    var both := a.versions * Normalized(b.versions) * Supported();
    assert forall w :: w in both <==> OnBothSides(a, b, w);
    if both == {} {
      var w :| w in Normalized(b.versions);
      assert w in (a.versions + Normalized(b.versions)) * Supported();
    }
  }

  lemma NormalizedIsOffered(b: Protocol, v: string)
    ensures v in Normalized(b.versions) <==> Offers(b, v)
  {
    assert KnowsSome(b.versions) <==> b.versions * Supported() != {} by {
      if w :| w in b.versions && w in NUMBERS {
        assert w in b.versions * Supported();
      }
    }
  }

  lemma MergedUnites(a: Protocol, b: Protocol, final: bool)
    requires InBounds(b)
    ensures Checked(b).Some?
    ensures var m := Merged(a, Checked(b).value, final);
      && (m.Some? <==> ShareLayer(a, b)) && (m.Some? ==> Unites(a, b, m.value))
  {
    var lo := if a.minLayer > b.minLayer then a.minLayer else b.minLayer;
    var hi := if a.maxLayer < b.maxLayer then a.maxLayer else b.maxLayer;
    if lo <= hi {
      assert Covers(a, lo) && Covers(b, lo);
    }
  }

  // ----- accepting and confirming

  /** Accepting changes the call if and only if it is neither discarded nor accepted, no other session has received it,
      the key has 1 to 256 bytes, the protocol is in bounds, and the two have a layer in common. Then it stores the
      session, the key, and what the protocols have in common, and nothing else. */
  lemma AcceptExactly(hash: Bytes -> Bytes, s: State, sess: int, gB: Bytes, protocol: Protocol)
    ensures var c, t := s.call, Next(hash, s, Accept(sess, gB, protocol));
      && t == s.(call := t.call)
      && (t.call != c <==>
            && c.reason.None? && c.gB.None? && (c.toSess.Some? ==> c.toSess.value == sess)
            && 1 <= |gB| <= 256 && InBounds(protocol) && ShareLayer(c.protocol, protocol))
      && (t.call != c ==>
            && t.call == c.(toSess := Some(sess), gB := Some(gB), protocol := t.call.protocol)
            && Unites(c.protocol, protocol, t.call.protocol)
            && forall v :: v in t.call.protocol.versions <==> InCommon(c.protocol, protocol, v))
  {
    if InBounds(protocol) {
      MergedUnites(s.call.protocol, protocol, false);
      forall v ensures
        v in Common(s.call.protocol.versions, Normalized(protocol.versions)) <==> InCommon(s.call.protocol, protocol, v)
      {
        CommonIsInCommon(s.call.protocol, protocol, v);
      }
    }
  }

  /** The numbers of `v` come first or are the same where they first differ from those of `w`. */
  ghost predicate NoNewer(v: string, w: string)
    requires v in NUMBERS && w in NUMBERS
  {
    var a, b := NUMBERS[v], NUMBERS[w];
    a == b || exists i :: 0 <= i < |a| && i < |b| && a[..i] == b[..i] && a[i] < b[i]
  }

  /** Confirming changes the call if and only if it is accepted, neither confirmed nor discarded, the key has 1 to 256
      bytes and the announced hash, the protocol is in bounds, and the two have a layer in common. Then it stores the
      key, the time, what the protocols have in common with the newest version of it, and nothing else. */
  lemma ConfirmExactly(hash: Bytes -> Bytes, s: State, gA: Bytes, protocol: Protocol, now: int)
    ensures var c, t := s.call, Next(hash, s, Confirm(gA, protocol, now));
      && t == s.(call := t.call)
      && (t.call != c <==>
            && c.reason.None? && c.gB.Some? && c.gA.None? && hash(gA) == c.gAHash
            && 1 <= |gA| <= 256 && InBounds(protocol) && ShareLayer(c.protocol, protocol))
      && (t.call != c ==>
            && t.call == c.(gA := Some(gA), startedAt := Some(now), protocol := t.call.protocol)
            && Unites(c.protocol, protocol, t.call.protocol)
            && exists v :: v in NUMBERS && t.call.protocol.versions == {v} && InCommon(c.protocol, protocol, v)
                 && forall w :: w in NUMBERS && InCommon(c.protocol, protocol, w) ==> NoNewer(w, v))
  {
    if InBounds(protocol) {
      MergedUnites(s.call.protocol, protocol, true);
      var common := Common(s.call.protocol.versions, Normalized(protocol.versions));
      var v := GreatestOf(common);
      CommonIsInCommon(s.call.protocol, protocol, v);
      forall w | w in NUMBERS && InCommon(s.call.protocol, protocol, w) ensures NoNewer(w, v) {
        CommonIsInCommon(s.call.protocol, protocol, w);
        AtMostIsNoNewer(w, v);
      }
    }
  }

  lemma AtMostIsNoNewer(v: string, w: string)
    requires v in NUMBERS && w in NUMBERS && AtMost(NUMBERS[v], NUMBERS[w])
    ensures NoNewer(v, w)
  {
    var i := FirstDifference(NUMBERS[v], NUMBERS[w]);
  }

  lemma {:induction false} FirstDifference(a: seq<nat>, b: seq<nat>) returns (i: nat)
    requires AtMost(a, b)
    ensures i <= |a| && i <= |b| && a[..i] == b[..i]
    ensures i == |a| || (i < |b| && a[i] < b[i])
  {
    if a == [] || a[0] < b[0] {
      i := 0;
    } else {
      var k := FirstDifference(a[1..], b[1..]);
      i := k + 1;
      assert a[..i] == [a[0]] + a[1..][..k] && b[..i] == [b[0]] + b[1..][..k];
    }
  }

  // ----- the numbers of a version

  function Decimal(n: nat): string {
    if n < 10 then [('0' as int + n) as char] else Decimal(n / 10) + [('0' as int + n % 10) as char]
  }

  function Dotted(parts: seq<nat>): string {
    if |parts| == 0 then ""
    else if |parts| == 1 then Decimal(parts[0])
    else Decimal(parts[0]) + "." + Dotted(parts[1..])
  }

  /** The numbers of a known version are those it is written with. */
  lemma NumbersAreParts(v: string)
    requires v in NUMBERS
    ensures |NUMBERS[v]| == 3 && Dotted(NUMBERS[v]) == v
  {
    var n := NUMBERS[v];
    DottedThree(n[0], n[1], n[2]);
    assert n == [n[0], n[1], n[2]];
    assert Decimal(1) == "1";
  }

  lemma DottedThree(a: nat, b: nat, c: nat)
    ensures Dotted([a, b, c]) == Decimal(a) + "." + (Decimal(b) + "." + Decimal(c))
  {
    var all, last := [a, b, c], [b, c];
    assert all[1..] == last && last[1..] == [c];
    assert Dotted([c]) == Decimal(c) && Dotted(last) == Decimal(b) + "." + Dotted([c]);
  }

  // ----- requests that read first and write later

  /** Receiving reads a call that is neither discarded, accepted nor received, and later stores its session, whatever
      has become of the call. */
  lemma ReceivedExactly(hash: Bytes -> Bytes, s: State, task: nat, sess: int)
    ensures var c := s.call;
      Next(hash, s, BeginReceived(task, sess)) ==
        if c.reason.None? && c.gB.None? && c.toSess.None? then s.(receiving := s.receiving[task := sess]) else s
    ensures var t := Next(hash, s, EndReceived(task));
      if task in s.receiving then
        t == s.(call := s.call.(toSess := Some(s.receiving[task])), receiving := s.receiving - {task})
      else t == s
  {
  }

  /** The whole seconds of a span, without the fraction. */
  predicate Truncates(span: int, seconds: int) {
    if span >= 0 then seconds * 1_000_000 <= span < (seconds + 1) * 1_000_000
    else (seconds - 1) * 1_000_000 < span <= seconds * 1_000_000
  }

  /** A discard of a call that is not discarded settles the reason when it reads the call: missed by the caller or busy
      by the callee if nobody answered, else lost or hung up as the request says. When it writes, it stores that reason
      and the whole seconds from the start it read, if it read one, and nothing else. */
  lemma DiscardExactly(hash: Bytes -> Bytes, s: State, task: nat, byCaller: bool, lost: bool, now: int)
    ensures var c, t := s.call, Next(hash, s, BeginDiscard(task, byCaller, lost));
      && t == s.(discarding := t.discarding)
      && (c.reason.Some? ==> t == s)
      && (c.reason.None? ==>
            && t.discarding == s.discarding[task := Pending(c, t.discarding[task].why)]
            && (c.toSess.None? ==> t.discarding[task].why == if byCaller then Missed else Busy)
            && (c.toSess.Some? ==> t.discarding[task].why == if lost then Disconnected else Hangup))
    ensures var c, t := s.call, Next(hash, s, EndDiscard(task, now));
      if task !in s.discarding then t == s
      else
        var p := s.discarding[task];
        && t == s.(call := c.(reason := Some(p.why), duration := t.call.duration), discarding := s.discarding - {task})
        && (p.read.startedAt.None? ==> t.call.duration == p.read.duration)
        && (p.read.startedAt.Some? ==>
              t.call.duration.Some? && Truncates(now - p.read.startedAt.value, t.call.duration.value))
  {
    if task in s.discarding && s.discarding[task].read.startedAt.Some? {
      SecondsTruncate(now - s.discarding[task].read.startedAt.value);
    }
  }

  lemma SecondsTruncate(span: int)
    ensures Truncates(span, WholeSeconds(span))
  {
  }

  /** A call found to be neither discarded nor started is hung up later, whatever has become of it. */
  lemma StaleExactly(hash: Bytes -> Bytes, s: State, task: nat)
    ensures Next(hash, s, BeginStale(task)) ==
      if s.call.reason.None? && s.call.startedAt.None? then s.(stale := s.stale + {task}) else s
    ensures var t := Next(hash, s, EndStale(task));
      t == if task in s.stale then s.(call := s.call.(reason := Some(Hangup)), stale := s.stale - {task}) else s
  {
  }
}
