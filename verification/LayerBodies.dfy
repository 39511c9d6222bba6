/** Whole bodies from what is written for each entry, and that the condition makes them equal. */
module LayerBodies {
  import opened Containers
  import opened TlSchema
  import opened TlCode
  import opened TlPrimitives
  import opened LayerMergeFacts
  import opened LayerDowngrade

  // ----- from pieces to bodies

  function DownRun(c: Scene, k: nat): seq<byte>
    requires c.vs != [] && k <= |c.ss|
  {
    Run(DownUpTo(c.ss, k, c.Base(), c.vs[0].minLayer, c.vs[|c.vs| - 1].layer), c.layer, c.env, c.enc)
  }

  function PlainRun(c: Scene, q: nat): seq<byte>
    requires c.j < |c.vs| && q <= |c.Old()|
  {
    Run(PlainUpTo(c.Old(), q), c.layer, c.Env'(), c.enc)
  }

  lemma StepDown(c: Scene, k: nat)
    requires c.vs != [] && k < |c.ss|
    ensures DownRun(c, k + 1) == DownRun(c, k) + c.Down(k)
  {
    var base, oldest, top := c.Base(), c.vs[0].minLayer, c.vs[|c.vs| - 1].layer;
    RunConcat(DownUpTo(c.ss, k, base, oldest, top), DownStmt(c.ss, k, base, oldest, top), c.layer, c.env, c.enc);
  }

  lemma StepPlain(c: Scene, k: nat)
    requires c.j < |c.vs| && k < |c.ss| && View(c.ss, c.layer) == c.Old()
    ensures Rank(c.ss, k, c.layer) <= Rank(c.ss, k + 1, c.layer) <= |c.Old()|
    ensures c.Seen(k) ==> Rank(c.ss, k, c.layer) < |c.Old()|
    ensures PlainRun(c, Rank(c.ss, k + 1, c.layer)) == PlainRun(c, Rank(c.ss, k, c.layer)) + c.Plain(k)
  {
    RankIs(c.ss, k, c.layer);
    if c.Seen(k) {
      OneMorePlain(c, Rank(c.ss, k, c.layer));
    }
  }

  lemma OneMorePlain(c: Scene, q: nat)
    requires c.j < |c.vs| && q < |c.Old()|
    ensures PlainRun(c, q + 1) == PlainRun(c, q) + Run(PlainStmt(c.Old(), q), c.layer, c.Env'(), c.enc)
  {
    RunConcat(PlainUpTo(c.Old(), q), PlainStmt(c.Old(), q), c.layer, c.Env'(), c.enc);
  }

  function Flat(pieces: seq<seq<byte>>): seq<byte> {
    if pieces == [] then [] else Flat(pieces[..|pieces| - 1]) + pieces[|pieces| - 1]
  }

  lemma CancelRight(a: seq<byte>, b: seq<byte>, t: seq<byte>)
    requires a + t == b + t
    ensures a == b
  {
    assert |a| == |b|;
    assert a == (a + t)[..|a|] && b == (b + t)[..|b|];
  }

  lemma CancelLeft(t: seq<byte>, a: seq<byte>, b: seq<byte>)
    requires t + a == t + b
    ensures a == b
  {
    assert a == (t + a)[|t|..] && b == (t + b)[|t|..];
  }

  /** Lists of pieces that differ in one place only have different texts. */
  lemma {:induction false} FlatTells(a: seq<seq<byte>>, b: seq<seq<byte>>, x: nat)
    requires |a| == |b| && x < |a| && forall m :: 0 <= m < |a| && m != x ==> a[m] == b[m]
    requires Flat(a) == Flat(b)
    ensures a[x] == b[x]
    decreases |a|
  {
    var n := |a| - 1;
    if x == n {
      assert a[..n] == b[..n];
      CancelLeft(Flat(a[..n]), a[n], b[n]);
    } else {
      CancelRight(Flat(a[..n]), Flat(b[..n]), a[n]);
      FlatTells(a[..n], b[..n], x);
    }
  }

  lemma {:induction false} FlatStart(a: seq<seq<byte>>, x: nat)
    requires x <= |a|
    ensures Flat(a[..x]) <= Flat(a)
    decreases |a|
  {
    if x == |a| {
      assert a[..x] == a;
    } else {
      var n := |a| - 1;
      FlatStart(a[..n], x);
      assert a[..n][..x] == a[..x];
    }
  }

  /** Lists that agree up to a piece of equal length but different content have different texts. */
  lemma FlatDiffers(a: seq<seq<byte>>, b: seq<seq<byte>>, x: nat)
    requires |a| == |b| && x < |a| && forall m :: 0 <= m < x ==> a[m] == b[m]
    requires |a[x]| == |b[x]| && a[x] != b[x]
    ensures Flat(a) != Flat(b)
  {
    if Flat(a) == Flat(b) {
      FlatStart(a, x + 1);
      FlatStart(b, x + 1);
      assert a[..x] == b[..x] && a[..x + 1][..x] == a[..x] && b[..x + 1][..x] == b[..x];
      var p, q := Flat(a[..x + 1]), Flat(b[..x + 1]);
      assert |p| == |q| && p == Flat(a)[..|p|] == q;
      CancelLeft(Flat(a[..x]), a[x], b[x]);
    }
  }

  function DownPieces(c: Scene, k: nat): (r: seq<seq<byte>>)
    requires c.vs != [] && k <= |c.ss|
    ensures |r| == k && forall m :: 0 <= m < k ==> r[m] == c.Down(m)
  {
    seq(k, m requires 0 <= m < k => c.Down(m))
  }

  ghost predicate Ranked(c: Scene)
    requires c.j < |c.vs|
  {
    forall m :: 0 <= m < |c.ss| && c.Seen(m) ==> Rank(c.ss, m, c.layer) < |c.Old()|
  }

  ghost function PlainPieces(c: Scene, k: nat): (r: seq<seq<byte>>)
    requires c.j < |c.vs| && k <= |c.ss| && Ranked(c)
    ensures |r| == k && forall m :: 0 <= m < k ==> r[m] == c.Plain(m)
  {
    seq(k, m requires 0 <= m < k => c.Plain(m))
  }

  lemma {:induction false} DownRunIsFlat(c: Scene, k: nat)
    requires c.vs != [] && k <= |c.ss|
    ensures DownRun(c, k) == Flat(DownPieces(c, k))
  {
    if k > 0 {
      DownRunIsFlat(c, k - 1);
      StepDown(c, k - 1);
      assert DownPieces(c, k)[..k - 1] == DownPieces(c, k - 1);
    }
  }

  lemma {:induction false} PlainRunIsFlat(c: Scene, k: nat)
    requires c.j < |c.vs| && k <= |c.ss| && View(c.ss, c.layer) == c.Old() && Ranked(c)
    ensures Rank(c.ss, k, c.layer) <= |c.Old()| && PlainRun(c, Rank(c.ss, k, c.layer)) == Flat(PlainPieces(c, k))
  {
    if k > 0 {
      PlainRunIsFlat(c, k - 1);
      StepPlain(c, k - 1);
      LastPlainPiece(c, k);
    }
  }

  lemma LastPlainPiece(c: Scene, k: nat)
    requires c.j < |c.vs| && 0 < k <= |c.ss| && Ranked(c)
    ensures Flat(PlainPieces(c, k)) == Flat(PlainPieces(c, k - 1)) + c.Plain(k - 1)
  {
    assert PlainPieces(c, k)[..k - 1] == PlainPieces(c, k - 1);
  }

  lemma RankOfAll(ss: seq<Slot>, layer: int)
    ensures Rank(ss, |ss|, layer) == |View(ss, layer)|
  {
    assert ss[..|ss|] == ss;
  }

  lemma SameBytesIsFlat(c: Scene)
    requires c.j < |c.vs| && View(c.ss, c.layer) == c.Old() && Ranked(c)
    ensures SameBytes(c.ss, c.vs, c.j, c.layer, c.env, c.enc)
            <==> Flat(DownPieces(c, |c.ss|)) == Flat(PlainPieces(c, |c.ss|))
  {
    SameBytesIsRuns(c);
    RankOfAll(c.ss, c.layer);
    DownRunIsFlat(c, |c.ss|);
    PlainRunIsFlat(c, |c.ss|);
  }

  lemma SameBytesIsRuns(c: Scene)
    requires c.j < |c.vs|
    ensures SameBytes(c.ss, c.vs, c.j, c.layer, c.env, c.enc) <==> DownRun(c, |c.ss|) == PlainRun(c, |c.Old()|)
  {
  }

  lemma FlatDecides(a: seq<seq<byte>>, b: seq<seq<byte>>, x: nat)
    requires |a| == |b| && x < |a| && forall m :: 0 <= m < |a| && m != x ==> a[m] == b[m]
    ensures Flat(a) == Flat(b) <==> a[x] == b[x]
  {
    if a[x] == b[x] {
      assert a == b;
    }
    if Flat(a) == Flat(b) {
      FlatTells(a, b, x);
    }
  }

  lemma AllRanked(c: Scene)
    requires c.j < |c.vs| && View(c.ss, c.layer) == c.Old()
    ensures Ranked(c)
  {
    forall m | 0 <= m < |c.ss| && c.Seen(m) ensures Rank(c.ss, m, c.layer) < |c.Old()| {
      RankIs(c.ss, m, c.layer);
    }
  }

  /** All pieces the same: the bodies write the same. One piece different: they do not. */
  lemma PiecesDecide(c: Scene, x: nat)
    requires c.j < |c.vs| && View(c.ss, c.layer) == c.Old() && x < |c.ss|
    requires forall m :: 0 <= m < |c.ss| && m != x ==> Matches(c, m)
    ensures c.Seen(x) ==> Rank(c.ss, x, c.layer) < |c.Old()|
    ensures SameBytes(c.ss, c.vs, c.j, c.layer, c.env, c.enc) <==> c.Down(x) == c.Plain(x)
  {
    AllRanked(c);
    SameBytesIsFlat(c);
    PieceLists(c, x);
    FlatDecides(DownPieces(c, |c.ss|), PlainPieces(c, |c.ss|), x);
  }

  /** Pieces the same up to one that has its length but not its content. */
  lemma PieceTells(c: Scene, x: nat)
    requires c.j < |c.vs| && View(c.ss, c.layer) == c.Old() && x < |c.ss|
    requires forall m :: 0 <= m < x ==> Matches(c, m)
    requires c.Seen(x) ==> Rank(c.ss, x, c.layer) < |c.Old()|
    requires |c.Down(x)| == |c.Plain(x)| && c.Down(x) != c.Plain(x)
    ensures !SameBytes(c.ss, c.vs, c.j, c.layer, c.env, c.enc)
  {
    AllRanked(c);
    SameBytesIsFlat(c);
    var d, p := DownPieces(c, |c.ss|), PlainPieces(c, |c.ss|);
    forall m | 0 <= m < x ensures d[m] == p[m] {
      assert Matches(c, m);
    }
    FlatDiffers(d, p, x);
  }

  lemma PieceLists(c: Scene, x: nat)
    requires c.j < |c.vs| && Ranked(c) && x < |c.ss|
    requires forall m :: 0 <= m < |c.ss| && m != x ==> Matches(c, m)
    ensures var d, p := DownPieces(c, |c.ss|), PlainPieces(c, |c.ss|);
            (forall m :: 0 <= m < |d| && m != x ==> d[m] == p[m]) && d[x] == c.Down(x) && p[x] == c.Plain(x)
  {
    var d, p := DownPieces(c, |c.ss|), PlainPieces(c, |c.ss|);
    forall m | 0 <= m < |d| && m != x ensures d[m] == p[m] {
      assert Matches(c, m);
    }
  }

  // ----- the condition is sufficient

  /** A flag word never has a bit too many. */
  lemma DownBitsArePlain(c: Scene, f: nat)
    requires c.Valid() && f < |c.ss|
    ensures DownBits(c, f) <= PlainBits(c, f)
  {
    forall b | b in DownBits(c, f) ensures b in PlainBits(c, f) {
      var o := DownBitFrom(c, f, b);
      PlainBitIn(c, f, o);
    }
  }

  /** The object of the scene is one the version in force can write. */
  ghost predicate Proper(c: Scene) {
    c.Valid() && Genuine(c.Old(), c.Env'())
  }

  lemma SuitsAt(c: Scene, k: nat)
    requires Proper(c) && k < |c.ss| && c.Seen(k) && !c.ss[k].spec.IsFlag()
    ensures Suits(c.ss[k].spec, c.ValueOf(k))
  {
    SeenRank(c, k);
    ConvertedValue(c, k);
    assert AllSuit(c.Old(), c.Env'());
  }

  /** A field that sets its bit is given, and with it every other field on the bit. */
  lemma GivenTogether(c: Scene, o: nat, m: nat)
    requires Proper(c) && o < |c.ss| && m < |c.ss| && o != m && c.Seen(o) && c.Seen(m)
    requires c.ss[o].spec.IsOptional() && SameBit(c.ss[m].spec, c.ss[o].spec)
    requires Passes(FlagTest(c.ss[o].spec), c.ValueOf(o))
    ensures NotEmpty(c.ss[m].spec, c.ValueOf(m))
  {
    SceneFacts(c);
    SeenRank(c, o);
    SeenRank(c, m);
    ConvertedValue(c, o);
    ConvertedValue(c, m);
    SuitsAt(c, o);
    var p, q := Rank(c.ss, o, c.layer), Rank(c.ss, m, c.layer);
    SharesIsSharesAt(c, o);
    assert SharesAt(c.ss, c.layer, o) && SameBit(c.Old()[q], c.Old()[p]) && SameBit(c.Old()[p], c.Old()[p]);
    assert !Empty(c.Old()[p], c.Env'()(Self(c.Old()[p].name)));
  }

  /** A field that is collected on the bit sets it in the emitted flag word. */
  lemma CoverSets(c: Scene, f: nat, o: nat, m: nat)
    requires Proper(c) && f < |c.ss| && o < |c.ss| && m < |c.ss| && c.Seen(f) && c.Seen(m) && Sets(c, f, o)
    requires c.ss[o].lo < c.ss[f].lo && Covers(c.ss[m], c.ss[f], c.ss[o])
    ensures Sets(c, f, m) && Collects(c.ss[f], c.ss[m])
  {
    SeenRank(c, m);
    GivenTogether(c, o, m);
  }

  lemma BitsAgree(c: Scene, f: nat)
    requires Proper(c) && f < |c.ss| && c.Seen(f) && c.ss[f].spec.IsFlag() && WordsReach(c.ss, c.layer)
    ensures DownBits(c, f) == PlainBits(c, f)
  {
    DownBitsArePlain(c, f);
    forall b | b in PlainBits(c, f) ensures b in DownBits(c, f) {
      var o := PlainBitFrom(c, f, b);
      if c.ss[f].lo <= c.ss[o].lo {
        DownBitIn(c, f, o);
      } else {
        assert Covered(c.ss, c.layer, f, o);
        var m :| 0 <= m < |c.ss| && Holds(c.layer)(c.ss[m]) && Covers(c.ss[m], c.ss[f], c.ss[o]);
        CoverSets(c, f, o, m);
        DownBitIn(c, f, m);
      }
    }
  }

  lemma PieceAgrees(c: Scene, k: nat)
    requires Proper(c) && k < |c.ss| && AgreesAt(c.ss, c.layer)
    ensures Matches(c, k)
  {
    DownPiece(c, k);
    if c.Seen(k) {
      PlainPiece(c, k);
      if c.ss[k].spec.IsFlag() {
        BitsAgree(c, k);
      }
    }
  }

  lemma EmptyBodies(c: Scene)
    requires c.j < |c.vs| && View(c.ss, c.layer) == c.Old() && c.ss == []
    ensures SameBytes(c.ss, c.vs, c.j, c.layer, c.env, c.enc)
  {
    assert c.Old() == [];
  }

  lemma AgreeingBodies(c: Scene)
    requires Proper(c) && AgreesAt(c.ss, c.layer)
    ensures SameBytes(c.ss, c.vs, c.j, c.layer, c.env, c.enc)
  {
    SceneFacts(c);
    forall k | 0 <= k < |c.ss| ensures Matches(c, k) {
      PieceAgrees(c, k);
    }
    if c.ss == [] {
      EmptyBodies(c);
    } else {
      PiecesDecide(c, 0);
      assert Matches(c, 0);
    }
  }
}
