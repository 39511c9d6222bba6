/** The guarded serializer stands in for the historical ones exactly under the condition. */
module LayerRefinement {
  import opened Containers
  import opened TlSchema
  import opened TlCode
  import opened TlPrimitives
  import opened LayerMergeFacts
  import opened LayerDowngrade
  import opened LayerBodies
  import opened LayerNecessity

  // ----- main results

  ghost predicate WritesSomething(enc: Encoder) {
    forall ty: TlType, v: Value :: ty.Vector? ==> enc(ty, v) != []
  }

  lemma VersionAt(vs: seq<Version>, i: nat, layer: int) returns (j: nat)
    requires SortedFamily(vs) && i < |vs| && vs[0].layer <= layer <= vs[i].layer
    ensures j <= i && InForce(vs, i, j, layer)
    decreases i
  {
    if Start(vs, i) <= layer {
      j := i;
    } else {
      assert vs[i - 1].layer < vs[i].minLayer;
      if layer <= vs[i - 1].layer {
        j := VersionAt(vs, i - 1, layer);
      } else {
        j := i - 1;
      }
    }
  }

  lemma OlderVersionAt(vs: seq<Version>, layer: int) returns (j: nat)
    requires SortedFamily(vs) && |vs| > 1 && vs[0].layer <= layer < Start(vs, |vs| - 1)
    ensures j < |vs| - 1 && InForce(vs, |vs| - 1, j, layer)
  {
    j := VersionAt(vs, |vs| - 1, layer);
  }

  lemma InForceRange(vs: seq<Version>, i: nat, j: nat, layer: int)
    requires SortedFamily(vs) && j <= i < |vs| && InForce(vs, i, j, layer)
    ensures vs[0].layer <= layer && (j < i ==> layer < Start(vs, i))
  {
    if 0 < j {
      assert vs[0].layer < vs[j].minLayer;
    }
    if j + 1 < i {
      assert vs[j + 1].minLayer <= vs[j + 1].layer < vs[i].minLayer;
    }
  }

  lemma AgreesSuffices(ss: seq<Slot>, vs: seq<Version>, enc: Encoder)
    requires Ready(ss, vs) && Agrees(ss, vs)
    ensures Refines(ss, vs, enc)
  {
    forall j: nat, layer: int, env: Env {:trigger Served(ss, vs, j, layer, env)} | Served(ss, vs, j, layer, env)
      ensures SameBytes(ss, vs, j, layer, env, enc)
    {
      AgreesForObject(ss, vs, j, layer, env, enc);
    }
  }

  lemma AgreesForObject(ss: seq<Slot>, vs: seq<Version>, j: nat, layer: int, env: Env, enc: Encoder)
    requires Ready(ss, vs) && Agrees(ss, vs) && Served(ss, vs, j, layer, env)
    ensures SameBytes(ss, vs, j, layer, env, enc)
  {
    AgreesAtLayer(ss, vs, j, layer);
    AgreeingBodies(Scene(ss, vs, j, layer, env, enc));
  }

  lemma AgreesAtLayer(ss: seq<Slot>, vs: seq<Version>, j: nat, layer: int)
    requires SortedFamily(vs) && Agrees(ss, vs) && j < |vs| - 1 && InForce(vs, |vs| - 1, j, layer)
    ensures AgreesAt(ss, layer)
  {
    InForceRange(vs, |vs| - 1, j, layer);
  }

  lemma FlagWordReachesBack(ss: seq<Slot>, vs: seq<Version>, enc: Encoder, layer: int, f: nat, o: nat)
    requires Ready(ss, vs) && Refines(ss, vs, enc)
    requires vs[0].layer <= layer < Start(vs, |vs| - 1)
    requires f < |ss| && o < |ss| && Holds(layer)(ss[f]) && Holds(layer)(ss[o])
    requires ss[f].spec.IsFlag() && ss[o].spec.IsOptional() && ss[o].spec.flagNum == ss[f].spec.flagNum
    ensures ss[f].lo <= ss[o].lo || Covered(ss, layer, f, o)
  {
    if ss[o].lo < ss[f].lo && !Covered(ss, layer, f, o) {
      var j := OlderVersionAt(vs, layer);
      var env := FillEnv(ss, layer, ss[o].spec, Collected(ss[f]));
      var c := Scene(ss, vs, j, layer, env, enc);
      FilledIsProper(c, o, Collected(ss[f]));
      assert Served(ss, vs, j, layer, env);
      LateFlagWordDiffers(c, f, o);
      assert false;
    }
  }

  lemma SharingIsSeen(ss: seq<Slot>, vs: seq<Version>, enc: Encoder, layer: int, o: nat)
    requires Ready(ss, vs) && WritesSomething(enc) && Refines(ss, vs, enc) && WordsReach(ss, layer)
    requires vs[0].layer <= layer < Start(vs, |vs| - 1)
    requires o < |ss| && Holds(layer)(ss[o]) && ss[o].spec.IsOptional() && ss[o].spec.IsVector()
    ensures DownShares(ss, o) <==> SharesAt(ss, layer, o)
  {
    if DownShares(ss, o) != SharesAt(ss, layer, o) {
      var j := OlderVersionAt(vs, layer);
      var env := FillEnv(ss, layer, ss[o].spec, Called(ss[o].spec.name));
      var c := Scene(ss, vs, j, layer, env, enc);
      CalledFills(c, o);
      FilledIsProper(c, o, Called(ss[o].spec.name));
      assert Served(ss, vs, j, layer, env);
      MistakenBitDiffers(c, o);
      assert false;
    }
  }

  lemma AgreesIsNeeded(ss: seq<Slot>, vs: seq<Version>, enc: Encoder, layer: int)
    requires Ready(ss, vs) && WritesSomething(enc) && Refines(ss, vs, enc)
    requires vs[0].layer <= layer < Start(vs, |vs| - 1)
    ensures AgreesAt(ss, layer)
  {
    forall f, o | 0 <= f < |ss| && 0 <= o < |ss| && Holds(layer)(ss[f]) && Holds(layer)(ss[o])
                  && ss[f].spec.IsFlag() && ss[o].spec.IsOptional() && ss[o].spec.flagNum == ss[f].spec.flagNum
      ensures ss[f].lo <= ss[o].lo || Covered(ss, layer, f, o)
    {
      FlagWordReachesBack(ss, vs, enc, layer, f, o);
    }
    forall o | 0 <= o < |ss| && Holds(layer)(ss[o]) && ss[o].spec.IsOptional() && ss[o].spec.IsVector()
      ensures DownShares(ss, o) <==> SharesAt(ss, layer, o)
    {
      SharingIsSeen(ss, vs, enc, layer, o);
    }
  }

  /** The emitted body stands in for every older version exactly when flag words reach back far enough
      and bits are shared in the merged list where they are shared in the version. */
  lemma RefinesExactly(ss: seq<Slot>, vs: seq<Version>, enc: Encoder)
    requires Ready(ss, vs) && WritesSomething(enc)
    ensures Refines(ss, vs, enc) <==> Agrees(ss, vs)
  {
    if Agrees(ss, vs) {
      AgreesSuffices(ss, vs, enc);
    }
    if Refines(ss, vs, enc) {
      forall layer | vs[0].layer <= layer < Start(vs, |vs| - 1) ensures AgreesAt(ss, layer) {
        AgreesIsNeeded(ss, vs, enc, layer);
      }
    }
  }

  /** A family whose flag words never move: one merged entry for each flag word, no bit used twice in a version. */
  ghost predicate Simple(ss: seq<Slot>, vs: seq<Version>) {
    && (forall f, g :: 0 <= f < g < |ss| && ss[f].spec.IsFlag() && ss[g].spec.IsFlag() ==>
          ss[f].spec.flagNum != ss[g].spec.flagNum)
    && (forall i, k :: 0 <= i < |vs| && 0 <= k < |vs[i].fields| && vs[i].fields[k].IsOptional() ==>
          !SharesBit(vs[i].fields, k))
  }

  lemma SimpleNoShare(ss: seq<Slot>, vs: seq<Version>, layer: int, i: nat, o: nat, m: nat)
    requires SortedFamily(vs) && i < |vs| && View(ss, layer) == vs[i].fields
    requires forall k :: 0 <= k < |vs[i].fields| && vs[i].fields[k].IsOptional() ==> !SharesBit(vs[i].fields, k)
    requires o < |ss| && m < |ss| && o != m && Holds(layer)(ss[o]) && Holds(layer)(ss[m]) && ss[o].spec.IsOptional()
    ensures !SameBit(ss[m].spec, ss[o].spec)
  {
    RankIs(ss, o, layer);
    RankIs(ss, m, layer);
    if o < m {
      RankMonotone(ss, o, m, layer);
    } else {
      RankMonotone(ss, m, o, layer);
    }
    assert !SharesBit(vs[i].fields, Rank(ss, o, layer));
  }

  lemma SimpleAgrees(ss: seq<Slot>, vs: seq<Version>)
    requires Ready(ss, vs) && Simple(ss, vs)
    ensures Agrees(ss, vs)
  {
    forall layer | vs[0].layer <= layer < Start(vs, |vs| - 1) ensures AgreesAt(ss, layer) {
      forall f, o | 0 <= f < |ss| && 0 <= o < |ss| && Holds(layer)(ss[f]) && Holds(layer)(ss[o])
                    && ss[f].spec.IsFlag() && ss[o].spec.IsOptional() && ss[o].spec.flagNum == ss[f].spec.flagNum
        ensures ss[f].lo <= ss[o].lo
      {
        SimpleFlagIsOld(ss, vs, f, o);
      }
      forall o | 0 <= o < |ss| && Holds(layer)(ss[o]) && ss[o].spec.IsOptional() && ss[o].spec.IsVector()
        ensures DownShares(ss, o) <==> SharesAt(ss, layer, o)
      {
        SimpleSharesNothing(ss, vs, layer, o);
      }
    }
  }

  lemma SimpleFlagIsOld(ss: seq<Slot>, vs: seq<Version>, f: nat, o: nat)
    requires Ready(ss, vs) && Simple(ss, vs) && f < |ss| && o < |ss|
    requires ss[f].spec.IsFlag() && ss[o].spec.IsOptional() && ss[o].spec.flagNum == ss[f].spec.flagNum
    ensures ss[f].lo <= ss[o].lo
  {
    var i, q := SlotComesFrom(ss, vs, o);
    assert WellFormedFields(vs[i].fields) && FlagBefore(vs[i].fields, q);
    var m :| 0 <= m < q && vs[i].fields[m].IsFlag() && vs[i].fields[m].flagNum == vs[i].fields[q].flagNum;
    var g := SlotAtRank(ss, ss[o].lo, m);
    assert g == f;
  }

  lemma SimpleSharesNothing(ss: seq<Slot>, vs: seq<Version>, layer: int, o: nat)
    requires Ready(ss, vs) && Simple(ss, vs) && o < |ss| && ss[o].spec.IsOptional() && Holds(layer)(ss[o])
    requires vs[0].layer <= layer < Start(vs, |vs| - 1)
    ensures !DownShares(ss, o) && !SharesAt(ss, layer, o)
  {
    forall m | 0 <= m < |ss| && m != o && ss[o].lo <= ss[m].lo <= ss[o].hi ensures !SameBit(ss[m].spec, ss[o].spec) {
      var i, q := SlotComesFrom(ss, vs, m);
      SimpleNoShare(ss, vs, ss[m].lo, i, o, m);
    }
    var j := OlderVersionAt(vs, layer);
    assert Exact(ss, vs, |vs| - 1);
    forall m | 0 <= m < |ss| && m != o && Holds(layer)(ss[m]) ensures !SameBit(ss[m].spec, ss[o].spec) {
      SimpleNoShare(ss, vs, layer, j, o, m);
    }
  }
}
