/** The generated `write`: which version it serves, and the constructor id and body it puts together. */
module LayerWrite {
  import opened Containers
  import opened TlSchema
  import opened TlCode
  import opened TlPrimitives
  import opened LayerMergeFacts
  import opened LayerDowngrade
  import opened LayerRefinement

  // ----- the whole `write`: constructor id and body

  /** Where `bisect_right` puts `x`: after every element that is not above it. */
  function BisectRight(layers: seq<int>, x: int): nat {
    if layers == [] then 0
    else if layers[|layers| - 1] <= x then |layers|
    else BisectRight(layers[..|layers| - 1], x)
  }

  /** The layers listed beside the constructor ids: the layer of an old version, the least layer of the newest. */
  function IdLayers(vs: seq<Version>): (r: seq<int>)
    requires vs != []
    ensures |r| == |vs|
    ensures forall i :: 0 <= i < |vs| ==> r[i] == if i == |vs| - 1 then vs[i].minLayer else vs[i].layer
  {
    seq(|vs|, i requires 0 <= i < |vs| => if i == |vs| - 1 then vs[i].minLayer else vs[i].layer)
  }

  datatype Outcome = TooOld | Raised | Wrote(bytes: seq<byte>)

  /** The serializer of a single version: id, then the body if the shared bits agree. */
  ghost function PlainWrite(id: nat, fields: seq<FieldSpec>, layer: int, env: Env, enc: Encoder): Outcome {
    if SharedBitsAgree(fields, env) then Wrote(ToLE(id, 4) + Run(PlainBody(fields), layer, env, enc)) else Raised
  }

  /** `write` of a constructor with older versions; `ids` are the constructor ids, oldest first. With nothing to
      emit the generated code returns no bytes at all, not even the id. */
  ghost function DowngradableWrite(ids: seq<nat>, ss: seq<Slot>, vs: seq<Version>, layer: int, env: Env, enc: Encoder)
    : Outcome
    requires |ids| == |vs| && vs != []
  {
    var n := |vs| - 1;
    if layer >= IdLayers(vs)[n] then PlainWrite(ids[n], vs[n].fields, layer, env, enc)
    else if layer < IdLayers(vs)[0] then TooOld
    else
      var at := BisectRight(IdLayers(vs), layer);
      if DownBody(ss, vs) == [] then Wrote([])
      else if 0 < at <= |ids| then Wrote(ToLE(ids[at - 1], 4) + Run(DownBody(ss, vs), layer, env, enc))
      else Raised
  }

  lemma {:induction false} BisectFinds(layers: seq<int>, x: int, j: nat)
    requires forall i, k :: 0 <= i < k < |layers| ==> layers[i] < layers[k]
    requires j < |layers| && layers[j] <= x && (j + 1 < |layers| ==> x < layers[j + 1])
    ensures BisectRight(layers, x) == j + 1
    decreases |layers|
  {
    var n := |layers| - 1;
    if j < n {
      assert x < layers[j + 1] <= layers[n];
      BisectFinds(layers[..n], x, j);
    }
  }

  /** The id belongs to the version in force. */
  lemma IdOfVersionInForce(vs: seq<Version>, j: nat, layer: int)
    requires SortedFamily(vs) && j < |vs| && InForce(vs, |vs| - 1, j, layer)
    requires forall i :: 0 <= i < |vs| - 1 ==> vs[i].minLayer == vs[i].layer
    ensures |vs| > 1 ==> BisectRight(IdLayers(vs), layer) == j + 1 && IdLayers(vs)[0] <= layer
  {
    if |vs| > 1 {
      var layers := IdLayers(vs);
      forall i, k | 0 <= i < k < |layers| ensures layers[i] < layers[k] {
        assert vs[i].layer < vs[k].minLayer <= vs[k].layer;
      }
      BisectFinds(layers, layer, j);
      InForceRange(vs, |vs| - 1, j, layer);
    }
  }

  /** Some version has a field. */
  ghost predicate HasField(vs: seq<Version>) {
    exists i :: 0 <= i < |vs| && vs[i].fields != []
  }

  lemma {:induction false} DownUpToGrows(ss: seq<Slot>, k: nat, m: nat, base: seq<FieldSpec>, oldest: int, top: int)
    requires k <= m <= |ss|
    ensures |DownUpTo(ss, k, base, oldest, top)| <= |DownUpTo(ss, m, base, oldest, top)|
    decreases m
  {
    if k < m {
      DownUpToGrows(ss, k, m - 1, base, oldest, top);
    }
  }

  /** The first field of a version is not a bare flag, so something is emitted for it. */
  lemma FirstIsWritten(fields: seq<FieldSpec>)
    requires WellFormedFields(fields) && fields != []
    ensures fields[0].Write()
  {
    assert WellFormedField(fields[0]);
    assert fields[0].IsOptional() ==> FlagBefore(fields, 0);
  }

  lemma WrittenIsEmitted(ss: seq<Slot>, k: nat, base: seq<FieldSpec>, oldest: int, top: int)
    requires k < |ss| && ss[k].spec.Write()
    ensures DownUpTo(ss, |ss|, base, oldest, top) != []
  {
    assert DownStmt(ss, k, base, oldest, top) != [];
    DownUpToGrows(ss, k + 1, |ss|, base, oldest, top);
  }

  /** A body is emitted exactly when some version has a field. */
  lemma BodyIsEmitted(ss: seq<Slot>, vs: seq<Version>)
    requires Ready(ss, vs)
    ensures DownBody(ss, vs) != [] <==> HasField(vs)
  {
    var base, oldest, top := vs[|vs| - 1].fields, vs[0].minLayer, vs[|vs| - 1].layer;
    if ss != [] {
      var i, q := SlotComesFrom(ss, vs, 0);
      assert vs[i].fields != [];
    }
    if HasField(vs) {
      var i :| 0 <= i < |vs| && vs[i].fields != [];
      FirstIsWritten(vs[i].fields);
      StartInForce(vs, i);
      assert Exact(ss, vs, |vs| - 1);
      var k := SlotAtRank(ss, Start(vs, i), 0);
      WrittenIsEmitted(ss, k, base, oldest, top);
    }
  }

  /** For an object whose converted values suit the version in force, `write` does what that version's serializer
      does, with two exceptions, both for older versions: it does not check shared bits, so it goes on where history
      raises; and it writes nothing at all if no version has a field. */
  lemma WriteFollowsHistory(ids: seq<nat>, ss: seq<Slot>, vs: seq<Version>, layer: int, j: nat, env: Env, enc: Encoder)
    requires Ready(ss, vs) && Agrees(ss, vs) && |ids| == |vs|
    requires forall i :: 0 <= i < |vs| - 1 ==> vs[i].minLayer == vs[i].layer
    requires j < |vs| && InForce(vs, |vs| - 1, j, layer)
    requires j < |vs| - 1 ==> AllSuit(vs[j].fields, VersionEnv(ss, vs[|vs| - 1].fields, layer, env))
    ensures var n := |vs| - 1;
            var history := PlainWrite(ids[j], vs[j].fields, layer,
                                      if j == n then env else VersionEnv(ss, vs[n].fields, layer, env), enc);
            DowngradableWrite(ids, ss, vs, layer, env, enc) == history <==> j == n || (history.Wrote? && HasField(vs))
  {
    IdOfVersionInForce(vs, j, layer);
    InForceRange(vs, |vs| - 1, j, layer);
    if j < |vs| - 1 {
      BodyIsEmitted(ss, vs);
      OlderWrite(ids, ss, vs, layer, j, env, enc);
    }
  }

  lemma OlderOutcome(
    ids: seq<nat>, ss: seq<Slot>, vs: seq<Version>, layer: int, j: nat, env: Env, enc: Encoder)
    requires |ids| == |vs| && j < |vs| - 1 && BisectRight(IdLayers(vs), layer) == j + 1
    requires IdLayers(vs)[0] <= layer < IdLayers(vs)[|vs| - 1]
    ensures DowngradableWrite(ids, ss, vs, layer, env, enc)
      == if DownBody(ss, vs) == [] then Wrote([]) else Wrote(ToLE(ids[j], 4) + Run(DownBody(ss, vs), layer, env, enc))
  {
  }

  lemma OlderWrite(ids: seq<nat>, ss: seq<Slot>, vs: seq<Version>, layer: int, j: nat, env: Env, enc: Encoder)
    requires Ready(ss, vs) && Agrees(ss, vs) && |ids| == |vs|
    requires j < |vs| - 1 && InForce(vs, |vs| - 1, j, layer)
    requires BisectRight(IdLayers(vs), layer) == j + 1 && IdLayers(vs)[0] <= layer < IdLayers(vs)[|vs| - 1]
    requires AllSuit(vs[j].fields, VersionEnv(ss, vs[|vs| - 1].fields, layer, env))
    ensures var env' := VersionEnv(ss, vs[|vs| - 1].fields, layer, env);
            var history := PlainWrite(ids[j], vs[j].fields, layer, env', enc);
            DowngradableWrite(ids, ss, vs, layer, env, enc) == history <==> history.Wrote? && DownBody(ss, vs) != []
  {
    var env' := VersionEnv(ss, vs[|vs| - 1].fields, layer, env);
    if SharedBitsAgree(vs[j].fields, env') {
      assert Genuine(vs[j].fields, env');
      AgreesForObject(ss, vs, j, layer, env, enc);
    }
    OlderOutcome(ids, ss, vs, layer, j, env, enc);
  }

  /** A client is refused if and only if it is older than the oldest version, and from the least layer of the newest
      version on, even above the top layer, it gets what the newest version's serializer gives. */
  lemma RefusedExactly(ids: seq<nat>, ss: seq<Slot>, vs: seq<Version>, layer: int, env: Env, enc: Encoder)
    requires |ids| == |vs| > 1 && SortedFamily(vs)
    ensures var n, w := |vs| - 1, DowngradableWrite(ids, ss, vs, layer, env, enc);
      && (w == TooOld <==> layer < vs[0].layer)
      && (layer >= vs[n].minLayer ==> w == PlainWrite(ids[n], vs[n].fields, layer, env, enc))
  {
    assert vs[0].layer < vs[|vs| - 1].minLayer;
  }

  /** Two versions without fields: a client of the older one gets no bytes instead of its constructor id. */
  lemma EmptyFamilyWritesNothing(ids: seq<nat>, vs: seq<Version>, env: Env, enc: Encoder)
    requires |ids| == 2 && vs == [Version([], 1, 1), Version([], 2, 3)]
    ensures Ready([], vs) && Agrees([], vs) && InForce(vs, 1, 0, 1)
    ensures DowngradableWrite(ids, [], vs, 1, env, enc) == Wrote([])
    ensures PlainWrite(ids[0], vs[0].fields, 1, VersionEnv([], vs[1].fields, 1, env), enc) == Wrote(ToLE(ids[0], 4))
  {
    var none: seq<Slot> := [];
    forall l ensures View(none, l) == [] {
    }
    assert Filter(none, EndsAt(3)) == [];
    assert Run(PlainBody([]), 1, VersionEnv([], vs[1].fields, 1, env), enc) == [];
  }
}
