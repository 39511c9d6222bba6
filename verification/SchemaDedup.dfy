/** Reading the schemas of all older layers: each constructor is kept in the earliest layer that has it, and the
    versions left of one constructor are what the layer merge starts from. */
module SchemaDedup {
  import opened Containers
  import opened TlSchema

  /** A constructor is known by its name and its id together. */
  datatype Entry = Entry(qualname: string, id: nat)

  ghost predicate InEarlier(parsed: seq<seq<Entry>>, n: nat, e: Entry) {
    exists k :: 0 <= k < n && k < |parsed| && e in parsed[k]
  }

  /** What each layer keeps: the constructors the base schema lacks and no earlier layer has. */
  ghost predicate KeptOnce(base: set<Entry>, parsed: seq<seq<Entry>>, kept: seq<seq<Entry>>) {
    && |kept| == |parsed|
    && (forall m :: 0 <= m < |kept| ==> Distinct(kept[m]))
    && forall m, e :: 0 <= m < |kept| ==>
         (e in kept[m] <==> e in parsed[m] && e !in base && !InEarlier(parsed, m, e))
  }

  /** `x` is the least layer that has `e`, the top layer included. */
  ghost predicate LeastLayer(layers: seq<int>, parsed: seq<seq<Entry>>, n: nat, top: int, e: Entry, x: int)
    requires n <= |layers| == |parsed|
  {
    && x <= top
    && (forall k :: 0 <= k < n && e in parsed[k] ==> x <= layers[k])
    && (x == top || exists k :: 0 <= k < n && e in parsed[k] && x == layers[k])
  }

  lemma LeastStep(layers: seq<int>, parsed: seq<seq<Entry>>, n: nat, top: int, e: Entry, x: int)
    requires n < |layers| == |parsed| && LeastLayer(layers, parsed, n, top, e, x)
    ensures LeastLayer(layers, parsed, n + 1, top, e, if e in parsed[n] && layers[n] < x then layers[n] else x)
  {
  }

  /** What a schema of layer `layer` does to the least layers. */
  ghost predicate Lowered(before: map<Entry, int>, schema: seq<Entry>, layer: int, after: map<Entry, int>) {
    && after.Keys == before.Keys
    && forall e :: e in before ==> after[e] == if e in schema && layer < before[e] then layer else before[e]
  }

  ghost predicate AllLeast(layers: seq<int>, parsed: seq<seq<Entry>>, n: nat, top: int, least: map<Entry, int>)
    requires n <= |layers| == |parsed|
  {
    forall e :: e in least ==> LeastLayer(layers, parsed, n, top, e, least[e])
  }

  lemma AllLeastStep(layers: seq<int>, parsed: seq<seq<Entry>>, n: nat, top: int, before: map<Entry, int>,
                     after: map<Entry, int>)
    requires n < |layers| == |parsed| && AllLeast(layers, parsed, n, top, before)
    requires Lowered(before, parsed[n], layers[n], after)
    ensures AllLeast(layers, parsed, n + 1, top, after)
  {
    forall e | e in after ensures LeastLayer(layers, parsed, n + 1, top, e, after[e]) {
      LeastStep(layers, parsed, n, top, e, before[e]);
    }
  }

  /** What one layer's schema has beyond the base schema. */
  ghost predicate Own(own: seq<Entry>, schema: seq<Entry>, base: set<Entry>) {
    Distinct(own) && forall e :: e in own <==> e in schema && e !in base
  }

  ghost predicate AllOwn(kept: seq<seq<Entry>>, parsed: seq<seq<Entry>>, base: set<Entry>) {
    |kept| <= |parsed| && forall m :: 0 <= m < |kept| ==> Own(kept[m], parsed[m], base)
  }

  lemma AllOwnStep(kept: seq<seq<Entry>>, parsed: seq<seq<Entry>>, base: set<Entry>, own: seq<Entry>)
    requires AllOwn(kept, parsed, base) && |kept| < |parsed| && Own(own, parsed[|kept|], base)
    ensures AllOwn(kept + [own], parsed, base)
  {
  }

  // ----- the loops

  class Schemas {
    /** `min_layer` of each base constructor. */
    var minLayer: map<Entry, int>
    /** The constructors kept for each layer, in the order they were read. */
    var kept: seq<seq<Entry>>

    constructor ()
    {
      minLayer, kept := map[], [];
    }

    /** One layer's schema: a base constructor only lowers its `min_layer`; a repeated name overwrites itself. */
    method ReadLayer(base: set<Entry>, layer: int, schema: seq<Entry>) returns (own: seq<Entry>)
      requires minLayer.Keys == base
      modifies `minLayer
      ensures Own(own, schema, base) && Lowered(old(minLayer), schema, layer, minLayer)
    {
      own := [];
      for i := 0 to |schema|
        invariant Own(own, schema[..i], base)
        invariant Lowered(old(minLayer), schema[..i], layer, minLayer)
      {
        var c := schema[i];
        assert schema[..i + 1] == schema[..i] + [c];
        if c in base {
          minLayer := minLayer[c := if layer < minLayer[c] then layer else minLayer[c]];
          continue;
        }
        if c !in own {
          own := own + [c];
        }
      }
      assert schema[..|schema|] == schema;
    }

    method ReadAll(base: set<Entry>, top: int, layers: seq<int>, parsed: seq<seq<Entry>>)
      requires |layers| == |parsed|
      modifies this
      ensures minLayer.Keys == base && |kept| == |parsed|
      ensures AllLeast(layers, parsed, |layers|, top, minLayer)
      ensures AllOwn(kept, parsed, base)
    {
      minLayer := map e | e in base :: top;
      kept := [];
      for i := 0 to |layers|
        invariant minLayer.Keys == base && |kept| == i
        invariant AllLeast(layers, parsed, i, top, minLayer)
        invariant AllOwn(kept, parsed, base)
      {
        ghost var before := minLayer;
        var own := ReadLayer(base, layers[i], parsed[i]);
        AllOwnStep(kept, parsed, base, own);
        kept := kept + [own];
        AllLeastStep(layers, parsed, i, top, before, minLayer);
      }
    }

    /** Deletes from the later layers what an earlier layer keeps. */
    method DropRepeated(base: set<Entry>, parsed: seq<seq<Entry>>)
      requires |kept| == |parsed| && AllOwn(kept, parsed, base)
      modifies `kept
      ensures KeptOnce(base, parsed, kept)
    {
      for i := 0 to |kept|
        invariant |kept| == |parsed|
        invariant forall m :: 0 <= m < |kept| ==> KeptTo(base, parsed, m, i, kept[m])
      {
        ghost var before := kept;
        for p := 0 to |kept[i]|
          invariant |kept| == |parsed| && kept[..i + 1] == before[..i + 1]
          invariant forall m :: i < m < |kept| ==> Lacks(before[m], before[i][..p], kept[m])
        {
          var cname := kept[i][p];
          DropLater(i, cname);
          assert before[i][..p + 1] == before[i][..p] + [cname];
        }
        assert before[i][..|before[i]|] == before[i];
        forall m | 0 <= m < |kept| ensures KeptTo(base, parsed, m, i + 1, kept[m]) {
          KeptToStep(base, parsed, m, i, before[i], before[m], kept[m]);
        }
      }
    }

    method DropLater(i: nat, cname: Entry)
      requires i < |kept| && forall m :: i < m < |kept| ==> Distinct(kept[m])
      modifies `kept
      ensures |kept| == |old(kept)| && kept[..i + 1] == old(kept[..i + 1])
      ensures forall m :: i < m < |kept| ==> Lacks(old(kept)[m], [cname], kept[m])
    {
      for j := i + 1 to |kept|
        invariant |kept| == |old(kept)| && kept[..i + 1] == old(kept[..i + 1])
        invariant forall m :: i < m < j ==> Lacks(old(kept)[m], [cname], kept[m])
        invariant forall m :: j <= m < |kept| ==> kept[m] == old(kept)[m]
      {
        if cname in kept[j] {
          var at := IndexOf(kept[j], cname);
          WithoutLacks(kept[j], at);
          kept := kept[j := Without(kept[j], at)];
        }
      }
    }
  }

  // ----- deleting one name

  function IndexOf(es: seq<Entry>, e: Entry): (r: nat)
    requires e in es
    ensures r < |es| && es[r] == e
  {
    if es[0] == e then 0 else 1 + IndexOf(es[1..], e)
  }

  /** `after` is `before` less the names in `gone`. */
  ghost predicate Lacks(before: seq<Entry>, gone: seq<Entry>, after: seq<Entry>) {
    (Distinct(before) ==> Distinct(after)) && forall e :: e in after <==> e in before && e !in gone
  }

  lemma WithoutLacks(es: seq<Entry>, at: nat)
    requires Distinct(es) && at < |es|
    ensures Lacks(es, [es[at]], Without(es, at))
  {
    forall e ensures e in Without(es, at) <==> e in es && e != es[at] {
      if e in es && e != es[at] {
        var k :| 0 <= k < |es| && es[k] == e;
        assert Without(es, at)[if k < at then k else k - 1] == e;
      }
    }
  }

  /** Layer `m` after the layers before `i` were taken out of it. */
  ghost predicate KeptTo(base: set<Entry>, parsed: seq<seq<Entry>>, m: nat, i: nat, own: seq<Entry>)
    requires m < |parsed|
  {
    && Distinct(own)
    && forall e :: e in own <==> e in parsed[m] && e !in base && !InEarlier(parsed, if i < m then i else m, e)
  }

  lemma KeptToStep(base: set<Entry>, parsed: seq<seq<Entry>>, m: nat, i: nat,
                   first: seq<Entry>, before: seq<Entry>, after: seq<Entry>)
    requires m < |parsed| && i < |parsed|
    requires KeptTo(base, parsed, i, i, first) && KeptTo(base, parsed, m, i, before)
    requires if m <= i then after == before else Lacks(before, first, after)
    ensures KeptTo(base, parsed, m, i + 1, after)
  {
    if m > i {
      forall e ensures InEarlier(parsed, i + 1, e) <==> InEarlier(parsed, i, e) || e in parsed[i] {
      }
    }
  }

  // ----- the whole reading, and what the merge gets from it

  /** A layer with the constructors only it keeps; later they are told apart by the layer in their names. */
  datatype OldSchema = OldSchema(layer: int, own: seq<Entry>)

  /** Layers that keep nothing are left out. */
  function NonEmpty(layers: seq<int>, kept: seq<seq<Entry>>, n: nat): seq<OldSchema>
    requires n <= |layers| == |kept|
  {
    if n == 0 then []
    else NonEmpty(layers, kept, n - 1) + if kept[n - 1] == [] then [] else [OldSchema(layers[n - 1], kept[n - 1])]
  }

  /** Exactly the layers that keep something, in their order. */
  ghost predicate Lists(layers: seq<int>, kept: seq<seq<Entry>>, n: nat, olds: seq<OldSchema>, at: seq<nat>)
    requires n <= |layers| == |kept|
  {
    && |at| == |olds| && (forall i :: 0 <= i < |at| ==> at[i] < n && kept[at[i]] != [])
    && (forall i, j :: 0 <= i < j < |at| ==> at[i] < at[j])
    && (forall m :: 0 <= m < n && kept[m] != [] ==> m in at)
    && (forall i :: 0 <= i < |at| ==> olds[i] == OldSchema(layers[at[i]], kept[at[i]]))
  }

  lemma {:induction false} NonEmptyLists(layers: seq<int>, kept: seq<seq<Entry>>, n: nat) returns (at: seq<nat>)
    requires n <= |layers| == |kept|
    ensures Lists(layers, kept, n, NonEmpty(layers, kept, n), at)
  {
    if n == 0 {
      at := [];
    } else {
      var before := NonEmptyLists(layers, kept, n - 1);
      at := ListsMore(layers, kept, n - 1, NonEmpty(layers, kept, n - 1), before, NonEmpty(layers, kept, n));
    }
  }

  lemma ListsMore(layers: seq<int>, kept: seq<seq<Entry>>, n: nat, olds: seq<OldSchema>, before: seq<nat>,
                  more: seq<OldSchema>) returns (at: seq<nat>)
    requires n < |layers| == |kept| && Lists(layers, kept, n, olds, before)
    requires more == olds + if kept[n] == [] then [] else [OldSchema(layers[n], kept[n])]
    ensures Lists(layers, kept, n + 1, more, at)
  {
    if kept[n] == [] {
      at := before;
      assert more == olds;
    } else {
      at := before + [n];
      forall m | 0 <= m < n && kept[m] != [] ensures m in at {
        var i :| 0 <= i < |before| && before[i] == m;
        assert at[i] == m;
      }
      assert at[|before|] == n;
    }
  }

  method ParseOldSchemas(base: set<Entry>, top: int, layers: seq<int>, parsed: seq<seq<Entry>>)
    returns (least: map<Entry, int>, olds: seq<OldSchema>)
    requires |layers| == |parsed|
    ensures least.Keys == base && AllLeast(layers, parsed, |layers|, top, least)
    ensures exists kept, at :: KeptOnce(base, parsed, kept) && Lists(layers, kept, |layers|, olds, at)
  {
    var s := new Schemas();
    s.ReadAll(base, top, layers, parsed);
    s.DropRepeated(base, parsed);
    olds := [];
    for i := 0 to |layers|
      invariant olds == NonEmpty(layers, s.kept, i)
    {
      if s.kept[i] != [] {
        olds := olds + [OldSchema(layers[i], s.kept[i])];
      }
    }
    ghost var at := NonEmptyLists(layers, s.kept, |layers|);
    least := s.minLayer;
  }

  predicate HasName(es: seq<Entry>, q: string) {
    exists e :: e in es && e.qualname == q
  }

  function Named(es: seq<Entry>, q: string): (r: Entry)
    requires HasName(es, q)
    ensures r in es && r.qualname == q
  {
    if es[0].qualname == q then es[0] else Named(es[1..], q)
  }

  /** The layers, by position, that keep a constructor called `q`. */
  function Present(q: string, kept: seq<seq<Entry>>, n: nat): (r: seq<nat>)
    requires n <= |kept|
    ensures forall i :: 0 <= i < |r| ==> r[i] < n && HasName(kept[r[i]], q)
    ensures forall i, j :: 0 <= i < j < |r| ==> r[i] < r[j]
    ensures forall m :: 0 <= m < n && HasName(kept[m], q) ==> m in r
  {
    if n == 0 then [] else Present(q, kept, n - 1) + if HasName(kept[n - 1], q) then [n - 1] else []
  }

  /** The old versions of the constructors called `q`, oldest first. */
  function OldVersions(q: string, fieldsOf: Entry -> seq<FieldSpec>, layers: seq<int>, kept: seq<seq<Entry>>)
    : seq<Version>
    requires |layers| == |kept|
  {
    var at := Present(q, kept, |kept|);
    seq(|at|, i requires 0 <= i < |at| => Version(fieldsOf(Named(kept[at[i]], q)), layers[at[i]], layers[at[i]]))
  }

  /** With the base version, which is served from its least layer to the top, they are merged as one family. */
  function Family(base: Entry, least: int, top: int, fieldsOf: Entry -> seq<FieldSpec>, layers: seq<int>,
                  kept: seq<seq<Entry>>)
    : seq<Version>
    requires |layers| == |kept|
  {
    OldVersions(base.qualname, fieldsOf, layers, kept) + [Version(fieldsOf(base), least, top)]
  }

  /** Version `v` is that of constructor `e`, kept in layer `m`, served in that layer alone. */
  ghost predicate KeptVersion(fieldsOf: Entry -> seq<FieldSpec>, layers: seq<int>, kept: seq<seq<Entry>>, q: string,
                              m: int, e: Entry, v: Version)
    requires |layers| == |kept|
  {
    && 0 <= m < |kept| && e in kept[m] && e.qualname == q && v == Version(fieldsOf(e), layers[m], layers[m])
  }

  /** No layer keeps two constructors of one name. */
  ghost predicate OneOfAName(kept: seq<seq<Entry>>) {
    forall m :: 0 <= m < |kept| ==> NameTells(kept[m])
  }

  ghost predicate NameTells(es: seq<Entry>) {
    forall d, e :: d in es && e in es && d.qualname == e.qualname ==> d == e
  }

  lemma OldVersionHas(q: string, fieldsOf: Entry -> seq<FieldSpec>, layers: seq<int>, kept: seq<seq<Entry>>, v: Version)
    requires |layers| == |kept| && OneOfAName(kept)
    ensures v in OldVersions(q, fieldsOf, layers, kept) <==>
      exists m, e :: KeptVersion(fieldsOf, layers, kept, q, m, e, v)
  {
    var at, vs := Present(q, kept, |kept|), OldVersions(q, fieldsOf, layers, kept);
    if v in vs {
      var i :| 0 <= i < |vs| && vs[i] == v;
      assert KeptVersion(fieldsOf, layers, kept, q, at[i], Named(kept[at[i]], q), v);
    }
    if m, e :| KeptVersion(fieldsOf, layers, kept, q, m, e, v) {
      assert HasName(kept[m], q) && NameTells(kept[m]);
      assert Named(kept[m], q) == e;
      var i :| 0 <= i < |at| && at[i] == m;
      assert vs[i] == v;
    }
  }

  /** The family has a version for each layer that keeps a constructor of the name, and the base version as its last. */
  lemma FamilyHas(base: Entry, least: int, top: int, fieldsOf: Entry -> seq<FieldSpec>, layers: seq<int>,
                  kept: seq<seq<Entry>>)
    requires |layers| == |kept| && OneOfAName(kept)
    ensures var vs := Family(base, least, top, fieldsOf, layers, kept);
      && vs != [] && vs[|vs| - 1] == Version(fieldsOf(base), least, top)
      && forall v :: v in vs <==>
           || v == Version(fieldsOf(base), least, top)
           || exists m, e :: KeptVersion(fieldsOf, layers, kept, base.qualname, m, e, v)
  {
    forall v ensures v in OldVersions(base.qualname, fieldsOf, layers, kept) <==>
      exists m, e :: KeptVersion(fieldsOf, layers, kept, base.qualname, m, e, v)
    {
      OldVersionHas(base.qualname, fieldsOf, layers, kept, v);
    }
  }

  /** Layers as their files are sorted, all below the top one, with one constructor of a name in each. */
  ghost predicate Archive(layers: seq<int>, parsed: seq<seq<Entry>>, top: int) {
    && |layers| == |parsed|
    && (forall i, j :: 0 <= i < j < |layers| ==> layers[i] < layers[j])
    && (forall i :: 0 <= i < |layers| ==> layers[i] < top)
    && (forall i, d, e :: 0 <= i < |parsed| && d in parsed[i] && e in parsed[i] && d.qualname == e.qualname ==> d == e)
  }

  /** The base constructor was already in use, with its id, before another constructor of its name. */
  ghost predicate CameBack(base: Entry, parsed: seq<seq<Entry>>, kept: seq<seq<Entry>>) {
    exists k, m :: 0 <= k < m < |kept| && k < |parsed| && base in parsed[k] && HasName(kept[m], base.qualname)
  }

  /** De-duplication hands the merge a family with ascending, disjoint layer ranges, exactly when the base
      constructor is not an old one that came back. */
  lemma {:induction false} FamilyIsSorted(
    bases: set<Entry>, base: Entry, least: int, top: int, fieldsOf: Entry -> seq<FieldSpec>,
    layers: seq<int>, parsed: seq<seq<Entry>>, kept: seq<seq<Entry>>)
    requires Archive(layers, parsed, top) && KeptOnce(bases, parsed, kept)
    requires base in bases && LeastLayer(layers, parsed, |layers|, top, base, least)
    requires forall e :: UniqueNames(fieldsOf(e))
    ensures SortedFamily(Family(base, least, top, fieldsOf, layers, kept)) <==> !CameBack(base, parsed, kept)
  {
    var q := base.qualname;
    var at, vs := Present(q, kept, |kept|), OldVersions(q, fieldsOf, layers, kept);
    var all := Family(base, least, top, fieldsOf, layers, kept);
    assert all[|vs|] == Version(fieldsOf(base), least, top);
    if CameBack(base, parsed, kept) {
      var k, m :| 0 <= k < m < |kept| && base in parsed[k] && HasName(kept[m], q);
      var i :| 0 <= i < |at| && at[i] == m;
      assert all[i] == vs[i] && least <= layers[k] < layers[m];
      assert !SortedFamily(all);
    } else {
      forall i | 0 <= i < |vs| ensures vs[i].layer < least {
        if least != top {
          var k :| 0 <= k < |layers| && base in parsed[k] && least == layers[k];
          var m := at[i];
          NoTwoInOneLayer(bases, base, layers, parsed, kept, top, m, k);
          assert HasName(kept[m], base.qualname) && vs[i].layer == layers[m];
          assert m < k;
        }
      }
      forall i | 0 <= i < |all| ensures all[i].minLayer <= all[i].layer && UniqueNames(all[i].fields) {
        assert i < |vs| ==> all[i].fields == fieldsOf(Named(kept[at[i]], q));
        assert all[|vs|].fields == fieldsOf(base);
      }
      forall i, j | 0 <= i < j < |all| ensures all[i].layer < all[j].minLayer {
        assert all[i] == vs[i] && (j < |vs| ==> all[j] == vs[j]);
      }
    }
  }

  const REVIVED := Entry("message", 1)
  const REPLACED := Entry("message", 2)

  lemma RevivedIsKeptOnce()
    ensures KeptOnce({REVIVED}, [[REVIVED], [REPLACED]], [[], [REPLACED]])
  {
    var parsed, kept: seq<seq<Entry>> := [[REVIVED], [REPLACED]], [[], [REPLACED]];
    assert parsed[0] == [REVIVED] && parsed[1] == [REPLACED];
    forall m, e | 0 <= m < 2
      ensures e in kept[m] <==> e in parsed[m] && e !in {REVIVED} && !InEarlier(parsed, m, e)
    {
      if m == 1 && e == REPLACED {
        assert !InEarlier(parsed, 1, REPLACED);
      }
    }
  }

  lemma RevivedFamily(fieldsOf: Entry -> seq<FieldSpec>)
    ensures Family(REVIVED, 1, 3, fieldsOf, [1, 2], [[], [REPLACED]])
      == [Version(fieldsOf(REPLACED), 2, 2), Version(fieldsOf(REVIVED), 1, 3)]
  {
    var kept: seq<seq<Entry>> := [[], [REPLACED]];
    assert REPLACED in kept[1] && HasName(kept[1], "message");
    assert forall e :: e !in kept[0];
    assert Present("message", kept, 1) == [];
    var at := Present("message", kept, 2);
    assert at == [1];
    var olds := OldVersions("message", fieldsOf, [1, 2], kept);
    assert Named(kept[1], "message") == REPLACED;
    assert olds == [Version(fieldsOf(REPLACED), 2, 2)];
  }

  /** A constructor of layer 1 that gave way to another in layer 2 and is the base schema's again: the merge is
      handed the version of layer 2 before one that claims layers 1 to 3. */
  lemma ComesBack(fieldsOf: Entry -> seq<FieldSpec>)
    ensures var parsed, kept: seq<seq<Entry>> := [[REVIVED], [REPLACED]], [[], [REPLACED]];
      && Archive([1, 2], parsed, 3) && KeptOnce({REVIVED}, parsed, kept)
      && LeastLayer([1, 2], parsed, 2, 3, REVIVED, 1) && CameBack(REVIVED, parsed, kept)
    ensures !SortedFamily(Family(REVIVED, 1, 3, fieldsOf, [1, 2], [[], [REPLACED]]))
  {
    RevivedIsKeptOnce();
    RevivedFamily(fieldsOf);
    var parsed, kept: seq<seq<Entry>> := [[REVIVED], [REPLACED]], [[], [REPLACED]];
    assert parsed[0] == [REVIVED] && parsed[1] == [REPLACED] && REVIVED in parsed[0];
    assert REPLACED in kept[1] && HasName(kept[1], REVIVED.qualname);
    var all := [Version(fieldsOf(REPLACED), 2, 2), Version(fieldsOf(REVIVED), 1, 3)];
    assert all[0].layer == 2 && all[1].minLayer == 1;
  }

  lemma NoTwoInOneLayer(bases: set<Entry>, base: Entry, layers: seq<int>, parsed: seq<seq<Entry>>,
                        kept: seq<seq<Entry>>, top: int, m: nat, k: nat)
    requires Archive(layers, parsed, top) && KeptOnce(bases, parsed, kept) && base in bases
    requires m < |layers| && k < |layers| && HasName(kept[m], base.qualname) && base in parsed[k]
    ensures m != k
  {
    var e := Named(kept[m], base.qualname);
    assert e in parsed[m] && e !in bases;
  }
}
