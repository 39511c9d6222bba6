/** From the archive of schemas to what a client gets: the constructor that its layer's schema lists, unless another one
    of the name came in between. */
module LayerArchive {
  import opened Containers
  import opened TlSchema
  import opened SchemaDedup

  /** Layer `k` is the first whose schema has `e`. */
  ghost predicate FirstIn(parsed: seq<seq<Entry>>, k: nat, e: Entry) {
    k < |parsed| && e in parsed[k] && !InEarlier(parsed, k, e)
  }

  /** Up to layer `m` another constructor of the name came up after `e` had. */
  ghost predicate Overtaken(parsed: seq<seq<Entry>>, m: nat, e: Entry) {
    exists k: nat, d :: k <= m && Overtakes(parsed, k, d, e)
  }

  ghost predicate Overtakes(parsed: seq<seq<Entry>>, k: nat, d: Entry, e: Entry) {
    FirstIn(parsed, k, d) && d.qualname == e.qualname && d != e && InEarlier(parsed, k, e)
  }

  /** What the family of one base constructor is made of. */
  datatype Source = Source(
    bases: set<Entry>, base: Entry, least: int, top: int, layers: seq<int>, parsed: seq<seq<Entry>>,
    kept: seq<seq<Entry>>)
  {
    ghost predicate Valid() {
      && Archive(layers, parsed, top) && KeptOnce(bases, parsed, kept) && base in bases
      && LeastLayer(layers, parsed, |layers|, top, base, least) && !CameBack(base, parsed, kept)
      && (forall b :: b in bases && b.qualname == base.qualname ==> b == base)
    }

    ghost function Family(fieldsOf: Entry -> seq<FieldSpec>): seq<Version>
      requires |layers| == |kept|
    {
      SchemaDedup.Family(base, least, top, fieldsOf, layers, kept)
    }

    /** The constructor that version `j` of the family is. */
    ghost function Behind(j: nat): Entry
      requires |layers| == |kept| && j <= |Present(base.qualname, kept, |kept|)|
    {
      var at := Present(base.qualname, kept, |kept|);
      if j < |at| then Named(kept[at[j]], base.qualname) else base
    }
  }

  /** Constructor `e` first came up in layer `f`, and none of its name did after that, up to layer `m`. */
  ghost predicate Latest(parsed: seq<seq<Entry>>, f: nat, e: Entry, m: nat) {
    && f <= m && FirstIn(parsed, f, e)
    && forall k: nat, d: Entry :: f < k <= m && d.qualname == e.qualname ==> !FirstIn(parsed, k, d)
  }

  lemma {:induction false} FirstLayer(parsed: seq<seq<Entry>>, n: nat, e: Entry) returns (k: nat)
    requires InEarlier(parsed, n, e)
    ensures k < n && FirstIn(parsed, k, e)
    decreases n
  {
    var m: nat :| m < n && m < |parsed| && e in parsed[m];
    if InEarlier(parsed, m, e) {
      k := FirstLayer(parsed, m, e);
    } else {
      k := m;
    }
  }

  /** The latest constructor is the one listed exactly when that one was not overtaken. */
  lemma LatestIsListed(layers: seq<int>, parsed: seq<seq<Entry>>, top: int, f: nat, d: Entry, m: nat, e: Entry)
    requires Archive(layers, parsed, top) && m < |parsed| && e in parsed[m] && e.qualname == d.qualname
    requires Latest(parsed, f, d, m)
    ensures d == e <==> !Overtaken(parsed, m, e)
  {
    assert InEarlier(parsed, m + 1, e);
    var k := FirstLayer(parsed, m + 1, e);
    if d == e {
      forall j: nat, c: Entry | j <= m ensures !Overtakes(parsed, j, c, e) {
        if InEarlier(parsed, j, e) {
          NotBeforeFirst(parsed, f, e, j);
        }
      }
    } else {
      assert k <= f;
      assert k < f;
      assert InEarlier(parsed, f, e);
      assert Overtakes(parsed, f, d, e);
    }
  }

  lemma NotBeforeFirst(parsed: seq<seq<Entry>>, f: nat, e: Entry, j: nat)
    requires FirstIn(parsed, f, e) && InEarlier(parsed, j, e)
    ensures f < j
  {
    var k :| 0 <= k < j && k < |parsed| && e in parsed[k];
    assert k >= f;
  }

  // ----- the version in force is that of the latest constructor

  /** An old version is that of a constructor that first came up in its layer. */
  lemma OldIsFirst(s: Source, j: nat, fieldsOf: Entry -> seq<FieldSpec>)
    requires s.Valid() && j < |Present(s.base.qualname, s.kept, |s.kept|)|
    ensures var at := Present(s.base.qualname, s.kept, |s.kept|);
      && at[j] < |s.layers| && j < |s.Family(fieldsOf)| - 1
      && FirstIn(s.parsed, at[j], s.Behind(j)) && s.Behind(j).qualname == s.base.qualname && s.Behind(j) != s.base
      && s.Family(fieldsOf)[j] == Version(fieldsOf(s.Behind(j)), s.layers[at[j]], s.layers[at[j]])
  {
    var at := Present(s.base.qualname, s.kept, |s.kept|);
    var e := Named(s.kept[at[j]], s.base.qualname);
    assert e in s.kept[at[j]];
  }

  /** A constructor of the name that first came up in layer `k` is the base one, or has an old version there. */
  lemma FirstIsOld(s: Source, k: nat, d: Entry) returns (i: nat)
    requires s.Valid() && FirstIn(s.parsed, k, d) && d.qualname == s.base.qualname && d != s.base
    ensures var at := Present(s.base.qualname, s.kept, |s.kept|);
      i < |at| && at[i] == k
  {
    assert d !in s.bases;
    assert d in s.kept[k];
    assert HasName(s.kept[k], s.base.qualname);
    var at := Present(s.base.qualname, s.kept, |s.kept|);
    i :| 0 <= i < |at| && at[i] == k;
  }

  lemma StartGrows(vs: seq<Version>, a: nat, b: nat)
    requires SortedFamily(vs) && a <= b < |vs|
    ensures Start(vs, a) <= Start(vs, b)
  {
    if a < b {
      assert vs[a].layer < vs[b].minLayer;
      assert vs[a].minLayer <= vs[a].layer;
    }
  }

  lemma SourceIsSorted(s: Source, fieldsOf: Entry -> seq<FieldSpec>)
    requires s.Valid() && forall e :: UniqueNames(fieldsOf(e))
    ensures SortedFamily(s.Family(fieldsOf))
    ensures |s.Family(fieldsOf)| == |Present(s.base.qualname, s.kept, |s.kept|)| + 1
    ensures var vs := s.Family(fieldsOf); vs[|vs| - 1] == Version(fieldsOf(s.base), s.least, s.top)
  {
    FamilyIsSorted(s.bases, s.base, s.least, s.top, fieldsOf, s.layers, s.parsed, s.kept);
  }

  lemma LayersRise(s: Source, a: nat, b: nat)
    requires s.Valid() && a < |s.layers| && b < |s.layers|
    ensures s.layers[a] <= s.layers[b] <==> a <= b
  {
  }

  lemma StartWithin(vs: seq<Version>, i: nat, j: nat, layer: int)
    requires SortedFamily(vs) && i < |vs| && j < |vs| && InForce(vs, |vs| - 1, j, layer) && Start(vs, i) <= layer
    ensures i <= j
  {
    if j < |vs| - 1 && j + 1 <= i {
      StartGrows(vs, j + 1, i);
    }
  }

  /** A constructor of the name is a version of the family that starts no later than the layer it first came up in. */
  lemma ComesUp(s: Source, fieldsOf: Entry -> seq<FieldSpec>, k: nat, d: Entry) returns (i: nat)
    requires s.Valid() && FirstIn(s.parsed, k, d) && d.qualname == s.base.qualname
    requires |s.Family(fieldsOf)| > 1 && forall e :: UniqueNames(fieldsOf(e))
    ensures var vs, at := s.Family(fieldsOf), Present(s.base.qualname, s.kept, |s.kept|);
      i < |vs| && Start(vs, i) <= s.layers[k] && if i < |at| then at[i] == k else i == |vs| - 1
  {
    SourceIsSorted(s, fieldsOf);
    if d == s.base {
      i := |s.Family(fieldsOf)| - 1;
    } else {
      i := FirstIsOld(s, k, d);
      OldIsFirst(s, i, fieldsOf);
    }
  }

  /** A constructor that came up by layer `m` is not newer than the version in force there. */
  lemma NothingNewer(s: Source, fieldsOf: Entry -> seq<FieldSpec>, j: nat, f: nat, m: nat, k: nat, d: Entry)
    requires s.Valid() && (forall e :: UniqueNames(fieldsOf(e))) && m < |s.layers|
    requires var vs := s.Family(fieldsOf); j < |vs| - 1 && InForce(vs, |vs| - 1, j, s.layers[m])
    requires j < |Present(s.base.qualname, s.kept, |s.kept|)| && Present(s.base.qualname, s.kept, |s.kept|)[j] == f
    requires f < k <= m && d.qualname == s.base.qualname
    ensures !FirstIn(s.parsed, k, d)
  {
    if FirstIn(s.parsed, k, d) {
      SourceIsSorted(s, fieldsOf);
      var i := ComesUp(s, fieldsOf, k, d);
      LayersRise(s, k, m);
      StartWithin(s.Family(fieldsOf), i, j, s.layers[m]);
    }
  }

  lemma OldIsLatest(s: Source, fieldsOf: Entry -> seq<FieldSpec>, j: nat, m: nat) returns (f: nat)
    requires s.Valid() && (forall e :: UniqueNames(fieldsOf(e))) && m < |s.layers|
    requires var vs := s.Family(fieldsOf); j < |vs| - 1 && InForce(vs, |vs| - 1, j, s.layers[m])
    ensures j <= |Present(s.base.qualname, s.kept, |s.kept|)|
    ensures Latest(s.parsed, f, s.Behind(j), m) && s.Behind(j).qualname == s.base.qualname
    ensures s.Family(fieldsOf)[j].fields == fieldsOf(s.Behind(j))
  {
    SourceIsSorted(s, fieldsOf);
    OldIsFirst(s, j, fieldsOf);
    f := Present(s.base.qualname, s.kept, |s.kept|)[j];
    LayersRise(s, f, m);
    forall k: nat, d: Entry | f < k <= m && d.qualname == s.Behind(j).qualname ensures !FirstIn(s.parsed, k, d) {
      NothingNewer(s, fieldsOf, j, f, m, k, d);
    }
  }

  lemma BaseIsLatest(s: Source, m: nat) returns (f: nat)
    requires s.Valid() && m < |s.layers| && s.least <= s.layers[m]
    ensures Latest(s.parsed, f, s.base, m)
  {
    var k: nat :| k < |s.layers| && s.base in s.parsed[k] && s.least == s.layers[k];
    assert InEarlier(s.parsed, k + 1, s.base);
    f := FirstLayer(s.parsed, k + 1, s.base);
    LayersRise(s, k, m);
    forall i: nat, d: Entry | f < i <= m && d.qualname == s.base.qualname ensures !FirstIn(s.parsed, i, d) {
      if FirstIn(s.parsed, i, d) && d != s.base {
        var _ := FirstIsOld(s, i, d);
      }
    }
  }

  /** A client of an archived layer whose schema lists constructor `e` is served `e` if and only if no other constructor
      of its name came up after `e` had, up to that layer. */
  lemma ServedAsListed(s: Source, fieldsOf: Entry -> seq<FieldSpec>, ss: seq<Slot>, j: nat, m: nat, e: Entry)
    requires s.Valid() && forall e :: UniqueNames(fieldsOf(e))
    requires m < |s.layers| && e in s.parsed[m] && e.qualname == s.base.qualname
    requires var vs := s.Family(fieldsOf);
      |vs| > 1 && j < |vs| && InForce(vs, |vs| - 1, j, s.layers[m]) && Exact(ss, vs, |vs| - 1)
    ensures j <= |Present(s.base.qualname, s.kept, |s.kept|)|
    ensures View(ss, s.layers[m]) == fieldsOf(s.Behind(j))
    ensures s.Behind(j) == e <==> !Overtaken(s.parsed, m, e)
  {
    SourceIsSorted(s, fieldsOf);
    var vs := s.Family(fieldsOf);
    var f: nat;
    if j < |vs| - 1 {
      f := OldIsLatest(s, fieldsOf, j, m);
    } else {
      f := BaseIsLatest(s, m);
    }
    LatestIsListed(s.layers, s.parsed, s.top, f, s.Behind(j), m, e);
  }

  // ----- a constructor that comes back

  const FIRST := Entry("message", 1)
  const SECOND := Entry("message", 2)
  const THIRD := Entry("message", 3)

  function Parsed(): seq<seq<Entry>> {
    [[FIRST], [SECOND], [FIRST]]
  }

  function Kept(): seq<seq<Entry>> {
    [[FIRST], [SECOND], []]
  }

  function ForthAndBack(): Source {
    Source({THIRD}, THIRD, 4, 4, [1, 2, 3], Parsed(), Kept())
  }

  lemma ParsedHas(m: nat, e: Entry)
    requires m < 3
    ensures e in Parsed()[m] <==> e == if m == 1 then SECOND else FIRST
    ensures InEarlier(Parsed(), m, e) <==> (m > 0 && e == FIRST) || (m > 1 && e == SECOND)
  {
    var parsed := Parsed();
    assert parsed[0] == [FIRST] && parsed[1] == [SECOND] && parsed[2] == [FIRST];
    assert FIRST in parsed[0] && SECOND in parsed[1];
  }

  lemma ForthAndBackIsValid()
    ensures ForthAndBack().Valid()
  {
    var s := ForthAndBack();
    forall m: nat, e | m < 3
      ensures e in s.kept[m] <==> e in s.parsed[m] && e !in s.bases && !InEarlier(s.parsed, m, e)
    {
      ParsedHas(m, e);
      assert s.kept[0] == [FIRST] && s.kept[1] == [SECOND] && s.kept[2] == [];
    }
    forall m: nat | m < 3 ensures s.base !in s.parsed[m] {
      ParsedHas(m, s.base);
    }
    forall i: nat, d, e | i < 3 && d in s.parsed[i] && e in s.parsed[i] ensures d == e {
      ParsedHas(i, d);
      ParsedHas(i, e);
    }
  }

  lemma OneName(es: seq<Entry>, e: Entry)
    requires es == [e]
    ensures forall q :: HasName(es, q) <==> q == e.qualname
    ensures Named(es, e.qualname) == e
  {
    assert e in es;
  }

  lemma PresentMore(q: string, kept: seq<seq<Entry>>, n: nat)
    requires n < |kept|
    ensures Present(q, kept, n + 1) == Present(q, kept, n) + if HasName(kept[n], q) then [n] else []
  {
  }

  lemma PresentTwo(kept: seq<seq<Entry>>, q: string, e0: Entry, e1: Entry)
    requires |kept| == 3 && kept[0] == [e0] && kept[1] == [e1] && kept[2] == [] && e0.qualname == e1.qualname == q
    ensures Present(q, kept, 3) == [0, 1] && HasName(kept[0], q) && HasName(kept[1], q)
    ensures Named(kept[0], q) == e0 && Named(kept[1], q) == e1
  {
    OneName(kept[0], e0);
    OneName(kept[1], e1);
    PresentMore(q, kept, 0);
    PresentMore(q, kept, 1);
    PresentMore(q, kept, 2);
  }

  lemma ForthAndBackFamily(fieldsOf: Entry -> seq<FieldSpec>)
    ensures ForthAndBack().Family(fieldsOf)
      == [Version(fieldsOf(FIRST), 1, 1), Version(fieldsOf(SECOND), 2, 2), Version(fieldsOf(THIRD), 4, 4)]
    ensures Present("message", Kept(), 3) == [0, 1] && ForthAndBack().Behind(1) == SECOND
  {
    PresentTwo(Kept(), "message", FIRST, SECOND);
  }

  /** A constructor of layer 1 gives way to another in layer 2 and is back in layer 3: de-duplication keeps it for layer
      1 alone, and clients of layer 3 are served the one of layer 2. */
  lemma BackIsServedWrong(fieldsOf: Entry -> seq<FieldSpec>)
    ensures var s := ForthAndBack();
      && s.Valid() && FIRST in s.parsed[2] && Overtaken(s.parsed, 2, FIRST)
      && InForce(s.Family(fieldsOf), 2, 1, s.layers[2]) && s.Behind(1) == SECOND
      && s.Family(fieldsOf)[1].fields == fieldsOf(SECOND)
  {
    ForthAndBackIsValid();
    ForthAndBackFamily(fieldsOf);
    ParsedHas(2, FIRST);
    ParsedHas(1, FIRST);
    ParsedHas(1, SECOND);
    assert Overtakes(Parsed(), 1, SECOND, FIRST);
  }
}
