/** The entities the layer compiler works on: fields of a constructor, its historical versions,
    and the layer intervals given to the fields of a merged constructor. */
module TlSchema {
  import opened Containers

  /** The type expression of a field, without its `flags.N?` prefix. */
  datatype TlType =
    | Flags                      // "#"
    | True                       // presence alone, nothing is written
    | Int
    | Long
    | Int128
    | Int256
    | Double
    | Bytes
    | Str
    | Bool
    | Vector(elem: TlType)
    | Object(name: string)

  /** What equality of two generator fields compares: name, bit, flag word and type. */
  datatype FieldSpec = FieldSpec(name: string, flagBit: Option<nat>, flagNum: Option<nat>, fullType: TlType)
  {
    predicate IsFlag() {
      fullType.Flags?
    }

    predicate IsOptional() {
      flagBit.Some? && !IsFlag()
    }

    predicate IsVector() {
      fullType.Vector?
    }

    /** Only `true` fields leave nothing in the body. */
    predicate Write() {
      !fullType.True?
    }
  }

  /** One historical version of a constructor; `layer` of the newest one is the top layer. */
  datatype Version = Version(fields: seq<FieldSpec>, minLayer: int, layer: int)

  ghost predicate UniqueNames(fields: seq<FieldSpec>) {
    forall i, j :: 0 <= i < j < |fields| ==> fields[i].name != fields[j].name
  }

  /** Versions of one constructor, oldest first, with disjoint and ascending layer ranges. */
  ghost predicate SortedFamily(vs: seq<Version>) {
    && |vs| > 0
    && (forall i :: 0 <= i < |vs| ==> vs[i].minLayer <= vs[i].layer && UniqueNames(vs[i].fields))
    && (forall i, j :: 0 <= i < j < |vs| ==> vs[i].layer < vs[j].minLayer)
  }

  /** The first layer at which version `i` is served. */
  function Start(vs: seq<Version>, i: nat): int
    requires i < |vs|
  {
    if i == 0 then vs[0].layer else vs[i].minLayer
  }

  /** Version `j` is the one a client of layer `l` has to get, among versions 0 to `i`. */
  ghost predicate InForce(vs: seq<Version>, i: nat, j: nat, l: int)
    requires j <= i < |vs|
  {
    && Start(vs, j) <= l
    && (if j < i then l < Start(vs, j + 1) else l <= vs[i].layer)
  }

  /** A merged entry seen as a value: the field and the layers it is meant for. */
  datatype Slot = Slot(spec: FieldSpec, lo: int, hi: int)

  function Holds(l: int): Slot -> bool {
    (s: Slot) => s.lo <= l <= s.hi
  }

  function EndsAt(c: int): Slot -> bool {
    (s: Slot) => s.hi == c
  }

  /** Positions of the slots that satisfy `p`, ascending. */
  function Where(ss: seq<Slot>, p: Slot -> bool): (r: seq<nat>)
    ensures forall k :: 0 <= k < |r| ==> r[k] < |ss| && p(ss[r[k]])
    ensures forall k, m :: 0 <= k < m < |r| ==> r[k] < r[m]
    ensures forall i :: 0 <= i < |ss| && p(ss[i]) ==> i in r
  {
    if ss == [] then []
    else
      var n := |ss| - 1;
      Where(ss[..n], p) + (if p(ss[n]) then [n] else [])
  }

  function Filter(ss: seq<Slot>, p: Slot -> bool): (r: seq<Slot>)
  {
    if ss == [] then []
    else
      var n := |ss| - 1;
      Filter(ss[..n], p) + (if p(ss[n]) then [ss[n]] else [])
  }

  function Specs(ss: seq<Slot>): (r: seq<FieldSpec>)
    ensures |r| == |ss| && forall i :: 0 <= i < |ss| ==> r[i] == ss[i].spec
  {
    seq(|ss|, i requires 0 <= i < |ss| => ss[i].spec)
  }

  /** What a client of layer `l` sees of the merged list. */
  function View(ss: seq<Slot>, l: int): seq<FieldSpec> {
    Specs(Filter(ss, Holds(l)))
  }

  /** The merged list shows every client layer the field list of its version, in order. */
  ghost predicate Exact(ss: seq<Slot>, vs: seq<Version>, i: nat)
    requires i < |vs|
  {
    forall j, l :: 0 <= j <= i && InForce(vs, i, j, l) ==> View(ss, l) == vs[j].fields
  }

  // ----- facts about Filter

  lemma {:induction false} FilterConcat(a: seq<Slot>, b: seq<Slot>, p: Slot -> bool)
    ensures Filter(a + b, p) == Filter(a, p) + Filter(b, p)
    decreases |b|
  {
    if b == [] {
      assert a + b == a;
    } else {
      var n := |b| - 1;
      assert (a + b)[..|a + b| - 1] == a + b[..n];
      FilterConcat(a, b[..n], p);
    }
  }

  /** Lists that agree slot by slot on the spec and on membership show the same fields. */
  lemma {:induction false} FilterAgree(a: seq<Slot>, p: Slot -> bool, b: seq<Slot>, q: Slot -> bool)
    requires |a| == |b|
    requires forall i :: 0 <= i < |a| ==> a[i].spec == b[i].spec && p(a[i]) == q(b[i])
    ensures Specs(Filter(a, p)) == Specs(Filter(b, q))
    decreases |a|
  {
    if a != [] {
      var n := |a| - 1;
      FilterAgree(a[..n], p, b[..n], q);
    }
  }

  lemma {:induction false} FilterNone(a: seq<Slot>, p: Slot -> bool)
    requires forall i :: 0 <= i < |a| ==> !p(a[i])
    ensures Filter(a, p) == []
    decreases |a|
  {
    if a != [] {
      FilterNone(a[..|a| - 1], p);
    }
  }

  lemma {:induction false} FilterWhere(a: seq<Slot>, p: Slot -> bool)
    ensures |Filter(a, p)| == |Where(a, p)|
    ensures forall k :: 0 <= k < |Where(a, p)| ==> Filter(a, p)[k] == a[Where(a, p)[k]]
    decreases |a|
  {
    if a != [] {
      FilterWhere(a[..|a| - 1], p);
    }
  }

  lemma FilterOne(x: Slot, p: Slot -> bool)
    ensures Filter([x], p) == if p(x) then [x] else []
  {
    assert [x][..0] == [];
    assert Filter([x][..0], p) == [];
  }

  lemma FilterAround(l: seq<Slot>, x: Slot, r: seq<Slot>, p: Slot -> bool)
    ensures Filter(l + [x] + r, p) == Filter(l, p) + (if p(x) then [x] else []) + Filter(r, p)
  {
    FilterConcat(l + [x], r, p);
    FilterConcat(l, [x], p);
    FilterOne(x, p);
  }

  lemma FilterInsert(a: seq<Slot>, at: nat, x: Slot, p: Slot -> bool)
    requires at <= |a|
    ensures Filter(Insert(a, at, x), p) == Filter(a[..at], p) + (if p(x) then [x] else []) + Filter(a[at..], p)
  {
    FilterAround(a[..at], x, a[at..], p);
  }

  lemma FilterSplit(a: seq<Slot>, at: nat, p: Slot -> bool)
    requires at <= |a|
    ensures Filter(a, p) == Filter(a[..at], p) + Filter(a[at..], p)
  {
    assert a[..at] + a[at..] == a;
    FilterConcat(a[..at], a[at..], p);
  }
}
