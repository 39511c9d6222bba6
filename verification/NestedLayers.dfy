/** Which version of a constructor each object inside a written value gets: the client's layer is handed on from an
    object to those it holds, except where a field's type has a single constructor listed. */
module NestedLayers {
  import opened Containers
  import opened TlSchema
  import opened TlCode
  import opened TlPrimitives
  import opened LayerMergeFacts
  import opened LayerDowngrade
  import opened LayerRefinement
  import opened LayerWrite

  /** The versions of one constructor, oldest first, and the type each belongs to. */
  datatype Family = Family(vs: seq<Version>, types: seq<string>)

  type Schema = seq<Family>

  ghost predicate Valid(sch: Schema) {
    forall c :: 0 <= c < |sch| ==> ValidFamily(sch[c])
  }

  ghost predicate ValidFamily(f: Family) {
    && SortedFamily(f.vs) && |f.types| == |f.vs|
    && forall i :: 0 <= i < |f.vs| - 1 ==> f.vs[i].minLayer == f.vs[i].layer
  }

  /** An object, with the objects that each field of each version of its constructor holds once converters have run. */
  datatype Node = Node(ctor: nat, shown: seq<Shape>)

  datatype Shape = Shape(fields: seq<Content>)

  datatype Content = Content(objects: seq<Node>)

  // ----- how objects are handed to one another's serializers

  /** Layer of the client, or none, as in the context that serializers take by default. */
  type Context = Option<int>

  /** The type of the objects that a field holds. */
  function HeldType(f: FieldSpec): Option<string> {
    match f.fullType
    case Object(name) => Some(name)
    case Vector(elem) => if elem.Object? then Some(elem.name) else None
    case _ => None
  }

  function Newest(f: Family): int {
    |f.vs| - 1
  }

  predicate MemberOf(sch: Schema, t: string, c: nat) {
    c < |sch| && |sch[c].types| > 0 && (t == "Object" || sch[c].types[|sch[c].types| - 1] == t)
  }

  /** How many constructors are listed under a type, old versions included. */
  function Listed(sch: Schema, t: string): nat {
    if sch == [] then 0 else Listed(sch[..|sch| - 1], t) + Count(sch[|sch| - 1].types, t)
  }

  function Count(types: seq<string>, t: string): nat {
    if types == [] then 0 else Count(types[..|types| - 1], t) + if types[|types| - 1] == t then 1 else 0
  }

  /** A field whose type has one constructor listed is written by the class of that constructor, without context. */
  predicate Bare(sch: Schema, f: FieldSpec) {
    f.fullType.Object? && Listed(sch, f.fullType.name) == 1
  }

  function Handed(sch: Schema, f: FieldSpec, ctx: Context): Context {
    if Bare(sch, f) then None else ctx
  }

  /** Version `i` of constructor `c` is listed under a type. */
  predicate IsListed(sch: Schema, t: string, c: int, i: int) {
    0 <= c < |sch| && 0 <= i < |sch[c].types| && sch[c].types[i] == t
  }

  ghost predicate NoneListed(sch: Schema, t: string) {
    forall c, i :: !IsListed(sch, t, c, i)
  }

  /** One version of one constructor is listed under a type, and no other. */
  ghost predicate OneListed(sch: Schema, t: string) {
    exists c, i :: OnlyListed(sch, t, c, i)
  }

  ghost predicate OnlyListed(sch: Schema, t: string, c: int, i: int) {
    IsListed(sch, t, c, i) && forall d, j :: IsListed(sch, t, d, j) ==> d == c && j == i
  }

  lemma {:induction false} CountIs(types: seq<string>, t: string)
    ensures Count(types, t) == 0 <==> t !in types
    ensures Count(types, t) == 1 <==> exists i :: OnlyAt(types, t, i)
  {
    if types != [] {
      var n := |types| - 1;
      CountIs(types[..n], t);
      assert types == types[..n] + [types[n]];
      if types[n] == t {
        assert t !in types[..n] ==> OnlyAt(types, t, n);
      } else if i :| OnlyAt(types[..n], t, i) {
        assert OnlyAt(types, t, i);
      } else if i :| OnlyAt(types, t, i) {
        assert OnlyAt(types[..n], t, i);
      }
    }
  }

  ghost predicate OnlyAt(types: seq<string>, t: string, i: int) {
    0 <= i < |types| && types[i] == t && forall j :: 0 <= j < |types| && types[j] == t ==> j == i
  }

  /** The client's layer is handed on to what a field holds, unless the field holds one object of a type under which a
      single version of a single constructor is listed; vectors always hand it on. */
  lemma HandedExactly(sch: Schema, f: FieldSpec, ctx: Context)
    ensures Handed(sch, f, ctx) == if f.fullType.Object? && OneListed(sch, f.fullType.name) then None else ctx
  {
    if f.fullType.Object? {
      ListedIs(sch, f.fullType.name);
    }
  }

  lemma {:induction false} ListedIs(sch: Schema, t: string)
    ensures Listed(sch, t) == 0 <==> NoneListed(sch, t)
    ensures Listed(sch, t) == 1 <==> OneListed(sch, t)
  {
    if sch != [] {
      var n := |sch| - 1;
      ListedIs(sch[..n], t);
      CountIs(sch[n].types, t);
      ListedLater(sch, t);
    }
  }

  lemma LastListed(sch: Schema, t: string, c: int, i: int)
    requires sch != []
    ensures var n := |sch| - 1;
      IsListed(sch, t, c, i) <==>
        IsListed(sch[..n], t, c, i) || (c == n && 0 <= i < |sch[n].types| && sch[n].types[i] == t)
  {
  }

  /** The last constructor adds its own versions to those listed before. */
  lemma ListedLater(sch: Schema, t: string)
    requires sch != []
    ensures var before, types := sch[..|sch| - 1], sch[|sch| - 1].types;
      && (NoneListed(sch, t) <==> NoneListed(before, t) && t !in types)
      && (OneListed(sch, t) <==>
            (OneListed(before, t) && t !in types) || (NoneListed(before, t) && exists i :: OnlyAt(types, t, i)))
  {
    var n := |sch| - 1;
    var before, types := sch[..n], sch[n].types;
    forall c, i
      ensures IsListed(sch, t, c, i) <==> IsListed(before, t, c, i) || (c == n && 0 <= i < |types| && types[i] == t)
    {
      LastListed(sch, t, c, i);
    }
    if t in types {
      var i :| 0 <= i < |types| && types[i] == t;
      assert IsListed(sch, t, n, i);
    }
    if c, i :| OnlyListed(sch, t, c, i) {
      assert forall j :: 0 <= j < |types| && types[j] == t ==> IsListed(sch, t, n, j);
      assert c == n ==> OnlyAt(types, t, i);
      assert c != n ==> OnlyListed(before, t, c, i);
    }
    if t !in types {
      if c, i :| OnlyListed(before, t, c, i) {
        assert OnlyListed(sch, t, c, i);
      }
    }
    if NoneListed(before, t) {
      if i :| OnlyAt(types, t, i) {
        assert OnlyListed(sch, t, n, i);
      }
    }
  }

  /** The version `write` chooses; none if it refuses the client. */
  function Chosen(vs: seq<Version>, ctx: Context): (r: Option<nat>)
    requires vs != []
    ensures r.Some? ==> r.value < |vs|
  {
    var n := |vs| - 1;
    if n == 0 || ctx.None? || ctx.value >= IdLayers(vs)[n] then Some(n)
    else if ctx.value < IdLayers(vs)[0] then None
    else
      var at := BisectRight(IdLayers(vs), ctx.value);
      if 0 < at <= n then Some(at - 1) else None
  }

  /** It is the one whose id the generated `write` puts first. */
  lemma ChosenIsWritten(ids: seq<nat>, ss: seq<Slot>, vs: seq<Version>, layer: int, env: Env, enc: Encoder)
    requires |ids| == |vs| > 1 && SortedFamily(vs) && vs[0].layer <= layer <= vs[|vs| - 1].layer
    requires forall i :: 0 <= i < |vs| - 1 ==> vs[i].minLayer == vs[i].layer
    ensures var w := DowngradableWrite(ids, ss, vs, layer, env, enc);
      && Chosen(vs, Some(layer)).Some?
      && (w.Wrote? && w.bytes != [] ==> ToLE(ids[Chosen(vs, Some(layer)).value], 4) <= w.bytes)
  {
    var j := VersionAt(vs, |vs| - 1, layer);
    IdOfVersionInForce(vs, j, layer);
  }

  /** Version `i` is what a client of the layer knows; a constructor without old versions always is. */
  ghost predicate Known(vs: seq<Version>, i: nat, layer: int)
    requires i < |vs|
  {
    |vs| == 1 || InForce(vs, |vs| - 1, i, layer)
  }

  lemma ChosenIsKnown(vs: seq<Version>, layer: int)
    requires SortedFamily(vs) && layer <= vs[|vs| - 1].layer
    requires forall i :: 0 <= i < |vs| - 1 ==> vs[i].minLayer == vs[i].layer
    ensures var i := Chosen(vs, Some(layer)); i.Some? ==> i.value < |vs| && Known(vs, i.value, layer)
  {
    if |vs| > 1 && vs[0].layer <= layer {
      var j := VersionAt(vs, |vs| - 1, layer);
      IdOfVersionInForce(vs, j, layer);
    }
  }

  // ----- values that have a type, and what is written for them

  /** Object `x` is held by field `q` of version `i`. */
  predicate Within(n: Node, i: nat, q: nat, x: Node)
    ensures Within(n, i, q, x) ==> x < n
  {
    i < |n.shown| && q < |n.shown[i].fields| && InContent(n.shown[i].fields[q], x)
  }

  predicate InContent(content: Content, x: Node)
    ensures InContent(content, x) ==> x < content
  {
    x in content.objects
  }

  /** How many objects a field may hold. */
  predicate RightNumber(f: FieldSpec, k: nat) {
    match f.fullType
    case Vector(_) => true
    case _ => k <= 1 && (k == 0 ==> f.IsOptional())
  }

  ghost predicate Typed(sch: Schema, n: Node)
    decreases n
  {
    && n.ctor < |sch| && |n.shown| == |sch[n.ctor].vs|
    && (forall i :: 0 <= i < |n.shown| ==> FitsVersion(sch, sch[n.ctor].vs[i].fields, n.shown[i]))
    && forall i: nat, q: nat, x :: Within(n, i, q, x) ==> Typed(sch, x)
  }

  ghost predicate FitsVersion(sch: Schema, fields: seq<FieldSpec>, shape: Shape) {
    |shape.fields| == |fields| && forall q :: 0 <= q < |fields| ==> FitsField(sch, fields[q], shape.fields[q])
  }

  ghost predicate FitsField(sch: Schema, f: FieldSpec, content: Content) {
    match HeldType(f)
    case None => content.objects == []
    case Some(t) =>
      RightNumber(f, |content.objects|) && forall x :: x in content.objects ==> MemberOf(sch, t, x.ctor)
  }

  /** No object inside refuses the client. */
  ghost predicate Accepted(sch: Schema, n: Node, ctx: Context)
    requires Typed(sch, n) && Valid(sch)
    decreases n
  {
    var i := Chosen(sch[n.ctor].vs, ctx);
    && i.Some? && i.value < |n.shown|
    && forall q: nat, x :: Within(n, i.value, q, x) ==>
         Accepted(sch, x, Handed(sch, sch[n.ctor].vs[i.value].fields[q], ctx))
  }

  /** Somewhere in what is written for `n`, at whatever depth, an object of constructor `c` stands as version `v`. */
  ghost predicate Writes(sch: Schema, n: Node, ctx: Context, c: nat, v: nat)
    requires Typed(sch, n) && Valid(sch)
    decreases n
  {
    var i := Chosen(sch[n.ctor].vs, ctx);
    && i.Some?
    && ((c == n.ctor && v == i.value)
        || (exists q: nat, x :: Within(n, i.value, q, x)
                           && Writes(sch, x, Handed(sch, sch[n.ctor].vs[i.value].fields[q], ctx), c, v)))
  }

  /** A client of the layer knows every object in what it is sent. */
  ghost predicate OnlyKnown(sch: Schema, n: Node, layer: int)
    requires Typed(sch, n) && Valid(sch)
  {
    forall c: nat, v: nat :: Writes(sch, n, Some(layer), c, v) ==>
      c < |sch| && v < |sch[c].vs| && Known(sch[c].vs, v, layer)
  }

  // ----- where the schema leads

  ghost predicate Possible(sch: Schema, c: nat) {
    exists n :: Typed(sch, n) && n.ctor == c
  }

  /** Some object of the constructor can be written for the client. */
  ghost predicate Usable(sch: Schema, c: nat, layer: int)
    requires Valid(sch)
  {
    exists n :: Typed(sch, n) && n.ctor == c && Accepted(sch, n, Some(layer))
  }

  predicate Leads(sch: Schema, f: FieldSpec, d: nat) {
    HeldType(f).Some? && MemberOf(sch, HeldType(f).value, d)
  }

  /** One object or a list of them: a field may hold what is of its type in its newest version, and anything at all if
      its type is `Object`; a field of another type leads nowhere. */
  lemma LeadsExactly(sch: Schema, f: FieldSpec, d: nat)
    ensures forall t :: f.fullType == Object(t) || f.fullType == Vector(Object(t)) ==>
      (Leads(sch, f, d) <==>
         d < |sch| && |sch[d].types| > 0 && (t == "Object" || sch[d].types[|sch[d].types| - 1] == t))
    ensures !f.fullType.Object? && !(f.fullType.Vector? && f.fullType.elem.Object?) ==> !Leads(sch, f, d)
  {
  }

  /** Through at most `k` fields of newest versions, `c` leads to a constructor whose newest version the client does
      not know. */
  ghost predicate StaleIn(sch: Schema, layer: int, c: nat, k: nat)
    requires Valid(sch)
    decreases k
  {
    && Possible(sch, c) && c < |sch|
    && var n := |sch[c].vs| - 1;
       || !Known(sch[c].vs, n, layer)
       || (k > 0 && exists q: nat, d: nat ::
             0 <= q < |sch[c].vs[n].fields| && Leads(sch, sch[c].vs[n].fields[q], d) && StaleIn(sch, layer, d, k - 1))
  }

  /** Through at most `k` fields of versions in force that hand the layer on, `c` leads to a bare field, and that one
      to a constructor whose newest version the client does not know. */
  ghost predicate LeaksIn(sch: Schema, layer: int, c: nat, k: nat)
    requires Valid(sch)
    decreases k, 1
  {
    && Usable(sch, c, layer) && c < |sch|
    && var i := Chosen(sch[c].vs, Some(layer));
       && i.Some? && i.value < |sch[c].vs|
       && exists q: nat, d: nat ::
            q < |sch[c].vs[i.value].fields| && FieldLeaksIn(sch, layer, sch[c].vs[i.value].fields[q], d, k)
  }

  ghost predicate FieldLeaksIn(sch: Schema, layer: int, f: FieldSpec, d: nat, k: nat)
    requires Valid(sch)
    decreases k, 0
  {
    && Leads(sch, f, d)
    && if Bare(sch, f) then Stale(sch, layer, d) else k > 0 && LeaksIn(sch, layer, d, k - 1)
  }

  ghost predicate Stale(sch: Schema, layer: int, c: nat)
    requires Valid(sch)
  {
    exists k: nat :: StaleIn(sch, layer, c, k)
  }

  ghost predicate Leaks(sch: Schema, layer: int, c: nat)
    requires Valid(sch)
  {
    exists k: nat :: LeaksIn(sch, layer, c, k)
  }

  // ----- a value in which it goes wrong shows the way

  lemma HeldIsLed(sch: Schema, n: Node, i: nat, q: nat, x: Node)
    requires Typed(sch, n) && Within(n, i, q, x)
    ensures q < |sch[n.ctor].vs[i].fields| && Leads(sch, sch[n.ctor].vs[i].fields[q], x.ctor) && Typed(sch, x)
  {
    assert FitsVersion(sch, sch[n.ctor].vs[i].fields, n.shown[i]);
    assert FitsField(sch, sch[n.ctor].vs[i].fields[q], n.shown[i].fields[q]);
  }

  /** What is written below the object itself is written for one it holds. */
  lemma WrittenBelow(sch: Schema, n: Node, ctx: Context, c: nat, v: nat) returns (q: nat, x: Node)
    requires Valid(sch) && Typed(sch, n) && Writes(sch, n, ctx, c, v)
    requires !(c == n.ctor && Chosen(sch[n.ctor].vs, ctx) == Some(v))
    ensures Chosen(sch[n.ctor].vs, ctx).Some?
    ensures var i := Chosen(sch[n.ctor].vs, ctx).value;
      && i < |sch[n.ctor].vs| && q < |sch[n.ctor].vs[i].fields| && Within(n, i, q, x) && Typed(sch, x)
      && Leads(sch, sch[n.ctor].vs[i].fields[q], x.ctor)
      && Writes(sch, x, Handed(sch, sch[n.ctor].vs[i].fields[q], ctx), c, v)
  {
    var i := Chosen(sch[n.ctor].vs, ctx).value;
    q, x :| Within(n, i, q, x) && Writes(sch, x, Handed(sch, sch[n.ctor].vs[i].fields[q], ctx), c, v);
    HeldIsLed(sch, n, i, q, x);
  }

  /** Without context that is so all the way down. */
  lemma WrittenBelowNewest(sch: Schema, n: Node, c: nat, v: nat) returns (q: nat, x: Node)
    requires Valid(sch) && Typed(sch, n) && Writes(sch, n, None, c, v)
    requires !(c == n.ctor && v == |sch[c].vs| - 1)
    ensures x < n && Typed(sch, x) && Writes(sch, x, None, c, v)
    ensures var fields := sch[n.ctor].vs[|sch[n.ctor].vs| - 1].fields; q < |fields| && Leads(sch, fields[q], x.ctor)
  {
    q, x := WrittenBelow(sch, n, None, c, v);
  }

  lemma StaleBehind(sch: Schema, layer: int, n: Node, q: nat, d: nat, k: nat)
    requires Valid(sch) && Typed(sch, n) && StaleIn(sch, layer, d, k)
    requires var fields := sch[n.ctor].vs[|sch[n.ctor].vs| - 1].fields; q < |fields| && Leads(sch, fields[q], d)
    ensures StaleIn(sch, layer, n.ctor, k + 1)
  {
    assert Possible(sch, n.ctor);
  }

  lemma LeaksBehind(sch: Schema, layer: int, n: Node, q: nat, d: nat, k: nat)
    requires Valid(sch) && Typed(sch, n) && Accepted(sch, n, Some(layer))
    requires var i := Chosen(sch[n.ctor].vs, Some(layer));
      && i.Some? && i.value < |sch[n.ctor].vs| && q < |sch[n.ctor].vs[i.value].fields|
      && FieldLeaksIn(sch, layer, sch[n.ctor].vs[i.value].fields[q], d, k)
    ensures LeaksIn(sch, layer, n.ctor, k)
  {
    assert Usable(sch, n.ctor, layer);
  }

  lemma RootIsKnown(sch: Schema, n: Node, layer: int, v: nat)
    requires Valid(sch) && Typed(sch, n) && layer <= sch[n.ctor].vs[|sch[n.ctor].vs| - 1].layer
    requires Chosen(sch[n.ctor].vs, Some(layer)) == Some(v)
    ensures v < |sch[n.ctor].vs| && Known(sch[n.ctor].vs, v, layer)
  {
    assert ValidFamily(sch[n.ctor]);
    ChosenIsKnown(sch[n.ctor].vs, layer);
  }

  /** Without context every object is written as its newest version. */
  lemma {:induction false} WrongIsStale(sch: Schema, n: Node, layer: int, c: nat, v: nat) returns (k: nat)
    requires Valid(sch) && Typed(sch, n) && Writes(sch, n, None, c, v)
    requires !(c < |sch| && v < |sch[c].vs| && Known(sch[c].vs, v, layer))
    ensures StaleIn(sch, layer, n.ctor, k)
    decreases n
  {
    if c == n.ctor && v == |sch[c].vs| - 1 {
      k := 0;
    } else {
      var q, x := WrittenBelowNewest(sch, n, c, v);
      var m := WrongIsStale(sch, x, layer, c, v);
      k := m + 1;
      StaleBehind(sch, layer, n, q, x.ctor, m);
    }
  }

  function FieldChosen(sch: Schema, n: Node, layer: int, q: nat): FieldSpec
    requires n.ctor < |sch| && sch[n.ctor].vs != [] && Chosen(sch[n.ctor].vs, Some(layer)).Some?
    requires q < |sch[n.ctor].vs[Chosen(sch[n.ctor].vs, Some(layer)).value].fields|
  {
    sch[n.ctor].vs[Chosen(sch[n.ctor].vs, Some(layer)).value].fields[q]
  }

  lemma {:induction false} WrongLeaks(sch: Schema, n: Node, layer: int, c: nat, v: nat) returns (k: nat)
    requires Valid(sch) && Typed(sch, n) && Accepted(sch, n, Some(layer)) && Writes(sch, n, Some(layer), c, v)
    requires forall d :: 0 <= d < |sch| ==> layer <= sch[d].vs[|sch[d].vs| - 1].layer
    requires !(c < |sch| && v < |sch[c].vs| && Known(sch[c].vs, v, layer))
    ensures LeaksIn(sch, layer, n.ctor, k)
    decreases n
  {
    if c == n.ctor && Chosen(sch[c].vs, Some(layer)) == Some(v) {
      RootIsKnown(sch, n, layer, v);
      assert false;
    }
    var q, x := WrittenBelow(sch, n, Some(layer), c, v);
    if Bare(sch, FieldChosen(sch, n, layer, q)) {
      var m := WrongIsStale(sch, x, layer, c, v);
      assert Stale(sch, layer, x.ctor);
      k := 0;
    } else {
      var m := WrongLeaks(sch, x, layer, c, v);
      k := m + 1;
    }
    LeaksBehind(sch, layer, n, q, x.ctor, k);
  }

  // ----- and a way in the schema gives such a value

  /** `n` with `x` as all that field `q` of version `i` holds. */
  function With(n: Node, i: nat, q: nat, x: Node): Node
    requires i < |n.shown| && q < |n.shown[i].fields|
  {
    n.(shown := n.shown[i := Shape(n.shown[i].fields[q := Content([x])])])
  }

  lemma WithHolds(n: Node, i: nat, q: nat, x: Node)
    requires i < |n.shown| && q < |n.shown[i].fields|
    ensures Within(With(n, i, q, x), i, q, x)
    ensures forall i': nat, q': nat, y :: Within(With(n, i, q, x), i', q', y) ==>
      (i' == i && q' == q && y == x) || Within(n, i', q', y)
  {
  }

  lemma WithIsTyped(sch: Schema, n: Node, i: nat, q: nat, x: Node)
    requires Typed(sch, n) && i < |n.shown| && q < |sch[n.ctor].vs[i].fields|
    requires Typed(sch, x) && Leads(sch, sch[n.ctor].vs[i].fields[q], x.ctor)
    ensures |n.shown[i].fields| == |sch[n.ctor].vs[i].fields| && Typed(sch, With(n, i, q, x))
  {
    assert FitsVersion(sch, sch[n.ctor].vs[i].fields, n.shown[i]);
    WithHolds(n, i, q, x);
    var m := With(n, i, q, x);
    forall j | 0 <= j < |m.shown| ensures FitsVersion(sch, sch[m.ctor].vs[j].fields, m.shown[j]) {
      assert FitsVersion(sch, sch[n.ctor].vs[j].fields, n.shown[j]);
    }
  }

  lemma {:induction false} StaleValue(sch: Schema, layer: int, c: nat, k: nat) returns (n: Node, d: nat, v: nat)
    requires Valid(sch) && StaleIn(sch, layer, c, k)
    ensures Typed(sch, n) && n.ctor == c && Writes(sch, n, None, d, v) && Accepted(sch, n, None)
    ensures d < |sch| && v < |sch[d].vs| && !Known(sch[d].vs, v, layer)
    decreases k
  {
    n :| Typed(sch, n) && n.ctor == c;
    var last: nat := |sch[c].vs| - 1;
    NoneIsRefused(sch, n);
    if !Known(sch[c].vs, last, layer) {
      d, v := c, last;
    } else {
      var q: nat, e: nat :| 0 <= q < |sch[c].vs[last].fields| && Leads(sch, sch[c].vs[last].fields[q], e)
                  && StaleIn(sch, layer, e, k - 1);
      var x: Node;
      x, d, v := StaleValue(sch, layer, e, k - 1);
      WithIsTyped(sch, n, last, q, x);
      WithHolds(n, last, q, x);
      n := With(n, last, q, x);
      NoneIsRefused(sch, n);
    }
  }

  lemma {:induction false} NoneIsRefused(sch: Schema, n: Node)
    requires Valid(sch) && Typed(sch, n)
    ensures Accepted(sch, n, None)
    decreases n
  {
    var last: nat := |sch[n.ctor].vs| - 1;
    forall q: nat, x | Within(n, last, q, x)
      ensures Accepted(sch, x, Handed(sch, sch[n.ctor].vs[last].fields[q], None))
    {
      HeldIsLed(sch, n, last, q, x);
      NoneIsRefused(sch, x);
    }
  }

  lemma WithIsAccepted(sch: Schema, n: Node, layer: int, i: nat, q: nat, x: Node)
    requires Valid(sch) && Typed(sch, n) && Accepted(sch, n, Some(layer))
    requires Chosen(sch[n.ctor].vs, Some(layer)) == Some(i)
    requires i < |n.shown| && q < |n.shown[i].fields| && q < |sch[n.ctor].vs[i].fields|
    requires Typed(sch, x) && Accepted(sch, x, Handed(sch, sch[n.ctor].vs[i].fields[q], Some(layer)))
    requires Typed(sch, With(n, i, q, x))
    ensures Accepted(sch, With(n, i, q, x), Some(layer))
  {
    WithHolds(n, i, q, x);
  }

  lemma {:induction false} LeakingValue(sch: Schema, layer: int, c: nat, k: nat) returns (n: Node, d: nat, v: nat)
    requires Valid(sch) && LeaksIn(sch, layer, c, k)
    ensures Typed(sch, n) && n.ctor == c && Accepted(sch, n, Some(layer)) && Writes(sch, n, Some(layer), d, v)
    ensures d < |sch| && v < |sch[d].vs| && !Known(sch[d].vs, v, layer)
    decreases k
  {
    n :| Typed(sch, n) && n.ctor == c && Accepted(sch, n, Some(layer));
    var i := Chosen(sch[c].vs, Some(layer)).value;
    var q: nat, e: nat :| q < |sch[c].vs[i].fields| && FieldLeaksIn(sch, layer, sch[c].vs[i].fields[q], e, k);
    var x: Node;
    if Bare(sch, sch[c].vs[i].fields[q]) {
      var m: nat :| StaleIn(sch, layer, e, m);
      x, d, v := StaleValue(sch, layer, e, m);
    } else {
      x, d, v := LeakingValue(sch, layer, e, k - 1);
    }
    WithIsTyped(sch, n, i, q, x);
    WithIsAccepted(sch, n, layer, i, q, x);
    WithHolds(n, i, q, x);
    n := With(n, i, q, x);
  }

  // ----- a schema in which it happens

  const MESSAGE := Family(
    [Version([FieldSpec("text", None, None, Str)], 1, 1), Version([FieldSpec("text", None, None, Bytes)], 2, 2)],
    ["Message", "Message"])
  const DRAFT := Family([Version([FieldSpec("message", None, None, Object("Message"))], 2, 2)], ["Draft"])
  const DIALOG := Family([Version([FieldSpec("draft", None, None, Object("Draft"))], 2, 2)], ["Dialog"])

  /** A dialog with a draft, the only constructor of its type, with a message, which has two versions. */
  const DIALOG_NODE := Node(2, [Shape([Content([DRAFT_NODE])])])
  const DRAFT_NODE := Node(1, [Shape([Content([MESSAGE_NODE])])])
  const MESSAGE_NODE := Node(0, [Shape([Content([])]), Shape([Content([])])])

  function Dialogs(): Schema {
    [MESSAGE, DRAFT, DIALOG]
  }

  lemma CountOne(t: string, u: string)
    ensures Count([u], t) == if u == t then 1 else 0
  {
    assert [u][..0] == [];
  }

  lemma CountTwo(t: string, u: string)
    ensures Count([u, u], t) == if u == t then 2 else 0
  {
    assert [u, u][..1] == [u];
    CountOne(t, u);
  }

  lemma DialogsListed(t: string)
    ensures Listed(Dialogs(), t) == Count(MESSAGE.types, t) + Count(DRAFT.types, t) + Count(DIALOG.types, t)
  {
    var none: Schema := [];
    assert Dialogs()[..2] == [MESSAGE, DRAFT] && [MESSAGE, DRAFT][..1] == [MESSAGE] && [MESSAGE][..0] == none;
    assert Listed(none, t) == 0;
    assert Listed([MESSAGE], t) == Count(MESSAGE.types, t);
    assert Listed([MESSAGE, DRAFT], t) == Count(MESSAGE.types, t) + Count(DRAFT.types, t);
  }

  /** The field that holds a draft is written without context, the one that holds a dialog's message is not. */
  lemma OnlyDraftIsBare()
    ensures Bare(Dialogs(), DIALOG.vs[0].fields[0]) && !Bare(Dialogs(), DRAFT.vs[0].fields[0])
  {
    assert |"Message"| == 7 && |"Draft"| == 5 && |"Dialog"| == 6;
    DialogsListed("Draft");
    DialogsListed("Message");
    CountTwo("Draft", "Message");
    CountOne("Draft", "Draft");
    CountOne("Draft", "Dialog");
    CountTwo("Message", "Message");
  }

  lemma DialogsAreValid()
    ensures Valid(Dialogs())
  {
  }

  lemma NodesAreTyped()
    ensures Typed(Dialogs(), MESSAGE_NODE) && Typed(Dialogs(), DRAFT_NODE) && Typed(Dialogs(), DIALOG_NODE)
  {
    assert MESSAGE.types[1] == "Message" && DRAFT.types[0] == "Draft";
    assert Typed(Dialogs(), MESSAGE_NODE);
    assert FitsField(Dialogs(), DRAFT.vs[0].fields[0], DRAFT_NODE.shown[0].fields[0]);
    assert Typed(Dialogs(), DRAFT_NODE);
    assert FitsField(Dialogs(), DIALOG.vs[0].fields[0], DIALOG_NODE.shown[0].fields[0]);
  }

  lemma WritesBelow(sch: Schema, n: Node, ctx: Context, i: nat, q: nat, x: Node, c: nat, v: nat)
    requires Valid(sch) && Typed(sch, n) && Typed(sch, x)
    requires Chosen(sch[n.ctor].vs, ctx) == Some(i) && Within(n, i, q, x)
    requires i < |sch[n.ctor].vs| && q < |sch[n.ctor].vs[i].fields|
    requires Writes(sch, x, Handed(sch, sch[n.ctor].vs[i].fields[q], ctx), c, v)
    ensures Writes(sch, n, ctx, c, v)
  {
  }

  lemma AcceptsOne(sch: Schema, n: Node, ctx: Context, i: nat, x: Node)
    requires Valid(sch) && Typed(sch, n) && Typed(sch, x) && Chosen(sch[n.ctor].vs, ctx) == Some(i) && i < |n.shown|
    requires n.shown[i] == Shape([Content([x])])
    requires 0 < |sch[n.ctor].vs[i].fields| && Accepted(sch, x, Handed(sch, sch[n.ctor].vs[i].fields[0], ctx))
    ensures Accepted(sch, n, ctx)
  {
  }

  lemma MessageAlone()
    requires Valid(Dialogs()) && Typed(Dialogs(), MESSAGE_NODE)
    ensures OnlyKnown(Dialogs(), MESSAGE_NODE, 1) && !Known(MESSAGE.vs, 1, 1)
  {
    ChosenIsKnown(MESSAGE.vs, 1);
    assert forall i: nat, q: nat, x :: !Within(MESSAGE_NODE, i, q, x);
  }

  /** A client of layer 1 that is sent the dialog gets the message as layer 2 has it; sent by itself the message is
      written as layer 1 has it. */
  lemma DialogLeaks()
    ensures Valid(Dialogs()) && Typed(Dialogs(), DIALOG_NODE) && Typed(Dialogs(), MESSAGE_NODE)
    ensures Accepted(Dialogs(), DIALOG_NODE, Some(1)) && Writes(Dialogs(), DIALOG_NODE, Some(1), 0, 1)
    ensures !Known(MESSAGE.vs, 1, 1) && OnlyKnown(Dialogs(), MESSAGE_NODE, 1)
  {
    DialogsAreValid();
    NodesAreTyped();
    OnlyDraftIsBare();
    NoneIsRefused(Dialogs(), DRAFT_NODE);
    WritesBelow(Dialogs(), DRAFT_NODE, None, 0, 0, MESSAGE_NODE, 0, 1);
    WritesBelow(Dialogs(), DIALOG_NODE, Some(1), 0, 0, DRAFT_NODE, 0, 1);
    AcceptsOne(Dialogs(), DIALOG_NODE, Some(1), 0, DRAFT_NODE);
    MessageAlone();
  }

  /** Whatever objects of a constructor are written for a client, at every depth it knows each object inside, if and
      only if the schema has no way from that constructor, by versions in force, to a field written without context
      and from there, by newest versions, to a constructor whose newest version the client does not know. */
  lemma NestedKnownExactly(sch: Schema, layer: int, c: nat)
    requires Valid(sch) && forall d :: 0 <= d < |sch| ==> layer <= sch[d].vs[|sch[d].vs| - 1].layer
    ensures (forall n :: Typed(sch, n) && n.ctor == c && Accepted(sch, n, Some(layer)) ==> OnlyKnown(sch, n, layer))
      <==> !Leaks(sch, layer, c)
  {
    if k: nat :| LeaksIn(sch, layer, c, k) {
      var n, d, v := LeakingValue(sch, layer, c, k);
      assert !OnlyKnown(sch, n, layer);
    } else {
      forall n | Typed(sch, n) && n.ctor == c && Accepted(sch, n, Some(layer)) ensures OnlyKnown(sch, n, layer) {
        forall d: nat, v: nat | Writes(sch, n, Some(layer), d, v)
          ensures d < |sch| && v < |sch[d].vs| && Known(sch[d].vs, v, layer)
        {
          if !(d < |sch| && v < |sch[d].vs| && Known(sch[d].vs, v, layer)) {
            var k := WrongLeaks(sch, n, layer, d, v);
          }
        }
      }
    }
  }
}
