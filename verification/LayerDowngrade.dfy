/** The guarded serializer that the generator emits from a merged list, its meaning for one client layer, what it
    takes for it to write what the historical serializer writes, and what each side writes for one entry. */
module LayerDowngrade {
  import opened Containers
  import opened TlSchema
  import opened TlCode
  import opened TlPrimitives
  import opened LayerMergeFacts

  // ----- emitted code

  /** The field of the base constructor with this name, as the generator's name table has it. */
  function Lookup(fields: seq<FieldSpec>, name: string): Option<FieldSpec> {
    if fields == [] then None
    else
      var n := |fields| - 1;
      if fields[n].name == name then Some(fields[n]) else Lookup(fields[..n], name)
  }

  /** A value comes from the object itself only if the base constructor has exactly this field. */
  function SourceOf(base: seq<FieldSpec>, s: Slot): Src {
    match Lookup(base, s.spec.name)
    case None => Fallback(s.spec.name, s.lo)
    case Some(f) => if f == s.spec then Self(s.spec.name) else Downgrade(s.spec.name, s.lo)
  }

  /** A bound is tested only if some version lies beyond it. */
  function GuardOf(s: Slot, oldest: int, top: int): Guard {
    Guard(if s.lo > oldest then Some(s.lo) else None, if s.hi < top then Some(s.hi) else None)
  }

  /** The conditional fields a flag word collects: those whose interval starts inside the word's own. */
  predicate Collects(f: Slot, o: Slot) {
    o.spec.IsOptional() && o.spec.flagNum == f.spec.flagNum && f.lo <= o.lo <= f.hi
  }

  function DownTerms(ss: seq<Slot>, f: Slot, base: seq<FieldSpec>, oldest: int, top: int): seq<FlagTerm> {
    if ss == [] then []
    else
      var n := |ss| - 1;
      DownTerms(ss[..n], f, base, oldest, top)
      + (if Collects(f, ss[n])
         then [FlagTerm(GuardOf(ss[n], oldest, top), SourceOf(base, ss[n]), FlagTest(ss[n].spec),
                        ss[n].spec.flagBit.value)]
         else [])
  }

  /** Some other entry uses the bit of `ss[k]` and starts inside its interval. */
  predicate DownShares(ss: seq<Slot>, k: nat)
    requires k < |ss|
  {
    exists m :: 0 <= m < |ss| && m != k && SameBit(ss[m].spec, ss[k].spec) && ss[k].lo <= ss[m].lo <= ss[k].hi
  }

  function DownStmt(ss: seq<Slot>, k: nat, base: seq<FieldSpec>, oldest: int, top: int): seq<Stmt>
    requires k < |ss|
  {
    var s := ss[k];
    var guard := if s.spec.Write() then GuardOf(s, oldest, top) else NO_GUARD;
    if s.spec.IsFlag() then
      [FlagWord(guard, if s.spec.flagNum.Some? then s.spec.flagNum.value else 0, DownTerms(ss, s, base, oldest, top))]
    else if s.spec.IsOptional() then
      if s.spec.Write()
      then [Put(guard, SourceOf(base, s), s.spec.fullType, Some(BodyTest(DownShares(ss, k), s.spec)))]
      else []
    else
      [Put(guard, SourceOf(base, s), s.spec.fullType, None)]
  }

  function DownUpTo(ss: seq<Slot>, k: nat, base: seq<FieldSpec>, oldest: int, top: int): seq<Stmt>
    requires k <= |ss|
  {
    if k == 0 then [] else DownUpTo(ss, k - 1, base, oldest, top) + DownStmt(ss, k - 1, base, oldest, top)
  }

  function DownBody(ss: seq<Slot>, vs: seq<Version>): seq<Stmt>
    requires vs != []
  {
    DownUpTo(ss, |ss|, vs[|vs| - 1].fields, vs[0].minLayer, vs[|vs| - 1].layer)
  }

  /** The generator refuses a flag word that the base constructor does not have as it is. */
  predicate Generates(ss: seq<Slot>, base: seq<FieldSpec>) {
    forall k :: 0 <= k < |ss| && ss[k].spec.IsFlag() ==> Lookup(base, ss[k].spec.name) == Some(ss[k].spec)
  }

  // ----- the object as the version in force sees it

  function SlotNamed(ss: seq<Slot>, layer: int, name: string): Option<Slot> {
    if ss == [] then None
    else
      var n := |ss| - 1;
      if Holds(layer)(ss[n]) && ss[n].spec.name == name then Some(ss[n]) else SlotNamed(ss[..n], layer, name)
  }

  /** The converted values: each field of the version in force at `layer`, as the converters give it. */
  function VersionEnv(ss: seq<Slot>, base: seq<FieldSpec>, layer: int, env: Env): Env {
    (src: Src) =>
      match SlotNamed(ss, layer, src.name)
      case Some(s) => env(SourceOf(base, s))
      case None => NoneV
  }

  // ----- the exact condition

  /** Another entry seen at `layer` uses the bit of `ss[k]`. */
  predicate SharesAt(ss: seq<Slot>, layer: int, k: nat)
    requires k < |ss|
  {
    exists m :: 0 <= m < |ss| && m != k && SameBit(ss[m].spec, ss[k].spec) && Holds(layer)(ss[m])
  }

  /** The flag word `ss[f]` is later than `ss[o]`, but collects a field on the same bit that is never empty when
      given. */
  predicate Covered(ss: seq<Slot>, layer: int, f: nat, o: nat)
    requires f < |ss| && o < |ss|
  {
    exists m :: 0 <= m < |ss| && Holds(layer)(ss[m]) && Covers(ss[m], ss[f], ss[o])
  }

  predicate Covers(m: Slot, f: Slot, o: Slot) {
    SameBit(m.spec, o.spec) && f.lo <= m.lo && !m.spec.IsVector()
  }

  /** At `layer`, flag words reach back far enough and shared bits are recognised as such. */
  ghost predicate AgreesAt(ss: seq<Slot>, layer: int) {
    && WordsReach(ss, layer)
    && (forall o :: 0 <= o < |ss| && Holds(layer)(ss[o]) && ss[o].spec.IsOptional() && ss[o].spec.IsVector()
          ==> (DownShares(ss, o) <==> SharesAt(ss, layer, o)))
  }

  /** Every flag word in use at `layer` is as old as each field it announces, or its bit is covered. */
  ghost predicate WordsReach(ss: seq<Slot>, layer: int) {
    forall f, o :: 0 <= f < |ss| && 0 <= o < |ss| && Holds(layer)(ss[f]) && Holds(layer)(ss[o])
        && ss[f].spec.IsFlag() && ss[o].spec.IsOptional() && ss[o].spec.flagNum == ss[f].spec.flagNum
        ==> ss[f].lo <= ss[o].lo || Covered(ss, layer, f, o)
  }

  ghost predicate Agrees(ss: seq<Slot>, vs: seq<Version>)
    requires vs != []
  {
    forall layer :: vs[0].layer <= layer < Start(vs, |vs| - 1) ==> AgreesAt(ss, layer)
  }

  /** For one layer and one object, the emitted body writes what the body of version `j` writes. */
  ghost predicate SameBytes(ss: seq<Slot>, vs: seq<Version>, j: nat, layer: int, env: Env, enc: Encoder)
    requires j < |vs|
  {
    Run(DownBody(ss, vs), layer, env, enc)
    == Run(PlainBody(vs[j].fields), layer, VersionEnv(ss, vs[|vs| - 1].fields, layer, env), enc)
  }

  /** A value its writer takes; objects are written by code of their own. */
  ghost predicate Typed(ty: TlType, v: Value)
    decreases v
  {
    match ty
    case Vector(elem) =>
      v.VecV? && |v.items| < 0x8000_0000 && forall i :: 0 <= i < |v.items| ==> Typed(elem, v.items[i])
    case Object(_) => v.ObjV?
    case _ => Scalar(ty, v)
  }

  /** A value a field may have; a conditional one may be left out. */
  ghost predicate Suits(f: FieldSpec, v: Value) {
    if !f.Write() then v.BoolV? else (f.IsOptional() && v.NoneV?) || Typed(f.fullType, v)
  }

  ghost predicate AllSuit(fields: seq<FieldSpec>, env: Env) {
    forall k :: 0 <= k < |fields| && !fields[k].IsFlag() ==> Suits(fields[k], env(Self(fields[k].name)))
  }

  /** An object the serializer of these fields does not raise on. */
  ghost predicate Genuine(fields: seq<FieldSpec>, env: Env) {
    AllSuit(fields, env) && SharedBitsAgree(fields, env)
  }

  /** A client of `layer` gets version `j`, and the converted object is one that version can write. */
  ghost predicate Served(ss: seq<Slot>, vs: seq<Version>, j: nat, layer: int, env: Env) {
    && j < |vs| - 1 && InForce(vs, |vs| - 1, j, layer)
    && Genuine(vs[j].fields, VersionEnv(ss, vs[|vs| - 1].fields, layer, env))
  }

  /** The emitted body stands in for every older version, for every object that version can write. */
  ghost predicate Refines(ss: seq<Slot>, vs: seq<Version>, enc: Encoder)
    requires vs != []
  {
    forall j: nat, layer: int, env: Env {:trigger Served(ss, vs, j, layer, env)} ::
      Served(ss, vs, j, layer, env) ==> SameBytes(ss, vs, j, layer, env, enc)
  }

  /** A merged family as the generator builds it. */
  ghost predicate Ready(ss: seq<Slot>, vs: seq<Version>) {
    && SortedFamily(vs) && |vs| > 1
    && (forall i :: 0 <= i < |vs| ==> WellFormedFields(vs[i].fields))
    && Merged(ss, vs, |vs| - 1)
  }

  // ----- piece by piece

  ghost predicate SeenAt(ss: seq<Slot>, vs: seq<Version>, j: nat, layer: int) {
    && Ready(ss, vs) && j < |vs| - 1 && InForce(vs, |vs| - 1, j, layer)
  }

  /** Where slot `k` stands in the field list of the version in force. */
  function Rank(ss: seq<Slot>, k: nat, layer: int): nat
    requires k <= |ss|
  {
    |Filter(ss[..k], Holds(layer))|
  }

  lemma RankIs(ss: seq<Slot>, k: nat, layer: int)
    requires k < |ss|
    ensures Rank(ss, k + 1, layer) == Rank(ss, k, layer) + (if Holds(layer)(ss[k]) then 1 else 0)
    ensures Rank(ss, k + 1, layer) <= |View(ss, layer)|
    ensures Holds(layer)(ss[k]) ==>
      Rank(ss, k, layer) < |View(ss, layer)| && View(ss, layer)[Rank(ss, k, layer)] == ss[k].spec
  {
    var p := Holds(layer);
    assert ss[..k + 1][..k] == ss[..k];
    FilterSplit(ss, k + 1, p);
    assert Filter(ss[..k + 1], p) == Filter(ss[..k], p) + (if p(ss[k]) then [ss[k]] else []);
  }

  lemma RankMonotone(ss: seq<Slot>, k: nat, m: nat, layer: int)
    requires k < m < |ss| && Holds(layer)(ss[k])
    ensures Rank(ss, k, layer) < Rank(ss, m, layer)
    decreases m - k
  {
    RankIs(ss, k, layer);
    if k + 1 < m {
      if Holds(layer)(ss[k + 1]) {
        RankMonotone(ss, k + 1, m, layer);
      } else {
        RankSkips(ss, k + 1, m, layer);
      }
    }
  }

  lemma RankSkips(ss: seq<Slot>, k: nat, m: nat, layer: int)
    requires k <= m <= |ss|
    ensures Rank(ss, k, layer) <= Rank(ss, m, layer)
    decreases m - k
  {
    if k < m {
      RankIs(ss, k, layer);
      RankSkips(ss, k + 1, m, layer);
    }
  }

  /** Every field of the version in force is the spec of a slot seen at that layer. */
  lemma SlotAtRank(ss: seq<Slot>, layer: int, q: nat) returns (k: nat)
    requires q < |View(ss, layer)|
    ensures k < |ss| && Holds(layer)(ss[k]) && Rank(ss, k, layer) == q && ss[k].spec == View(ss, layer)[q]
  {
    FilterWhere(ss, Holds(layer));
    k := Where(ss, Holds(layer))[q];
    RankOfWhere(ss, layer, q);
    RankIs(ss, k, layer);
  }

  lemma {:induction false} RankOfWhere(ss: seq<Slot>, layer: int, q: nat)
    requires q < |Where(ss, Holds(layer))|
    ensures Rank(ss, Where(ss, Holds(layer))[q], layer) == q
    decreases |ss|
  {
    var n := |ss| - 1;
    var w, w' := Where(ss, Holds(layer)), Where(ss[..n], Holds(layer));
    FilterWhere(ss[..n], Holds(layer));
    if q < |w'| {
      RankOfWhere(ss[..n], layer, q);
      assert w[q] == w'[q] && ss[..n][..w[q]] == ss[..w[q]];
    }
  }

  /** One comparison: a merged family, an older version, a layer it is in force at, an object and an encoder. */
  datatype Scene = Scene(ss: seq<Slot>, vs: seq<Version>, j: nat, layer: int, env: Env, enc: Encoder)
  {
    ghost predicate Valid() {
      SeenAt(ss, vs, j, layer)
    }

    function Base(): seq<FieldSpec>
      requires vs != []
    {
      vs[|vs| - 1].fields
    }

    function Old(): seq<FieldSpec>
      requires j < |vs|
    {
      vs[j].fields
    }

    function Env'(): Env
      requires vs != []
    {
      VersionEnv(ss, Base(), layer, env)
    }

    function ValueOf(k: nat): Value
      requires vs != [] && k < |ss|
    {
      env(SourceOf(Base(), ss[k]))
    }

    predicate Seen(k: nat)
      requires k < |ss|
    {
      Holds(layer)(ss[k])
    }

    /** What the emitted body writes for slot `k`. */
    function Down(k: nat): seq<byte>
      requires vs != [] && k < |ss|
    {
      Run(DownStmt(ss, k, Base(), vs[0].minLayer, vs[|vs| - 1].layer), layer, env, enc)
    }

    /** What the serializer of the version in force writes for it. */
    function Plain(k: nat): seq<byte>
      requires j < |vs| && k < |ss| && (Seen(k) ==> Rank(ss, k, layer) < |Old()|)
    {
      if Seen(k) then Run(PlainStmt(Old(), Rank(ss, k, layer)), layer, Env'(), enc) else []
    }
  }

  lemma SceneFacts(c: Scene)
    requires c.Valid()
    ensures View(c.ss, c.layer) == c.Old() && WellFormedFields(c.Old()) && c.vs != []
    ensures c.vs[0].minLayer <= c.vs[0].layer <= c.layer < c.vs[|c.vs| - 1].layer
  {
    var n := |c.vs| - 1;
    assert Exact(c.ss, c.vs, n);
    assert Start(c.vs, c.j + 1) <= c.vs[c.j + 1].layer <= c.vs[n].layer;
    if c.j > 0 {
      assert c.vs[0].layer < c.vs[c.j].minLayer;
    }
  }

  lemma SeenRank(c: Scene, k: nat)
    requires c.Valid() && k < |c.ss| && c.Seen(k)
    ensures Rank(c.ss, k, c.layer) < |c.Old()| && c.Old()[Rank(c.ss, k, c.layer)] == c.ss[k].spec
    ensures WellFormedField(c.ss[k].spec)
  {
    SceneFacts(c);
    RankIs(c.ss, k, c.layer);
  }

  lemma GuardIsSeen(c: Scene, k: nat)
    requires c.Valid() && k < |c.ss|
    ensures Allows(GuardOf(c.ss[k], c.vs[0].minLayer, c.vs[|c.vs| - 1].layer), c.layer) <==> c.Seen(k)
  {
    SceneFacts(c);
  }

  /** At one layer a name belongs to one slot. */
  lemma OneSlotPerName(c: Scene, k: nat, m: nat)
    requires c.Valid() && k < |c.ss| && m < |c.ss| && c.Seen(k) && c.Seen(m)
    requires c.ss[k].spec.name == c.ss[m].spec.name
    ensures k == m
  {
    SeenRank(c, k);
    SeenRank(c, m);
    SceneFacts(c);
    if k < m {
      RankMonotone(c.ss, k, m, c.layer);
    } else if m < k {
      RankMonotone(c.ss, m, k, c.layer);
    }
  }

  lemma {:induction false} SlotNamedFinds(ss: seq<Slot>, layer: int, k: nat)
    requires k < |ss| && Holds(layer)(ss[k])
    requires forall m :: 0 <= m < |ss| && Holds(layer)(ss[m]) && ss[m].spec.name == ss[k].spec.name ==> m == k
    ensures SlotNamed(ss, layer, ss[k].spec.name) == Some(ss[k])
    decreases |ss|
  {
    var n := |ss| - 1;
    if k < n {
      assert ss[..n][k] == ss[k];
      SlotNamedFinds(ss[..n], layer, k);
    }
  }

  lemma ConvertedValue(c: Scene, k: nat)
    requires c.Valid() && k < |c.ss| && c.Seen(k)
    ensures c.Env'()(Self(c.ss[k].spec.name)) == c.ValueOf(k)
  {
    forall m | 0 <= m < |c.ss| && Holds(c.layer)(c.ss[m]) && c.ss[m].spec.name == c.ss[k].spec.name ensures m == k {
      OneSlotPerName(c, k, m);
    }
    SlotNamedFinds(c.ss, c.layer, k);
  }

  lemma SharesIsSharesAt(c: Scene, k: nat)
    requires c.Valid() && k < |c.ss| && c.Seen(k) && Rank(c.ss, k, c.layer) < |c.Old()|
    ensures SharesBit(c.Old(), Rank(c.ss, k, c.layer)) <==> SharesAt(c.ss, c.layer, k)
  {
    SceneFacts(c);
    SeenRank(c, k);
    var q := Rank(c.ss, k, c.layer);
    if SharesBit(c.Old(), q) {
      var r :| 0 <= r < |c.Old()| && r != q && SameBit(c.Old()[r], c.Old()[q]);
      var m := SlotAtRank(c.ss, c.layer, r);
      assert m != k && SameBit(c.ss[m].spec, c.ss[k].spec);
    }
    if SharesAt(c.ss, c.layer, k) {
      var m :| 0 <= m < |c.ss| && m != k && SameBit(c.ss[m].spec, c.ss[k].spec) && Holds(c.layer)(c.ss[m]);
      SeenRank(c, m);
      if m < k {
        RankMonotone(c.ss, m, k, c.layer);
      } else {
        RankMonotone(c.ss, k, m, c.layer);
      }
      assert SameBit(c.Old()[Rank(c.ss, m, c.layer)], c.Old()[q]);
    }
  }

  // ----- the bits of a flag word

  lemma {:induction false} DownTermIn(ss: seq<Slot>, f: Slot, base: seq<FieldSpec>, oldest: int, top: int, o: nat)
    requires o < |ss| && Collects(f, ss[o])
    ensures FlagTerm(GuardOf(ss[o], oldest, top), SourceOf(base, ss[o]), FlagTest(ss[o].spec), ss[o].spec.flagBit.value)
            in DownTerms(ss, f, base, oldest, top)
    decreases |ss|
  {
    var n := |ss| - 1;
    if o < n {
      assert ss[..n][o] == ss[o];
      DownTermIn(ss[..n], f, base, oldest, top, o);
    }
  }

  lemma {:induction false} DownTermFrom(
    ss: seq<Slot>, f: Slot, base: seq<FieldSpec>, oldest: int, top: int, t: FlagTerm) returns (o: nat)
    requires t in DownTerms(ss, f, base, oldest, top)
    ensures o < |ss| && Collects(f, ss[o])
    ensures t == FlagTerm(GuardOf(ss[o], oldest, top), SourceOf(base, ss[o]), FlagTest(ss[o].spec),
                          ss[o].spec.flagBit.value)
    decreases |ss|
  {
    var n := |ss| - 1;
    if t in DownTerms(ss[..n], f, base, oldest, top) {
      o := DownTermFrom(ss[..n], f, base, oldest, top, t);
    } else {
      o := n;
    }
  }

  /** Slot `o` is seen, belongs to the flag word `f`, and its value sets the bit. */
  predicate Sets(c: Scene, f: nat, o: nat)
    requires c.vs != [] && f < |c.ss| && o < |c.ss|
  {
    && c.Seen(o) && c.ss[o].spec.IsOptional() && c.ss[o].spec.flagNum == c.ss[f].spec.flagNum
    && Passes(FlagTest(c.ss[o].spec), c.ValueOf(o))
  }

  function DownBits(c: Scene, f: nat): set<nat>
    requires c.vs != [] && f < |c.ss|
  {
    BitsOf(DownTerms(c.ss, c.ss[f], c.Base(), c.vs[0].minLayer, c.vs[|c.vs| - 1].layer), c.layer, c.env)
  }

  function PlainBits(c: Scene, f: nat): set<nat>
    requires c.j < |c.vs| && f < |c.ss|
  {
    BitsOf(PlainTerms(c.Old(), c.ss[f].spec.flagNum), c.layer, c.Env'())
  }

  lemma DownBitFrom(c: Scene, f: nat, b: nat) returns (o: nat)
    requires c.Valid() && f < |c.ss| && b in DownBits(c, f)
    ensures o < |c.ss| && Sets(c, f, o) && c.ss[o].spec.flagBit == Some(b) && Collects(c.ss[f], c.ss[o])
  {
    var base, oldest, top := c.Base(), c.vs[0].minLayer, c.vs[|c.vs| - 1].layer;
    var terms := DownTerms(c.ss, c.ss[f], base, oldest, top);
    var t :| t in terms && Allows(t.guard, c.layer) && Passes(t.test, c.env(t.src)) && t.bit == b;
    o := DownTermFrom(c.ss, c.ss[f], base, oldest, top, t);
    GuardIsSeen(c, o);
  }

  lemma DownBitIn(c: Scene, f: nat, o: nat)
    requires c.Valid() && f < |c.ss| && o < |c.ss| && Sets(c, f, o) && Collects(c.ss[f], c.ss[o])
    ensures c.ss[o].spec.flagBit.value in DownBits(c, f)
  {
    GuardIsSeen(c, o);
    DownBitAllowed(c, f, o);
  }

  lemma DownBitAllowed(c: Scene, f: nat, o: nat)
    requires c.vs != [] && f < |c.ss| && o < |c.ss| && Sets(c, f, o) && Collects(c.ss[f], c.ss[o])
    requires Allows(GuardOf(c.ss[o], c.vs[0].minLayer, c.vs[|c.vs| - 1].layer), c.layer)
    ensures c.ss[o].spec.flagBit.value in DownBits(c, f)
  {
    DownTermIn(c.ss, c.ss[f], c.Base(), c.vs[0].minLayer, c.vs[|c.vs| - 1].layer, o);
  }

  lemma PlainBitFrom(c: Scene, f: nat, b: nat) returns (o: nat)
    requires c.Valid() && f < |c.ss| && b in PlainBits(c, f)
    ensures o < |c.ss| && Sets(c, f, o) && c.ss[o].spec.flagBit == Some(b)
  {
    SceneFacts(c);
    var terms := PlainTerms(c.Old(), c.ss[f].spec.flagNum);
    var t :| t in terms && Allows(t.guard, c.layer) && Passes(t.test, c.Env'()(t.src)) && t.bit == b;
    var q := PlainTermFrom(c.Old(), c.ss[f].spec.flagNum, t);
    o := SlotAtRank(c.ss, c.layer, q);
    ConvertedValue(c, o);
  }

  lemma PlainBitIn(c: Scene, f: nat, o: nat)
    requires c.Valid() && f < |c.ss| && o < |c.ss| && Sets(c, f, o)
    ensures c.ss[o].spec.flagBit.value in PlainBits(c, f)
  {
    SeenRank(c, o);
    ConvertedValue(c, o);
    PlainTermIn(c.Old(), c.ss[f].spec.flagNum, Rank(c.ss, o, c.layer));
  }

  // ----- what each side writes for one slot

  lemma RunAtMostOne(code: seq<Stmt>, layer: int, env: Env, enc: Encoder)
    requires |code| <= 1
    ensures Run(code, layer, env, enc) == if code == [] then [] else RunStmt(code[0], layer, env, enc)
  {
    if code != [] {
      assert code == [code[0]];
      RunOne(code[0], layer, env, enc);
    }
  }

  function Written(c: Scene, k: nat, test: Test): seq<byte>
    requires c.vs != [] && k < |c.ss|
  {
    if Passes(test, c.ValueOf(k)) then c.enc(c.ss[k].spec.fullType, c.ValueOf(k)) else []
  }

  lemma DownPieceIs(c: Scene, k: nat)
    requires c.vs != [] && k < |c.ss| && WellFormedField(c.ss[k].spec)
    requires Allows(GuardOf(c.ss[k], c.vs[0].minLayer, c.vs[|c.vs| - 1].layer), c.layer) <==> c.Seen(k)
    ensures !c.Seen(k) ==> c.Down(k) == []
    ensures c.Seen(k) ==>
              var f := c.ss[k].spec;
              c.Down(k) == if f.IsFlag() then FlagBytes(DownBits(c, k))
                           else if !f.IsOptional() then c.enc(f.fullType, c.ValueOf(k))
                           else if !f.Write() then []
                           else Written(c, k, BodyTest(DownShares(c.ss, k), f))
  {
    RunAtMostOne(DownStmt(c.ss, k, c.Base(), c.vs[0].minLayer, c.vs[|c.vs| - 1].layer), c.layer, c.env, c.enc);
  }

  lemma DownPiece(c: Scene, k: nat)
    requires c.Valid() && k < |c.ss|
    ensures !c.Seen(k) ==> c.Down(k) == []
    ensures c.Seen(k) ==>
              var f := c.ss[k].spec;
              c.Down(k) == if f.IsFlag() then FlagBytes(DownBits(c, k))
                           else if !f.IsOptional() then c.enc(f.fullType, c.ValueOf(k))
                           else if !f.Write() then []
                           else Written(c, k, BodyTest(DownShares(c.ss, k), f))
  {
    GuardIsSeen(c, k);
    SlotIsWellFormed(c, k);
    DownPieceIs(c, k);
  }

  /** Every slot is a field of the version that starts where the slot does. */
  lemma SlotComesFrom(ss: seq<Slot>, vs: seq<Version>, k: nat) returns (i: nat, q: nat)
    requires SortedFamily(vs) && Merged(ss, vs, |vs| - 1) && k < |ss|
    ensures i < |vs| && ss[k].lo == Start(vs, i) && Holds(ss[k].lo)(ss[k])
    ensures q < |vs[i].fields| && vs[i].fields[q] == ss[k].spec
    ensures View(ss, ss[k].lo) == vs[i].fields && q == Rank(ss, k, ss[k].lo)
  {
    var n := |vs| - 1;
    assert ss[k] in ss;
    i :| 0 <= i <= n && ss[k].lo == Start(vs, i);
    StartInForce(vs, i);
    assert Exact(ss, vs, n);
    q := Rank(ss, k, ss[k].lo);
    RankIs(ss, k, ss[k].lo);
  }

  lemma StartInForce(vs: seq<Version>, i: nat)
    requires SortedFamily(vs) && i < |vs|
    ensures InForce(vs, |vs| - 1, i, Start(vs, i))
  {
    if i < |vs| - 1 {
      assert Start(vs, i) <= vs[i].layer < vs[i + 1].minLayer;
    }
  }

  lemma SlotIsWellFormed(c: Scene, k: nat)
    requires c.Valid() && k < |c.ss|
    ensures WellFormedField(c.ss[k].spec)
  {
    var i, q := SlotComesFrom(c.ss, c.vs, k);
    assert WellFormedFields(c.vs[i].fields);
  }

  lemma PlainPieceIs(c: Scene, k: nat, q: nat)
    requires c.j < |c.vs| && k < |c.ss| && c.Seen(k) && q == Rank(c.ss, k, c.layer) < |c.Old()|
    requires c.Old()[q] == c.ss[k].spec && c.Env'()(Self(c.ss[k].spec.name)) == c.ValueOf(k)
    requires SharesBit(c.Old(), q) <==> SharesAt(c.ss, c.layer, k)
    ensures var f := c.ss[k].spec;
            c.Plain(k) == if f.IsFlag() then FlagBytes(PlainBits(c, k))
                          else if !f.IsOptional() then c.enc(f.fullType, c.ValueOf(k))
                          else if !f.Write() then []
                          else Written(c, k, BodyTest(SharesAt(c.ss, c.layer, k), f))
  {
    RunAtMostOne(PlainStmt(c.Old(), q), c.layer, c.Env'(), c.enc);
  }

  lemma PlainPiece(c: Scene, k: nat)
    requires c.Valid() && k < |c.ss| && c.Seen(k)
    ensures Rank(c.ss, k, c.layer) < |c.Old()|
    ensures var f := c.ss[k].spec;
            c.Plain(k) == if f.IsFlag() then FlagBytes(PlainBits(c, k))
                          else if !f.IsOptional() then c.enc(f.fullType, c.ValueOf(k))
                          else if !f.Write() then []
                          else Written(c, k, BodyTest(SharesAt(c.ss, c.layer, k), f))
  {
    SeenRank(c, k);
    ConvertedValue(c, k);
    SharesIsSharesAt(c, k);
    PlainPieceIs(c, k, Rank(c.ss, k, c.layer));
  }

  /** Both sides write the same for slot `k`. */
  ghost predicate Matches(c: Scene, k: nat)
    requires c.j < |c.vs|
  {
    && k < |c.ss|
    && (c.Seen(k) ==> Rank(c.ss, k, c.layer) < |c.Old()|)
    && c.Down(k) == c.Plain(k)
  }
}
