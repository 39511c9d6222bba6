/** Where the guarded serializer takes each value from, told by the versions alone: from the object, from a converter
    for a field the newest version lacks, or from one for a field it has in another form. */
module LayerSources {
  import opened Containers
  import opened TlSchema
  import opened TlCode
  import opened LayerMergeFacts
  import opened LayerDowngrade

  /** Field `f` of version `j` has stood in place since version `i`. */
  ghost predicate Since(vs: seq<Version>, i: nat, j: nat, f: FieldSpec)
    requires i <= j < |vs|
  {
    && (forall k :: i < k <= j ==> KeptAt(vs, k, f))
    && (i > 0 ==> !KeptAt(vs, i, f))
  }

  /** Field `f` stands in the same place in version `k` as in the one before. */
  ghost predicate KeptAt(vs: seq<Version>, k: nat, f: FieldSpec)
    requires 0 < k < |vs|
  {
    IsKept(vs[k - 1].fields, vs[k].fields, f)
  }

  /** The object's own value is read exactly for a field the newest version has as it is; what a fallback converter
      gives exactly for one whose name it lacks; what a downgrade converter gives for the others. */
  ghost predicate Right(base: seq<FieldSpec>, f: FieldSpec, lo: int, src: Src) {
    && (src == Self(f.name) <==> f in base)
    && (src == Fallback(f.name, lo) <==> !HasName(base, f.name))
    && (src == Downgrade(f.name, lo) <==> f !in base && HasName(base, f.name))
  }

  ghost predicate HasName(fields: seq<FieldSpec>, name: string) {
    exists b :: b in fields && b.name == name
  }

  /** `src` is right for field `f` of version `j`; converters are named by the layer since which it stands in place. */
  ghost predicate ReadsFor(vs: seq<Version>, j: nat, f: FieldSpec, src: Src)
    requires j < |vs|
  {
    exists i: nat :: i <= j && Since(vs, i, j, f) && Right(vs[|vs| - 1].fields, f, Start(vs, i), src)
  }

  lemma {:induction false} LookupIs(fields: seq<FieldSpec>, name: string)
    ensures Lookup(fields, name).None? <==> !HasName(fields, name)
    ensures Lookup(fields, name).Some? ==>
      Lookup(fields, name).value in fields && Lookup(fields, name).value.name == name
    decreases |fields|
  {
    if fields != [] {
      var n := |fields| - 1;
      LookupIs(fields[..n], name);
      assert fields == fields[..n] + [fields[n]];
    }
  }

  lemma OneOfAName(fields: seq<FieldSpec>, a: FieldSpec, b: FieldSpec)
    requires UniqueNames(fields) && a in fields && b in fields && a.name == b.name
    ensures a == b
  {
  }

  lemma SourceIsRight(base: seq<FieldSpec>, s: Slot)
    requires UniqueNames(base)
    ensures Right(base, s.spec, s.lo, SourceOf(base, s))
  {
    LookupIs(base, s.spec.name);
    var found := Lookup(base, s.spec.name);
    if s.spec in base {
      assert HasName(base, s.spec.name);
      OneOfAName(base, found.value, s.spec);
    }
  }

  lemma SharedIsSince(ss: seq<Slot>, vs: seq<Version>, s: Slot, i: nat, j: nat, layer: int)
    requires SortedFamily(vs) && Shares(ss, vs, |vs| - 1) && s in ss && Holds(layer)(s)
    requires i <= j < |vs| - 1 && InForce(vs, |vs| - 1, j, layer) && s.lo == Start(vs, i)
    ensures Since(vs, i, j, s.spec)
  {
    forall m | i < m <= j ensures KeptAt(vs, m, s.spec) {
      StartsRise(vs, m, j, layer);
      assert Start(vs, i) < Start(vs, m) <= layer;
      assert Holds(vs[m].minLayer)(s);
    }
    if i > 0 {
      assert Holds(vs[i].minLayer)(s);
    }
  }

  /** Version `i` started no later than `layer` exactly when it is not newer than version `j` in force there. */
  lemma StartsRise(vs: seq<Version>, i: nat, j: nat, layer: int)
    requires SortedFamily(vs) && i < |vs| && j < |vs| - 1 && InForce(vs, |vs| - 1, j, layer)
    ensures Start(vs, i) <= layer <==> i <= j
    ensures forall m :: 0 <= m < i ==> Start(vs, m) < Start(vs, i)
  {
    forall a, b | 0 <= a < b < |vs| ensures Start(vs, a) < Start(vs, b) {
      assert vs[a].layer < vs[b].minLayer;
      assert vs[a].minLayer <= vs[a].layer;
    }
    assert i > j ==> Start(vs, j + 1) <= Start(vs, i);
  }

  /** The layer an entry starts at is the one since which its field stands in place. */
  lemma SharedReads(ss: seq<Slot>, vs: seq<Version>, s: Slot, i: nat, j: nat, layer: int)
    requires SortedFamily(vs) && Shares(ss, vs, |vs| - 1) && s in ss && Holds(layer)(s)
    requires i <= j < |vs| - 1 && InForce(vs, |vs| - 1, j, layer) && s.lo == Start(vs, i)
    ensures ReadsFor(vs, j, s.spec, SourceOf(vs[|vs| - 1].fields, s))
  {
    SharedIsSince(ss, vs, s, i, j, layer);
    SourceIsRight(vs[|vs| - 1].fields, s);
  }

  lemma SourceReads(c: Scene, k: nat)
    requires c.Valid() && k < |c.ss| && c.Seen(k)
    ensures ReadsFor(c.vs, c.j, c.ss[k].spec, SourceOf(c.vs[|c.vs| - 1].fields, c.ss[k]))
  {
    EntryReads(c.ss, c.vs, c.j, c.layer, k);
  }

  lemma EntryReads(ss: seq<Slot>, vs: seq<Version>, j: nat, layer: int, k: nat)
    requires SeenAt(ss, vs, j, layer) && k < |ss| && Holds(layer)(ss[k])
    ensures j < |vs| && ReadsFor(vs, j, ss[k].spec, SourceOf(vs[|vs| - 1].fields, ss[k]))
  {
    var i, q := SlotComesFrom(ss, vs, k);
    StartsRise(vs, i, j, layer);
    SharedReads(ss, vs, ss[k], i, j, layer);
  }

  lemma InOld(c: Scene, k: nat)
    requires c.Valid() && k < |c.ss| && c.Seen(k)
    ensures c.j < |c.vs| && c.ss[k].spec in c.vs[c.j].fields
  {
    SeenRank(c, k);
    assert c.Old()[Rank(c.ss, k, c.layer)] in c.Old();
  }

  lemma {:induction false} StmtFrom(ss: seq<Slot>, k: nat, base: seq<FieldSpec>, oldest: int, top: int, st: Stmt)
    returns (m: nat)
    requires k <= |ss| && st in DownUpTo(ss, k, base, oldest, top)
    ensures m < k && st in DownStmt(ss, m, base, oldest, top)
    decreases k
  {
    if st in DownStmt(ss, k - 1, base, oldest, top) {
      m := k - 1;
    } else {
      m := StmtFrom(ss, k - 1, base, oldest, top, st);
    }
  }

  lemma {:induction false} StmtIn(ss: seq<Slot>, k: nat, base: seq<FieldSpec>, oldest: int, top: int, m: nat, st: Stmt)
    requires m < k <= |ss| && st in DownStmt(ss, m, base, oldest, top)
    ensures st in DownUpTo(ss, k, base, oldest, top)
    decreases k
  {
    if m < k - 1 {
      StmtIn(ss, k - 1, base, oldest, top, m, st);
    }
  }

  /** Statement `st` writes field `f` from where it should, for version `j`. */
  ghost predicate WritesField(vs: seq<Version>, j: nat, f: FieldSpec, st: Stmt)
    requires j < |vs|
  {
    && f in vs[j].fields && !f.IsFlag() && f.Write()
    && st.Put? && st.ty == f.fullType && ReadsFor(vs, j, f, st.src)
  }

  /** Flag term `t` announces field `f` by the value it is written from. */
  ghost predicate Announces(vs: seq<Version>, j: nat, f: FieldSpec, t: FlagTerm)
    requires j < |vs|
  {
    && f in vs[j].fields && f.IsOptional()
    && f.flagBit == Some(t.bit) && t.test == FlagTest(f) && ReadsFor(vs, j, f, t.src)
  }

  lemma PutReads(c: Scene, st: Stmt) returns (f: FieldSpec)
    requires c.Valid() && st in DownBody(c.ss, c.vs) && st.Put? && Allows(st.guard, c.layer)
    ensures c.j < |c.vs| && WritesField(c.vs, c.j, f, st)
  {
    SceneFacts(c);
    var base, oldest, top := c.vs[|c.vs| - 1].fields, c.vs[0].minLayer, c.vs[|c.vs| - 1].layer;
    var m := StmtFrom(c.ss, |c.ss|, base, oldest, top, st);
    f := c.ss[m].spec;
    SlotIsWellFormed(c, m);
    PutIsOne(c.ss, m, base, oldest, top, st);
    GuardIsSeen(c, m);
    InOld(c, m);
    SourceReads(c, m);
  }

  lemma PutIsOne(ss: seq<Slot>, k: nat, base: seq<FieldSpec>, oldest: int, top: int, st: Stmt)
    requires k < |ss| && st in DownStmt(ss, k, base, oldest, top) && st.Put?
    requires ss[k].spec.Write() || ss[k].spec.IsOptional()
    ensures !ss[k].spec.IsFlag() && ss[k].spec.Write()
    ensures st.ty == ss[k].spec.fullType && st.guard == GuardOf(ss[k], oldest, top) && st.src == SourceOf(base, ss[k])
  {
  }

  lemma TermReads(c: Scene, st: Stmt, t: FlagTerm) returns (f: FieldSpec)
    requires c.Valid() && st in DownBody(c.ss, c.vs) && st.FlagWord? && t in st.terms && Allows(t.guard, c.layer)
    ensures c.j < |c.vs| && Announces(c.vs, c.j, f, t)
  {
    SceneFacts(c);
    var base, oldest, top := c.vs[|c.vs| - 1].fields, c.vs[0].minLayer, c.vs[|c.vs| - 1].layer;
    var m := StmtFrom(c.ss, |c.ss|, base, oldest, top, st);
    var o := TermIsOne(c.ss, m, base, oldest, top, st, t);
    f := c.ss[o].spec;
    GuardIsSeen(c, o);
    InOld(c, o);
    SourceReads(c, o);
  }

  lemma TermIsOne(ss: seq<Slot>, k: nat, base: seq<FieldSpec>, oldest: int, top: int, st: Stmt, t: FlagTerm)
    returns (o: nat)
    requires k < |ss| && st in DownStmt(ss, k, base, oldest, top) && st.FlagWord? && t in st.terms
    ensures o < |ss| && ss[o].spec.IsOptional()
    ensures t == FlagTerm(GuardOf(ss[o], oldest, top), SourceOf(base, ss[o]), FlagTest(ss[o].spec),
                          ss[o].spec.flagBit.value)
  {
    o := DownTermFrom(ss, ss[k], base, oldest, top, t);
  }

  lemma FieldIsPut(c: Scene, f: FieldSpec) returns (st: Stmt)
    requires c.Valid() && c.j < |c.vs| && f in c.vs[c.j].fields && !f.IsFlag() && f.Write()
    ensures st in DownBody(c.ss, c.vs) && Allows(st.guard, c.layer) && WritesField(c.vs, c.j, f, st)
  {
    var k := SlotOf(c, f);
    st := SeenPut(c, k);
    InOld(c, k);
    SourceReads(c, k);
  }

  lemma SeenPut(c: Scene, k: nat) returns (st: Stmt)
    requires c.vs != [] && k < |c.ss| && c.Seen(k) && !c.ss[k].spec.IsFlag() && c.ss[k].spec.Write()
    ensures st in DownBody(c.ss, c.vs) && Allows(st.guard, c.layer)
    ensures st.Put? && st.ty == c.ss[k].spec.fullType && st.src == SourceOf(c.vs[|c.vs| - 1].fields, c.ss[k])
  {
    st := OnePut(c.ss, k, c.vs[|c.vs| - 1].fields, c.vs[0].minLayer, c.vs[|c.vs| - 1].layer);
  }

  lemma SlotOf(c: Scene, f: FieldSpec) returns (k: nat)
    requires c.Valid() && c.j < |c.vs| && f in c.vs[c.j].fields
    ensures k < |c.ss| && c.Seen(k) && c.ss[k].spec == f
  {
    SceneFacts(c);
    var q :| 0 <= q < |c.Old()| && c.Old()[q] == f;
    k := SlotAtRank(c.ss, c.layer, q);
  }

  lemma OnePut(ss: seq<Slot>, k: nat, base: seq<FieldSpec>, oldest: int, top: int) returns (st: Stmt)
    requires k < |ss| && !ss[k].spec.IsFlag() && ss[k].spec.Write()
    ensures st in DownUpTo(ss, |ss|, base, oldest, top) && st.Put? && st.ty == ss[k].spec.fullType
    ensures st.guard == GuardOf(ss[k], oldest, top) && st.src == SourceOf(base, ss[k])
  {
    st := DownStmt(ss, k, base, oldest, top)[0];
    StmtIn(ss, |ss|, base, oldest, top, k, st);
  }

  /** For a client of an older version every value that the emitted body writes, and every flag term it evaluates, is
      that of a field of its version and is read from where it should be; and every such field is written. */
  lemma BodyReadsRightly(ss: seq<Slot>, vs: seq<Version>, j: nat, layer: int)
    requires Ready(ss, vs) && j < |vs| - 1 && InForce(vs, |vs| - 1, j, layer)
    ensures forall st :: st in DownBody(ss, vs) && st.Put? && Allows(st.guard, layer) ==>
      exists f :: WritesField(vs, j, f, st)
    ensures forall st, t :: st in DownBody(ss, vs) && st.FlagWord? && t in st.terms && Allows(t.guard, layer) ==>
      exists f :: Announces(vs, j, f, t)
    ensures forall f :: f in vs[j].fields && !f.IsFlag() && f.Write() ==>
      exists st :: st in DownBody(ss, vs) && Allows(st.guard, layer) && WritesField(vs, j, f, st)
  {
    var c := Scene(ss, vs, j, layer, (_: Src) => NoneV, (_: TlType, _: Value) => []);
    forall st | st in DownBody(ss, vs) && st.Put? && Allows(st.guard, layer)
      ensures exists f :: WritesField(vs, j, f, st)
    {
      var f := PutReads(c, st);
    }
    forall st, t | st in DownBody(ss, vs) && st.FlagWord? && t in st.terms && Allows(t.guard, layer)
      ensures exists f :: Announces(vs, j, f, t)
    {
      var f := TermReads(c, st, t);
    }
    forall f | f in vs[j].fields && !f.IsFlag() && f.Write()
      ensures exists st :: st in DownBody(ss, vs) && Allows(st.guard, layer) && WritesField(vs, j, f, st)
    {
      var st := FieldIsPut(c, f);
    }
  }

  /** The converted values that the historical serializer is given are the same ones. */
  lemma ConvertedRightly(ss: seq<Slot>, vs: seq<Version>, j: nat, layer: int, env: Env, f: FieldSpec)
    requires Ready(ss, vs) && j < |vs| - 1 && InForce(vs, |vs| - 1, j, layer) && f in vs[j].fields
    ensures exists src ::
      ReadsFor(vs, j, f, src) && VersionEnv(ss, vs[|vs| - 1].fields, layer, env)(Self(f.name)) == env(src)
  {
    var c := Scene(ss, vs, j, layer, env, (_: TlType, _: Value) => []);
    var k := SlotOf(c, f);
    ConvertedValue(c, k);
    InOld(c, k);
    SourceReads(c, k);
  }

  /** For each field one source only is right. */
  lemma OneSourceIsRight(vs: seq<Version>, j: nat, f: FieldSpec, a: Src, b: Src)
    requires j < |vs| && ReadsFor(vs, j, f, a) && ReadsFor(vs, j, f, b)
    ensures a == b
  {
    var i: nat :| i <= j && Since(vs, i, j, f) && Right(vs[|vs| - 1].fields, f, Start(vs, i), a);
    var m: nat :| m <= j && Since(vs, m, j, f) && Right(vs[|vs| - 1].fields, f, Start(vs, m), b);
    SinceOnce(vs, i, m, j, f);
    SinceOnce(vs, m, i, j, f);
  }

  lemma SinceOnce(vs: seq<Version>, i: nat, m: nat, j: nat, f: FieldSpec)
    requires i <= j < |vs| && m <= j && Since(vs, i, j, f) && Since(vs, m, j, f)
    ensures i >= m
  {
  }

  // ----- which families the generator takes

  lemma HasSlot(ss: seq<Slot>, vs: seq<Version>, i: nat, f: FieldSpec) returns (k: nat)
    requires Ready(ss, vs) && i < |vs| && f in vs[i].fields
    ensures k < |ss| && ss[k].spec == f
  {
    StartInForce(vs, i);
    assert Exact(ss, vs, |vs| - 1);
    var q :| 0 <= q < |vs[i].fields| && vs[i].fields[q] == f;
    k := SlotAtRank(ss, Start(vs, i), q);
  }

  ghost predicate KeepsFlagWords(vs: seq<Version>)
    requires vs != []
  {
    forall i, f :: 0 <= i < |vs| && f in vs[i].fields && f.IsFlag() ==> f in vs[|vs| - 1].fields
  }

  /** The generator takes a family if and only if the newest version has the flag words of all the others as they
      are. */
  lemma GeneratesExactly(ss: seq<Slot>, vs: seq<Version>)
    requires Ready(ss, vs)
    ensures Generates(ss, vs[|vs| - 1].fields) <==> KeepsFlagWords(vs)
  {
    var base := vs[|vs| - 1].fields;
    if Generates(ss, base) {
      forall i, f | 0 <= i < |vs| && f in vs[i].fields && f.IsFlag() ensures f in base {
        var k := HasSlot(ss, vs, i, f);
        LookupIs(base, f.name);
      }
    }
    if KeepsFlagWords(vs) {
      NewestNames(vs);
      forall k | 0 <= k < |ss| && ss[k].spec.IsFlag() ensures Lookup(base, ss[k].spec.name) == Some(ss[k].spec) {
        var i, q := SlotComesFrom(ss, vs, k);
        assert ss[k].spec in vs[i].fields;
        LookupIs(base, ss[k].spec.name);
        assert HasName(base, ss[k].spec.name);
        OneOfAName(base, ss[k].spec, Lookup(base, ss[k].spec.name).value);
      }
    }
  }

  lemma NewestNames(vs: seq<Version>)
    requires SortedFamily(vs)
    ensures UniqueNames(vs[|vs| - 1].fields)
  {
  }
}
