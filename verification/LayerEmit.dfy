/** Emitting the guarded serializer from the merged entries, and a family for which it fails. */
module LayerEmit {
  import opened Containers
  import opened TlSchema
  import opened TlCode
  import opened TlPrimitives
  import opened LayerMergeFacts
  import opened LayerMerge
  import opened LayerDowngrade
  import opened LayerBodies
  import opened LayerRefinement
  import opened LayerSources

  /** The fallback converters that are asked for: one for each entry whose name the newest version lacks. */
  ghost predicate FallbacksFor(ss: seq<Slot>, base: seq<FieldSpec>, srcs: seq<Src>) {
    forall src :: src in srcs <==>
      exists k :: 0 <= k < |ss| && !HasName(base, ss[k].spec.name) && src == Fallback(ss[k].spec.name, ss[k].lo)
  }

  /** The downgrade converters: one for each entry whose name the newest version has for another field. */
  ghost predicate DowngradesFor(ss: seq<Slot>, base: seq<FieldSpec>, srcs: seq<Src>) {
    forall src :: src in srcs <==>
      exists k :: 0 <= k < |ss| && HasName(base, ss[k].spec.name) && ss[k].spec !in base
                  && src == Downgrade(ss[k].spec.name, ss[k].lo)
  }

  /** The generator's pass over the merged entries: where values come from, then one statement per entry. */
  method EmitDowngrade(all: seq<Field>, vs: seq<Version>)
    returns (fallbacks: seq<Src>, downgrades: seq<Src>, body: seq<Stmt>)
    requires vs != [] && UniqueNames(vs[|vs| - 1].fields) && Generates(Slots(all), vs[|vs| - 1].fields)
    ensures body == DownBody(Slots(all), vs)
    ensures FallbacksFor(Slots(all), vs[|vs| - 1].fields, fallbacks)
    ensures DowngradesFor(Slots(all), vs[|vs| - 1].fields, downgrades)
  {
    var base, oldest, top := vs[|vs| - 1].fields, vs[0].minLayer, vs[|vs| - 1].layer;
    ghost var ss := Slots(all);
    var names: seq<Src>;
    fallbacks, downgrades, names := CollectSources(all, base);
    body := [];
    for k := 0 to |all|
      invariant body == DownUpTo(ss, k, base, oldest, top)
    {
      var stmt := EmitEntry(all, k, names, base, oldest, top);
      body := body + stmt;
    }
  }

  method CollectSources(all: seq<Field>, base: seq<FieldSpec>)
    returns (fallbacks: seq<Src>, downgrades: seq<Src>, names: seq<Src>)
    requires UniqueNames(base) && Generates(Slots(all), base)
    ensures |names| == |all| && forall k :: 0 <= k < |all| ==> names[k] == SourceOf(base, Slots(all)[k])
    ensures FallbacksFor(Slots(all), base, fallbacks) && DowngradesFor(Slots(all), base, downgrades)
  {
    fallbacks, downgrades, names := [], [], [];
    ghost var ss := Slots(all);
    for k := 0 to |all|
      invariant |names| == k && forall m :: 0 <= m < k ==> names[m] == SourceOf(base, ss[m])
      invariant FallbacksFor(ss[..k], base, fallbacks) && DowngradesFor(ss[..k], base, downgrades)
    {
      var s := Slot(all[k].spec, all[k].minLayer, all[k].maxLayer);
      assert s == ss[k];
      assert ss[..k + 1] == ss[..k] + [s];
      var found := Lookup(base, s.spec.name);
      LookupIs(base, s.spec.name);
      SourceIsRight(base, s);
      OneMoreEntry(ss[..k], s, base, fallbacks, downgrades);
      if found.None? {
        if s.spec.IsFlag() {
          assert false;
        }
        fallbacks := fallbacks + [Fallback(s.spec.name, s.lo)];
        names := names + [Fallback(s.spec.name, s.lo)];
      } else if s.spec != found.value {
        if s.spec.IsFlag() {
          assert false;
        }
        downgrades := downgrades + [Downgrade(s.spec.name, s.lo)];
        names := names + [Downgrade(s.spec.name, s.lo)];
      } else {
        names := names + [Self(s.spec.name)];
      }
    }
    assert ss[..|all|] == ss;
  }

  lemma OneMoreEntry(ss: seq<Slot>, s: Slot, base: seq<FieldSpec>, fallbacks: seq<Src>, downgrades: seq<Src>)
    requires FallbacksFor(ss, base, fallbacks) && DowngradesFor(ss, base, downgrades)
    ensures FallbacksFor(
      ss + [s], base, if HasName(base, s.spec.name) then fallbacks else fallbacks + [Fallback(s.spec.name, s.lo)])
    ensures DowngradesFor(
      ss + [s], base,
      if HasName(base, s.spec.name) && s.spec !in base then downgrades + [Downgrade(s.spec.name, s.lo)] else downgrades)
  {
    var more := ss + [s];
    assert more[|ss|] == s && forall k :: 0 <= k < |ss| ==> more[k] == ss[k];
  }

  method EmitEntry(all: seq<Field>, k: nat, names: seq<Src>, base: seq<FieldSpec>, oldest: int, top: int)
    returns (code: seq<Stmt>)
    requires k < |all| == |names| && forall m :: 0 <= m < |all| ==> names[m] == SourceOf(base, Slots(all)[m])
    ensures code == DownStmt(Slots(all), k, base, oldest, top)
  {
    var f := all[k];
    var guard := if f.spec.Write() then EntryGuard(f, oldest, top) else NO_GUARD;
    if f.spec.IsFlag() {
      var terms := EmitTerms(all, k, names, base, oldest, top);
      code := [FlagWord(guard, if f.spec.flagNum.Some? then f.spec.flagNum.value else 0, terms)];
    } else if f.spec.IsOptional() {
      if f.spec.Write() {
        CountTells(all, k);
        var test := if CountOnBit(all, f) > 1 || !f.spec.IsVector() then IfNotNone else IfTruthy;
        code := [Put(guard, names[k], f.spec.fullType, Some(test))];
      } else {
        code := [];
      }
    } else {
      code := [Put(guard, names[k], f.spec.fullType, None)];
    }
  }

  /** The conditional fields that start while the flag word `all[k]` is in use. */
  method EmitTerms(all: seq<Field>, k: nat, names: seq<Src>, base: seq<FieldSpec>, oldest: int, top: int)
    returns (terms: seq<FlagTerm>)
    requires k < |all| == |names| && forall m :: 0 <= m < |all| ==> names[m] == SourceOf(base, Slots(all)[m])
    ensures terms == DownTerms(Slots(all), Slots(all)[k], base, oldest, top)
  {
    ghost var ss := Slots(all);
    terms := [];
    for m := 0 to |all|
      invariant terms == DownTerms(ss[..m], ss[k], base, oldest, top)
    {
      assert ss[..m + 1][..m] == ss[..m];
      var ff := all[m];
      if ff.spec.IsOptional() && ff.spec.flagNum == all[k].spec.flagNum
         && !(ff.minLayer < all[k].minLayer || ff.minLayer > all[k].maxLayer)
      {
        terms := terms + [FlagTerm(EntryGuard(ff, oldest, top), names[m], FlagTest(ff.spec), ff.spec.flagBit.value)];
      }
    }
    assert ss[..|all|] == ss;
  }

  function EntryGuard(f: Field, oldest: int, top: int): (g: Guard)
    reads f
    ensures g == GuardOf(Slot(f.spec, f.minLayer, f.maxLayer), oldest, top)
  {
    Guard(if f.minLayer > oldest then Some(f.minLayer) else None, if f.maxLayer < top then Some(f.maxLayer) else None)
  }

  predicate OnBit(f: Field, g: Field)
    reads f, g
  {
    SameBit(g.spec, f.spec) && f.minLayer <= g.minLayer <= f.maxLayer
  }

  /** The entries on the bit of `f` that start inside its interval, `f` included. */
  function CountOnBit(all: seq<Field>, f: Field): nat
    reads all, f
  {
    if all == [] then 0
    else CountOnBit(all[..|all| - 1], f) + (if OnBit(f, all[|all| - 1]) then 1 else 0)
  }

  lemma {:induction false} CountBounds(all: seq<Field>, f: Field, k: nat)
    ensures CountOnBit(all, f) > 0 <==> exists m :: 0 <= m < |all| && OnBit(f, all[m])
    ensures k < |all| && OnBit(f, all[k]) ==>
              (CountOnBit(all, f) > 1 <==> exists m :: 0 <= m < |all| && m != k && OnBit(f, all[m]))
    decreases |all|
  {
    if all != [] {
      var n := |all| - 1;
      CountBounds(all[..n], f, k);
      assert forall m :: 0 <= m < n ==> all[..n][m] == all[m];
    }
  }

  /** More than one entry counted on the bit: some other entry shares it. */
  lemma CountTells(all: seq<Field>, k: nat)
    requires k < |all|
    ensures CountOnBit(all, all[k]) > 1 <==> DownShares(Slots(all), k)
  {
    var f := all[k];
    CountBounds(all, f, k);
    assert forall m :: 0 <= m < |all| ==>
      (OnBit(f, all[m]) <==>
       SameBit(Slots(all)[m].spec, Slots(all)[k].spec) && Slots(all)[k].lo <= Slots(all)[m].lo <= Slots(all)[k].hi);
  }

  /** Merging a family and emitting for it; a flag word that the base lacks stops the generator. */
  method GenerateDowngradable(vs: seq<Version>, ghost enc: Encoder)
    returns (ok: bool, all: seq<Field>, fallbacks: seq<Src>, downgrades: seq<Src>, body: seq<Stmt>)
    requires SortedFamily(vs) && |vs| > 1 && forall i :: 0 <= i < |vs| ==> WellFormedFields(vs[i].fields)
    requires WritesSomething(enc)
    ensures Merged(Slots(all), vs, |vs| - 1)
    ensures ok <==> KeepsFlagWords(vs)
    ensures ok ==> body == DownBody(Slots(all), vs)
    ensures ok ==> FallbacksFor(Slots(all), vs[|vs| - 1].fields, fallbacks)
    ensures ok ==> DowngradesFor(Slots(all), vs[|vs| - 1].fields, downgrades)
    ensures Refines(Slots(all), vs, enc) <==> Agrees(Slots(all), vs)
  {
    all := MergeVersions(vs);
    RefinesExactly(Slots(all), vs, enc);
    GeneratesExactly(Slots(all), vs);
    ok := CheckFlagWords(all, vs[|vs| - 1].fields);
    fallbacks, downgrades, body := [], [], [];
    if ok {
      fallbacks, downgrades, body := EmitDowngrade(all, vs);
    }
  }

  method CheckFlagWords(all: seq<Field>, base: seq<FieldSpec>) returns (ok: bool)
    ensures ok <==> Generates(Slots(all), base)
  {
    ok := true;
    for k := 0 to |all|
      invariant ok <==> Generates(Slots(all)[..k], base)
    {
      var f := all[k].spec;
      assert Slots(all)[k].spec == f;
      if f.IsFlag() && Lookup(base, f.name) != Some(f) {
        return false;
      }
    }
    assert Slots(all)[..|all|] == Slots(all);
  }

  // ----- a family that breaks the guarded serializer

  const X := FieldSpec("x", None, None, Int)
  const FLAGS_WORD := FieldSpec("flags", None, Some(1), Flags)
  const A := FieldSpec("a", Some(0), Some(1), Int)
  const B := FieldSpec("b", None, None, Int)

  /** The flag word moves in front of `x` at layer 2, while `a` stays in place. */
  function Displaced(): seq<Version> {
    [Version([X, FLAGS_WORD, A], 1, 1), Version([FLAGS_WORD, X, A], 2, 2), Version([FLAGS_WORD, X, A, B], 3, 3)]
  }

  lemma FirstIsFine()
    ensures WellFormedFields([X, FLAGS_WORD, A])
  {
    var fields := [X, FLAGS_WORD, A];
    assert fields[1].IsFlag() && FlagBefore(fields, 2);
  }

  lemma SecondIsFine()
    ensures WellFormedFields([FLAGS_WORD, X, A])
  {
    var fields := [FLAGS_WORD, X, A];
    assert fields[0].IsFlag() && FlagBefore(fields, 2);
  }

  lemma ThirdIsFine()
    ensures WellFormedFields([FLAGS_WORD, X, A, B])
  {
    var fields := [FLAGS_WORD, X, A, B];
    assert fields[0].IsFlag() && FlagBefore(fields, 2);
  }

  lemma DisplacedIsFine()
    ensures SortedFamily(Displaced())
    ensures forall i :: 0 <= i < 3 ==> WellFormedFields(Displaced()[i].fields)
    ensures forall i :: 0 <= i < 3 ==> Displaced()[i].minLayer == Displaced()[i].layer
  {
    FirstIsFine();
    SecondIsFine();
    ThirdIsFine();
  }

  lemma {:induction false} NamedAll(fs: seq<FieldSpec>, names: set<string>)
    requires forall k :: 0 <= k < |fs| ==> fs[k].name in names
    ensures |Named(fs, names)| == |fs| && forall k :: 0 <= k < |fs| ==> Named(fs, names)[k] == k
    decreases |fs|
  {
    if fs != [] {
      NamedAll(fs[..|fs| - 1], names);
    }
  }

  /** With the same names in both versions, a field is kept exactly if it stands in the same place. */
  lemma KeptInPlace(before: seq<FieldSpec>, after: seq<FieldSpec>, f: FieldSpec)
    requires Names(before) == Names(after)
    ensures IsKept(before, after, f) <==>
      exists k :: 0 <= k < |before| && k < |after| && before[k] == f && after[k] == f
  {
    var names := Names(before) * Names(after);
    NamedAll(before, names);
    NamedAll(after, names);
    var b, a := Named(before, names), Named(after, names);
    if k :| 0 <= k < |before| && k < |after| && before[k] == f && after[k] == f {
      assert before[b[k]] == f && after[a[k]] == f;
    }
  }

  lemma DisplacedKeeps()
    ensures IsKept(Displaced()[0].fields, Displaced()[1].fields, A)
    ensures !IsKept(Displaced()[0].fields, Displaced()[1].fields, FLAGS_WORD)
  {
    var before, after := Displaced()[0].fields, Displaced()[1].fields;
    assert Names(before) == {"x", "flags", "a"} by {
      assert before[0].name == "x" && before[1].name == "flags" && before[2].name == "a";
    }
    assert Names(after) == {"x", "flags", "a"} by {
      assert after[0].name == "flags" && after[1].name == "x" && after[2].name == "a";
    }
    KeptInPlace(before, after, A);
    KeptInPlace(before, after, FLAGS_WORD);
    assert before[2] == A && after[2] == A;
  }

  /** The object with x = 5, a = 1 and b = 0; nothing of it has to be converted for layer 2. */
  function FiveOneZero(): Env {
    (src: Src) =>
      if src == Self("x") then IntV(5)
      else if src == Self("a") then IntV(1)
      else if src == Self("b") then IntV(0)
      else NoneV
  }

  lemma DisplacedAt2(ss: seq<Slot>)
    requires Merged(ss, Displaced(), 2)
    ensures Ready(ss, Displaced()) && InForce(Displaced(), 2, 1, 2)
    ensures View(ss, 2) == [FLAGS_WORD, X, A]
  {
    DisplacedIsFine();
    assert Ready(ss, Displaced());
    assert InForce(Displaced(), 2, 1, 2) && Exact(ss, Displaced(), 2);
  }

  /** The entries seen at layer 2: the flag word starts there, the conditional field before. */
  lemma DisplacedSlots(ss: seq<Slot>) returns (f: nat, x: nat, o: nat)
    requires Merged(ss, Displaced(), 2)
    ensures f < x < o < |ss| && ss[f].spec == FLAGS_WORD && ss[x].spec == X && ss[o].spec == A
    ensures forall k :: 0 <= k < |ss| ==> (Holds(2)(ss[k]) <==> k in {f, x, o})
    ensures ss[o].lo < ss[f].lo
  {
    var vs := Displaced();
    DisplacedAt2(ss);
    DisplacedKeeps();
    f := SlotAtRank(ss, 2, 0);
    x := SlotAtRank(ss, 2, 1);
    o := SlotAtRank(ss, 2, 2);
    assert ss[f] in ss && ss[o] in ss && Holds(vs[1].minLayer)(ss[f]) && Holds(vs[1].minLayer)(ss[o]);
    assert ss[f].lo == 2 && ss[o].lo < 2;
    OnlyThree(ss, f, x, o);
  }

  lemma OnlyThree(ss: seq<Slot>, f: nat, x: nat, o: nat)
    requires f < |ss| && x < |ss| && o < |ss| && |View(ss, 2)| == 3
    requires Holds(2)(ss[f]) && Holds(2)(ss[x]) && Holds(2)(ss[o])
    requires Rank(ss, f, 2) == 0 && Rank(ss, x, 2) == 1 && Rank(ss, o, 2) == 2
    ensures f < x < o && forall k :: 0 <= k < |ss| ==> (Holds(2)(ss[k]) <==> k in {f, x, o})
  {
    forall k: nat, m: nat | k < |ss| && m < |ss| && Holds(2)(ss[k]) && Holds(2)(ss[m]) && k < m
      ensures Rank(ss, k, 2) < Rank(ss, m, 2)
    {
      RankMonotone(ss, k, m, 2);
    }
    forall k: nat | k < |ss| && Holds(2)(ss[k]) ensures Rank(ss, k, 2) < 3 {
      RankIs(ss, k, 2);
    }
  }

  ghost function DisplacedScene(ss: seq<Slot>, enc: Encoder): Scene {
    Scene(ss, Displaced(), 1, 2, FiveOneZero(), enc)
  }

  lemma DisplacedValues(ss: seq<Slot>, enc: Encoder, f: nat, x: nat, o: nat)
    requires f < |ss| && x < |ss| && o < |ss|
    requires ss[f].spec == FLAGS_WORD && ss[x].spec == X && ss[o].spec == A
    ensures var c := DisplacedScene(ss, enc); c.ValueOf(x) == IntV(5) && c.ValueOf(o) == IntV(1)
  {
    var base := Displaced()[2].fields;
    assert base == [FLAGS_WORD, X, A, B];
    assert "x"[0] != "a"[0] && "x"[0] != "b"[0] && "a"[0] != "b"[0];
    LookupLast(base);
    assert SourceOf(base, ss[x]) == Self("x") && SourceOf(base, ss[o]) == Self("a");
  }

  lemma LookupLast(base: seq<FieldSpec>)
    requires base == [FLAGS_WORD, X, A, B]
    ensures Lookup(base, "x") == Some(X) && Lookup(base, "a") == Some(A)
  {
    assert |"flags"| == 5 && "x"[0] != "a"[0] && "x"[0] != "b"[0] && "a"[0] != "b"[0];
    var two, three := [FLAGS_WORD, X], [FLAGS_WORD, X, A];
    assert base[..3] == three && three[..2] == two;
    assert Lookup(two, "x") == Some(X);
    assert Lookup(three, "a") == Some(A) && Lookup(three, "x") == Lookup(two, "x");
    assert Lookup(base, "a") == Lookup(three, "a") && Lookup(base, "x") == Lookup(three, "x");
  }

  lemma DisplacedSuits(env: Env)
    requires env(Self("x")) == IntV(5) && env(Self("a")) == IntV(1)
    ensures Genuine([FLAGS_WORD, X, A], env)
  {
    var fields := [FLAGS_WORD, X, A];
    assert InRange(5, 4) && InRange(1, 4) by {
      assert Pow256(4) >= 256 * Pow256(3) >= 256;
    }
    forall k, m | 0 <= k < 3 && 0 <= m < 3 && fields[k].IsOptional() && m != k ensures !SameBit(fields[m], fields[k]) {
      assert k == 2;
    }
  }

  /** The three entries of a scene that shows the version of layer 2 for that object. */
  ghost predicate ShowsThree(c: Scene, f: nat, x: nat, o: nat) {
    && c.Valid() && c.Old() == [FLAGS_WORD, X, A]
    && f < |c.ss| && x < |c.ss| && o < |c.ss|
    && c.ss[f].spec == FLAGS_WORD && c.ss[x].spec == X && c.ss[o].spec == A
    && (forall k :: 0 <= k < |c.ss| ==> (c.Seen(k) <==> k in {f, x, o}))
    && c.ValueOf(x) == IntV(5) && c.ValueOf(o) == IntV(1)
  }

  lemma DisplacedShowsThree(ss: seq<Slot>, enc: Encoder) returns (f: nat, x: nat, o: nat)
    requires Merged(ss, Displaced(), 2)
    ensures ShowsThree(DisplacedScene(ss, enc), f, x, o) && f < x < o && ss[o].lo < ss[f].lo
  {
    DisplacedAt2(ss);
    f, x, o := DisplacedSlots(ss);
    DisplacedValues(ss, enc, f, x, o);
  }

  lemma ThreeAreGenuine(c: Scene, f: nat, x: nat, o: nat)
    requires ShowsThree(c, f, x, o)
    ensures Proper(c)
  {
    ConvertedValue(c, x);
    ConvertedValue(c, o);
    DisplacedSuits(c.Env'());
  }

  lemma OnlyBitZero(c: Scene, f: nat, x: nat, o: nat)
    requires ShowsThree(c, f, x, o)
    ensures PlainBits(c, f) == {0}
  {
    PlainBitIn(c, f, o);
    forall b | b in PlainBits(c, f) ensures b == 0 {
      var p := PlainBitFrom(c, f, b);
      assert p in {f, x, o};
    }
  }

  lemma NothingCollected(c: Scene, f: nat, x: nat, o: nat)
    requires ShowsThree(c, f, x, o) && c.ss[o].lo < c.ss[f].lo
    ensures DownBits(c, f) == {}
  {
    forall p | 0 <= p < |c.ss| && c.Seen(p) && Collects(c.ss[f], c.ss[p]) ensures !c.ss[p].spec.IsOptional() {
      assert p in {f, x, o};
    }
    if b :| b in DownBits(c, f) {
      var _ := DownBitFrom(c, f, b);
    }
  }

  /** The first piece that is seen starts both bodies. */
  lemma FirstPieceStarts(c: Scene, f: nat)
    requires c.Valid() && f < |c.ss| && c.Seen(f) && forall k :: 0 <= k < f ==> !c.Seen(k)
    ensures Rank(c.ss, f, c.layer) < |c.Old()|
    ensures c.Down(f) <= DownRun(c, |c.ss|) && c.Plain(f) <= PlainRun(c, |c.Old()|)
  {
    SceneFacts(c);
    SeenRank(c, f);
    AllRanked(c);
    RankOfAll(c.ss, c.layer);
    DownRunIsFlat(c, |c.ss|);
    PlainRunIsFlat(c, |c.ss|);
    var d, p := DownPieces(c, |c.ss|), PlainPieces(c, |c.ss|);
    forall k | 0 <= k < f ensures d[k] == [] && p[k] == [] {
      DownPiece(c, k);
    }
    StartsWith(d, f);
    StartsWith(p, f);
  }

  lemma {:induction false} FlatOfNone(a: seq<seq<byte>>)
    requires forall k :: 0 <= k < |a| ==> a[k] == []
    ensures Flat(a) == []
    decreases |a|
  {
    if a != [] {
      FlatOfNone(a[..|a| - 1]);
    }
  }

  lemma StartsWith(a: seq<seq<byte>>, x: nat)
    requires x < |a| && forall k :: 0 <= k < x ==> a[k] == []
    ensures a[x] <= Flat(a)
  {
    FlatOfNone(a[..x]);
    assert a[..x + 1][..x] == a[..x];
    FlatStart(a, x + 1);
  }

  /** For that object a client of layer 2 gets a flag word without the bit of `a`; the serializer of the version of
      layer 2 takes the same object and sets the bit. */
  lemma DisplacedFlagWordFails(ss: seq<Slot>, enc: Encoder)
    requires Merged(ss, Displaced(), 2)
    ensures Genuine(Displaced()[1].fields, VersionEnv(ss, Displaced()[2].fields, 2, FiveOneZero()))
    ensures FlagBytes({}) <= Run(DownBody(ss, Displaced()), 2, FiveOneZero(), enc)
    ensures FlagBytes({0})
            <= Run(PlainBody(Displaced()[1].fields), 2, VersionEnv(ss, Displaced()[2].fields, 2, FiveOneZero()), enc)
    ensures FlagBytes({}) != FlagBytes({0})
  {
    var c := DisplacedScene(ss, enc);
    var f, x, o := DisplacedShowsThree(ss, enc);
    ThreeAreGenuine(c, f, x, o);
    OnlyBitZero(c, f, x, o);
    NothingCollected(c, f, x, o);
    FirstPieceStarts(c, f);
    DownPiece(c, f);
    PlainPiece(c, f);
    FlagBytesDecode({});
    FlagBytesDecode({0});
  }

  lemma DisplacedDoesNotRefine(ss: seq<Slot>, enc: Encoder)
    requires Merged(ss, Displaced(), 2)
    ensures !Refines(ss, Displaced(), enc)
  {
    DisplacedFlagWordFails(ss, enc);
    DisplacedAt2(ss);
    StartsDiffer(FlagBytes({}), FlagBytes({0}), Run(DownBody(ss, Displaced()), 2, FiveOneZero(), enc),
                 Run(PlainBody(Displaced()[1].fields), 2,
                     VersionEnv(ss, Displaced()[2].fields, 2, FiveOneZero()), enc));
    assert Served(ss, Displaced(), 1, 2, FiveOneZero());
    assert !SameBytes(ss, Displaced(), 1, 2, FiveOneZero(), enc);
  }

  lemma StartsDiffer(p: seq<byte>, q: seq<byte>, a: seq<byte>, b: seq<byte>)
    requires p <= a && q <= b && |p| == |q| && p != q
    ensures a != b
  {
    assert a[..|p|] == p && b[..|q|] == q;
  }

  /** The family is one the merge accepts, so the emitted serializer does fail for it. */
  method EmitDisplaced(ghost enc: Encoder) returns (all: seq<Field>)
    ensures Merged(Slots(all), Displaced(), 2) && !Refines(Slots(all), Displaced(), enc)
  {
    DisplacedIsFine();
    all := MergeVersions(Displaced());
    DisplacedDoesNotRefine(Slots(all), enc);
  }
}
