/** Objects for which the bodies differ where the condition fails. */
module LayerNecessity {
  import opened Containers
  import opened TlSchema
  import opened TlCode
  import opened TlPrimitives
  import opened LayerMergeFacts
  import opened LayerDowngrade
  import opened LayerBodies

  // ----- and necessary

  /** A value of a type, and not an empty one. */
  function Sample(ty: TlType): Value {
    match ty
    case True => BoolV(true)
    case Bool => BoolV(true)
    case Double => DoubleV([0, 0, 0, 0, 0, 0, 0, 0])
    case Bytes => BytesV([])
    case Str => BytesV([])
    case Vector(elem) => VecV([Sample(elem)])
    case Object(_) => ObjV(0, [])
    case _ => IntV(1)
  }

  lemma {:induction false} SampleIsTyped(ty: TlType)
    ensures Typed(ty, Sample(ty)) && !Sample(ty).NoneV? && (ty.Vector? ==> Truthy(Sample(ty)))
    decreases ty
  {
    match ty
    case Vector(elem) => SampleIsTyped(elem);
    case Int | Long | Int128 | Int256 => OneIsInRange(IntSize(ty));
    case Flags => OneIsInRange(4);
    case _ =>
  }

  lemma OneIsInRange(size: nat)
    requires size > 0
    ensures InRange(1, size)
  {
    assert Pow256(size) >= 256;
  }

  /** The value of a slot in an object that gives the fields on one bit and leaves out all other conditional ones;
      of those given, the hollow ones are empty vectors. */
  function Fill(s: Slot, o: FieldSpec, hollow: Slot -> bool): Value {
    if !s.spec.IsOptional() then Sample(s.spec.fullType)
    else if SameBit(s.spec, o) then
      if hollow(s) then VecV([]) else Sample(s.spec.fullType)
    else if s.spec.Write() then NoneV
    else BoolV(false)
  }

  function FillEnv(ss: seq<Slot>, layer: int, o: FieldSpec, hollow: Slot -> bool): Env {
    (src: Src) =>
      match SlotNamed(ss, layer, src.name)
      case Some(s) => Fill(s, o, hollow)
      case None => NoneV
  }

  /** An object that gives the bit of slot `o`, whose hollow fields are vectors. */
  ghost predicate Filled(c: Scene, o: nat, hollow: Slot -> bool) {
    && c.Valid() && o < |c.ss| && c.Seen(o) && c.ss[o].spec.IsOptional()
    && c.env == FillEnv(c.ss, c.layer, c.ss[o].spec, hollow)
    && forall m ::
         0 <= m < |c.ss| && c.Seen(m) && SameBit(c.ss[m].spec, c.ss[o].spec) && hollow(c.ss[m])
         ==> c.ss[m].spec.IsVector()
  }

  lemma FilledValue(c: Scene, o: nat, hollow: Slot -> bool, k: nat)
    requires Filled(c, o, hollow) && k < |c.ss| && c.Seen(k)
    ensures c.ValueOf(k) == Fill(c.ss[k], c.ss[o].spec, hollow)
  {
    forall m | 0 <= m < |c.ss| && Holds(c.layer)(c.ss[m]) && c.ss[m].spec.name == c.ss[k].spec.name ensures m == k {
      OneSlotPerName(c, k, m);
    }
    SlotNamedFinds(c.ss, c.layer, k);
  }

  lemma FilledSuits(c: Scene, o: nat, hollow: Slot -> bool, k: nat)
    requires Filled(c, o, hollow) && k < |c.ss| && c.Seen(k) && !c.ss[k].spec.IsFlag()
    ensures Suits(c.ss[k].spec, c.ValueOf(k))
    ensures c.ss[k].spec.IsOptional() && SameBit(c.ss[k].spec, c.ss[o].spec) ==> NotEmpty(c.ss[k].spec, c.ValueOf(k))
    ensures c.ss[k].spec.IsOptional() && !SameBit(c.ss[k].spec, c.ss[o].spec) ==> Empty(c.ss[k].spec, c.ValueOf(k))
  {
    FilledValue(c, o, hollow, k);
    SampleIsTyped(c.ss[k].spec.fullType);
    SeenRank(c, k);
  }

  lemma FilledAtRank(c: Scene, o: nat, hollow: Slot -> bool, q: nat)
    requires Filled(c, o, hollow) && q < |c.Old()| && !c.Old()[q].IsFlag()
    ensures var f, v := c.Old()[q], c.Env'()(Self(c.Old()[q].name));
      && Suits(f, v)
      && (f.IsOptional() && SameBit(f, c.ss[o].spec) ==> NotEmpty(f, v))
      && (f.IsOptional() && !SameBit(f, c.ss[o].spec) ==> Empty(f, v))
  {
    SceneFacts(c);
    var k := SlotAtRank(c.ss, c.layer, q);
    ConvertedValue(c, k);
    FilledSuits(c, o, hollow, k);
  }

  lemma FilledIsProper(c: Scene, o: nat, hollow: Slot -> bool)
    requires Filled(c, o, hollow)
    ensures Proper(c)
  {
    var fields, env := c.Old(), c.Env'();
    SceneFacts(c);
    forall q | 0 <= q < |fields| && !fields[q].IsFlag() ensures Suits(fields[q], env(Self(fields[q].name))) {
      FilledAtRank(c, o, hollow, q);
    }
    forall p, q | 0 <= p < |fields| && 0 <= q < |fields| && fields[p].IsOptional() && SameBit(fields[q], fields[p])
      ensures fields[q].IsOptional()
      ensures SameBit(fields[p], c.ss[o].spec) ==> NotEmpty(fields[q], env(Self(fields[q].name)))
      ensures !SameBit(fields[p], c.ss[o].spec) ==> Empty(fields[q], env(Self(fields[q].name)))
    {
      assert WellFormedField(fields[q]);
      FilledAtRank(c, o, hollow, q);
    }
  }

  lemma UnseenMatches(c: Scene, k: nat)
    requires c.Valid() && k < |c.ss| && !c.Seen(k)
    ensures Matches(c, k)
  {
    DownPiece(c, k);
  }

  /** The two sides write a conditional field alike if both tests give the same answer. */
  lemma OptionalPiece(c: Scene, o: nat)
    requires c.Valid() && o < |c.ss| && c.Seen(o) && c.ss[o].spec.IsOptional()
    ensures Rank(c.ss, o, c.layer) < |c.Old()|
    ensures c.ss[o].spec.Write() ==>
              && c.Down(o) == Written(c, o, BodyTest(DownShares(c.ss, o), c.ss[o].spec))
              && c.Plain(o) == Written(c, o, BodyTest(SharesAt(c.ss, c.layer, o), c.ss[o].spec))
    ensures !c.ss[o].spec.Write() ==> c.Down(o) == c.Plain(o)
  {
    DownPiece(c, o);
    PlainPiece(c, o);
  }

  /** A field that is left out, or given by more than an empty vector, is written alike on both sides. */
  lemma PlainlyGivenMatches(c: Scene, k: nat)
    requires c.Valid() && k < |c.ss| && c.Seen(k) && !c.ss[k].spec.IsFlag()
    requires c.ss[k].spec.IsOptional() && c.ss[k].spec.IsVector() ==>
      c.ValueOf(k).NoneV? || (c.ValueOf(k).VecV? && c.ValueOf(k).items != [])
    ensures Matches(c, k)
  {
    if c.ss[k].spec.IsOptional() {
      OptionalPiece(c, k);
      TestsAgree(c.ss[k].spec, c.ValueOf(k), DownShares(c.ss, k), SharesAt(c.ss, c.layer, k));
    } else {
      DownPiece(c, k);
      PlainPiece(c, k);
    }
  }

  lemma TestsAgree(f: FieldSpec, v: Value, a: bool, b: bool)
    requires f.IsVector() ==> v.NoneV? || (v.VecV? && v.items != [])
    ensures Passes(BodyTest(a, f), v) == Passes(BodyTest(b, f), v)
  {
  }

  /** A conditional field stands behind its flag word. */
  lemma WordComesFirst(c: Scene, f: nat, k: nat)
    requires c.Valid() && f < |c.ss| && k < |c.ss| && c.Seen(f) && c.Seen(k)
    requires c.ss[f].spec.IsFlag() && c.ss[k].spec.IsOptional() && c.ss[k].spec.flagNum == c.ss[f].spec.flagNum
    ensures f < k
  {
    SceneFacts(c);
    SeenRank(c, f);
    SeenRank(c, k);
    var p, q := Rank(c.ss, f, c.layer), Rank(c.ss, k, c.layer);
    assert FlagBefore(c.Old(), q);
    var m :| 0 <= m < q && c.Old()[m].IsFlag() && c.Old()[m].flagNum == c.Old()[q].flagNum;
    assert m == p;
    if k < f {
      RankMonotone(c.ss, k, f, c.layer);
    }
  }

  /** No field sets a bit in a flag word other than that of `o`. */
  lemma OtherWordEmpty(c: Scene, o: nat, hollow: Slot -> bool, k: nat)
    requires Filled(c, o, hollow) && k < |c.ss| && c.ss[k].spec.flagNum != c.ss[o].spec.flagNum
    ensures PlainBits(c, k) == {} && DownBits(c, k) == {}
  {
    DownBitsArePlain(c, k);
    if b :| b in PlainBits(c, k) {
      NoOtherBit(c, o, hollow, k, b);
    }
  }

  lemma NoOtherBit(c: Scene, o: nat, hollow: Slot -> bool, k: nat, b: nat)
    requires Filled(c, o, hollow) && k < |c.ss| && c.ss[k].spec.flagNum != c.ss[o].spec.flagNum
    ensures b !in PlainBits(c, k)
  {
    if b in PlainBits(c, k) {
      var p := PlainBitFrom(c, k, b);
      FilledValue(c, o, hollow, p);
    }
  }

  /** Everything before the flag word of `o` is written alike. */
  lemma BeforeWordMatches(c: Scene, o: nat, hollow: Slot -> bool, f: nat, k: nat)
    requires Filled(c, o, hollow) && k < f < |c.ss| && c.Seen(f)
    requires c.ss[f].spec.IsFlag() && c.ss[f].spec.flagNum == c.ss[o].spec.flagNum
    ensures Matches(c, k)
  {
    if !c.Seen(k) {
      UnseenMatches(c, k);
    } else if c.ss[k].spec.IsFlag() {
      FlagsUnique(c, f, k);
      OtherWordEmpty(c, o, hollow, k);
      DownPiece(c, k);
      PlainPiece(c, k);
    } else {
      FilledValue(c, o, hollow, k);
      if c.ss[k].spec.IsOptional() && SameBit(c.ss[k].spec, c.ss[o].spec) {
        WordComesFirst(c, f, k);
      }
      PlainlyGivenMatches(c, k);
    }
  }

  lemma FlagsUnique(c: Scene, f: nat, k: nat)
    requires c.Valid() && f < |c.ss| && k < |c.ss| && f != k && c.Seen(f) && c.Seen(k)
    requires c.ss[f].spec.IsFlag() && c.ss[k].spec.IsFlag()
    ensures c.ss[f].spec.flagNum != c.ss[k].spec.flagNum
  {
    SceneFacts(c);
    SeenRank(c, f);
    SeenRank(c, k);
    if f < k {
      RankMonotone(c.ss, f, k, c.layer);
    } else {
      RankMonotone(c.ss, k, f, c.layer);
    }
  }

  /** The vectors that a flag word collects. */
  function Collected(f: Slot): Slot -> bool {
    (s: Slot) => s.spec.IsVector() && f.lo <= s.lo
  }

  lemma CollectedIsHollow(c: Scene, f: nat, o: nat, p: nat)
    requires f < |c.ss| && p < |c.ss| && Filled(c, o, Collected(c.ss[f])) && c.Seen(p)
    requires !Covered(c.ss, c.layer, f, o) && SameBit(c.ss[p].spec, c.ss[o].spec) && c.ss[f].lo <= c.ss[p].lo
    ensures !Sets(c, f, p)
  {
    FilledValue(c, o, Collected(c.ss[f]), p);
    assert !Covers(c.ss[p], c.ss[f], c.ss[o]);
  }

  /** The bit of `o` is missing when the fields on it that are collected are empty vectors. */
  lemma MissedBit(c: Scene, f: nat, o: nat)
    requires f < |c.ss| && Filled(c, o, Collected(c.ss[f])) && c.Seen(f) && c.ss[o].lo < c.ss[f].lo
    requires c.ss[o].spec.flagNum == c.ss[f].spec.flagNum && !Covered(c.ss, c.layer, f, o)
    ensures FlagBytes(DownBits(c, f)) != FlagBytes(PlainBits(c, f))
  {
    var b, hollow := c.ss[o].spec.flagBit.value, Collected(c.ss[f]);
    SeenRank(c, o);
    FilledValue(c, o, hollow, o);
    SampleIsTyped(c.ss[o].spec.fullType);
    assert SameBit(c.ss[o].spec, c.ss[o].spec);
    PlainBitIn(c, f, o);
    if b in DownBits(c, f) {
      var p := DownBitFrom(c, f, b);
      CollectedIsHollow(c, f, o, p);
    }
    FlagBytesDecode(DownBits(c, f));
    FlagBytesDecode(PlainBits(c, f));
  }

  /** A flag word that starts after a conditional field it serves misses that field's bit. */
  lemma LateFlagWordDiffers(c: Scene, f: nat, o: nat)
    requires f < |c.ss| && Filled(c, o, Collected(c.ss[f])) && c.Seen(f) && c.ss[o].lo < c.ss[f].lo
    requires c.ss[f].spec.IsFlag() && c.ss[o].spec.flagNum == c.ss[f].spec.flagNum && !Covered(c.ss, c.layer, f, o)
    ensures !SameBytes(c.ss, c.vs, c.j, c.layer, c.env, c.enc)
  {
    SceneFacts(c);
    forall k | 0 <= k < f ensures Matches(c, k) {
      BeforeWordMatches(c, o, Collected(c.ss[f]), f, k);
    }
    DownPiece(c, f);
    PlainPiece(c, f);
    MissedBit(c, f, o);
    PieceTells(c, f);
  }

  lemma MistakenPiece(c: Scene, o: nat)
    requires c.Valid() && o < |c.ss| && c.Seen(o) && c.ss[o].spec.IsOptional() && c.ss[o].spec.IsVector()
    requires DownShares(c.ss, o) != SharesAt(c.ss, c.layer, o)
    requires c.ValueOf(o) == VecV([]) && c.enc(c.ss[o].spec.fullType, VecV([])) != []
    ensures Rank(c.ss, o, c.layer) < |c.Old()| && c.Down(o) != c.Plain(o)
  {
    OptionalPiece(c, o);
    EmptyTellsTests(c, o, DownShares(c.ss, o));
  }

  /** The empty vector passes the one test and not the other. */
  lemma EmptyTellsTests(c: Scene, o: nat, shared: bool)
    requires c.vs != [] && o < |c.ss| && c.ss[o].spec.IsVector()
    requires c.ValueOf(o) == VecV([]) && c.enc(c.ss[o].spec.fullType, VecV([])) != []
    ensures Written(c, o, BodyTest(shared, c.ss[o].spec)) != Written(c, o, BodyTest(!shared, c.ss[o].spec))
  {
  }

  /** The one field with this name. */
  function Called(name: string): Slot -> bool {
    (s: Slot) => s.spec.name == name
  }

  lemma CalledFills(c: Scene, o: nat)
    requires c.Valid() && o < |c.ss| && c.Seen(o) && c.ss[o].spec.IsOptional() && c.ss[o].spec.IsVector()
    requires c.env == FillEnv(c.ss, c.layer, c.ss[o].spec, Called(c.ss[o].spec.name))
    ensures Filled(c, o, Called(c.ss[o].spec.name)) && c.ValueOf(o) == VecV([])
  {
    forall m | 0 <= m < |c.ss| && c.Seen(m) && Called(c.ss[o].spec.name)(c.ss[m]) ensures m == o {
      OneSlotPerName(c, o, m);
    }
    assert SameBit(c.ss[o].spec, c.ss[o].spec);
    FilledValue(c, o, Called(c.ss[o].spec.name), o);
  }

  lemma OthersThanCalledMatch(c: Scene, o: nat, k: nat)
    requires o < |c.ss| && Filled(c, o, Called(c.ss[o].spec.name)) && k < |c.ss| && k != o && WordsReach(c.ss, c.layer)
    ensures Matches(c, k)
  {
    if !c.Seen(k) {
      UnseenMatches(c, k);
    } else if c.ss[k].spec.IsFlag() {
      FilledIsProper(c, o, Called(c.ss[o].spec.name));
      BitsAgree(c, k);
      DownPiece(c, k);
      PlainPiece(c, k);
    } else {
      if c.ss[k].spec.name == c.ss[o].spec.name {
        OneSlotPerName(c, o, k);
      }
      FilledValue(c, o, Called(c.ss[o].spec.name), k);
      SampleIsTyped(c.ss[k].spec.fullType);
      PlainlyGivenMatches(c, k);
    }
  }

  /** A vector whose bit is taken for shared on one side only is written empty on one side only. */
  lemma MistakenBitDiffers(c: Scene, o: nat)
    requires c.Valid() && o < |c.ss| && c.Seen(o) && c.ss[o].spec.IsOptional() && c.ss[o].spec.IsVector()
    requires DownShares(c.ss, o) != SharesAt(c.ss, c.layer, o) && WordsReach(c.ss, c.layer)
    requires c.env == FillEnv(c.ss, c.layer, c.ss[o].spec, Called(c.ss[o].spec.name))
    requires c.enc(c.ss[o].spec.fullType, VecV([])) != []
    ensures !SameBytes(c.ss, c.vs, c.j, c.layer, c.env, c.enc)
  {
    SceneFacts(c);
    CalledFills(c, o);
    forall k | 0 <= k < |c.ss| && k != o ensures Matches(c, k) {
      OthersThanCalledMatch(c, o, k);
    }
    PiecesDecide(c, o);
    MistakenPiece(c, o);
  }
}
