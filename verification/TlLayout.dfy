/** The wire form of an object field by field, and when its serializer raises, told by the fields and their values. */
module TlLayout {
  import opened Containers
  import opened TlSchema
  import opened TlCode
  import opened TlPrimitives
  import opened TlCodec

  /** A value that announces itself by its bit: a list with something in it, `true`, or anything else that is given. */
  predicate Announces(f: FieldSpec, v: Value) {
    if f.fullType.Vector? then v.VecV? && v.items != []
    else if f.fullType.True? then v == BoolV(true)
    else v != NoneV
  }

  /** Fields `k` and `m` are announced by the same bit of the same word. */
  predicate OneBit(fields: seq<FieldSpec>, k: nat, m: nat)
    requires k < |fields| && m < |fields|
  {
    fields[k].flagNum == fields[m].flagNum && fields[k].flagBit == fields[m].flagBit
  }

  ghost predicate HasCompany(fields: seq<FieldSpec>, k: nat)
    requires k < |fields|
  {
    exists m :: 0 <= m < |fields| && m != k && OneBit(fields, k, m)
  }

  ghost predicate Typed(sch: Schema, fields: seq<FieldSpec>, vals: seq<Value>) {
    && WellFormedFields(fields) && |fields| == |vals|
    && forall k :: 0 <= k < |fields| ==> FieldTyped(sch, fields[k], vals[k])
  }

  /** Bit `bit` of the word of flag field `k` is announced by some field. */
  ghost predicate BitGiven(fields: seq<FieldSpec>, vals: seq<Value>, k: nat, bit: nat)
    requires k < |fields| == |vals|
  {
    exists m :: 0 <= m < |fields| && fields[m].flagNum == fields[k].flagNum && fields[m].flagBit == Some(bit)
                && Announces(fields[m], vals[m])
  }

  /** A conditional field that leaves nothing in the body: one not given, a bare flag, or an empty list alone on its
      bit. */
  ghost predicate LeavesNothing(fields: seq<FieldSpec>, vals: seq<Value>, k: nat)
    requires k < |fields| == |vals|
  {
    && fields[k].flagBit.Some?
    && (vals[k] == NoneV || fields[k].fullType.True?
        || (fields[k].fullType.Vector? && vals[k] == VecV([]) && !HasCompany(fields, k)))
  }

  lemma PassesIsAnnounced(sch: Schema, f: FieldSpec, v: Value)
    requires WellFormedField(f) && FieldTyped(sch, f, v) && f.IsOptional()
    ensures Passes(FlagTest(f), v) <==> Announces(f, v)
  {
  }

  lemma BitIsGiven(sch: Schema, fields: seq<FieldSpec>, vals: seq<Value>, k: nat, bit: nat)
    requires Typed(sch, fields, vals) && k < |fields| && fields[k].IsFlag()
    ensures bit in WordBits(fields, vals, fields[k].flagNum) <==> BitGiven(fields, vals, k, bit)
  {
    var num, env := fields[k].flagNum, ObjEnv(fields, vals);
    if bit in WordBits(fields, vals, num) {
      var t :| t in PlainTerms(fields, num) && Passes(t.test, env(t.src)) && t.bit == bit;
      var m := PlainTermFrom(fields, num, t);
      EnvAt(fields, vals, m);
      assert WellFormedField(fields[m]);
      PassesIsAnnounced(sch, fields[m], vals[m]);
    }
    if m :|
      && 0 <= m < |fields| && fields[m].flagNum == num && fields[m].flagBit == Some(bit)
      && Announces(fields[m], vals[m])
    {
      assert WellFormedField(fields[m]);
      EnvAt(fields, vals, m);
      PlainTermIn(fields, num, m);
      PassesIsAnnounced(sch, fields[m], vals[m]);
      var t := TermOf(fields[m]);
      assert t in PlainTerms(fields, num) && Allows(t.guard, 0) && Passes(t.test, env(t.src));
    }
  }

  lemma BodyTestIs(sch: Schema, fields: seq<FieldSpec>, vals: seq<Value>, k: nat)
    requires Typed(sch, fields, vals) && k < |fields| && fields[k].IsOptional()
    ensures !InBody(fields, vals, k) <==> LeavesNothing(fields, vals, k)
  {
    assert SharesBit(fields, k) <==> HasCompany(fields, k) by {
      if m :| 0 <= m < |fields| && m != k && OneBit(fields, k, m) {
        assert SameBit(fields[m], fields[k]);
      }
      if m :| 0 <= m < |fields| && m != k && SameBit(fields[m], fields[k]) {
        assert OneBit(fields, k, m);
      }
    }
    assert FieldTyped(sch, fields[k], vals[k]);
    if fields[k].fullType.Vector? && vals[k] != NoneV {
      assert WellTyped(sch, fields[k].fullType, vals[k]);
      assert vals[k].VecV?;
    }
  }

  /** What the serializer of an object writes from field `k` on is what it writes for field `k`, and the rest: four
      bytes of a flag word, each bit in its place if some field announces itself by it; nothing for what is left out;
      and else the value. */
  lemma FieldLayout(sch: Schema, fields: seq<FieldSpec>, vals: seq<Value>, k: nat)
    requires Typed(sch, fields, vals) && k < |fields|
    ensures
      var w, rest := EncodeFields(sch, fields, vals, k), EncodeFields(sch, fields, vals, k + 1);
      if fields[k].IsFlag() then
        && |w| >= 4 && w[4..] == rest && w[3] < 128
        && forall bit: nat :: bit < FLAG_BITS ==>
             (w[bit / 8] / Pow2(bit % 8) % 2 == 1 <==> BitGiven(fields, vals, k, bit))
      else if LeavesNothing(fields, vals, k) then w == rest
      else w == Encode(sch, fields[k].fullType, vals[k]) + rest
  {
    if fields[k].IsFlag() {
      WordLayout(sch, fields, vals, k);
    } else if fields[k].IsOptional() {
      BodyTestIs(sch, fields, vals, k);
    }
  }

  lemma WordLayout(sch: Schema, fields: seq<FieldSpec>, vals: seq<Value>, k: nat)
    requires Typed(sch, fields, vals) && k < |fields| && fields[k].IsFlag()
    ensures
      var w, rest := EncodeFields(sch, fields, vals, k), EncodeFields(sch, fields, vals, k + 1);
      && |w| >= 4 && w[4..] == rest && w[3] < 128
      && forall bit: nat :: bit < FLAG_BITS ==>
           (w[bit / 8] / Pow2(bit % 8) % 2 == 1 <==> BitGiven(fields, vals, k, bit))
  {
    var bits := WordBits(fields, vals, fields[k].flagNum);
    var word, rest := FlagBytes(bits), EncodeFields(sch, fields, vals, k + 1);
    assert EncodeFields(sch, fields, vals, k) == word + rest;
    FlagWordBytes(bits, 0);
    forall bit: nat | bit < FLAG_BITS
      ensures (word + rest)[bit / 8] / Pow2(bit % 8) % 2 == 1 <==> BitGiven(fields, vals, k, bit)
    {
      FlagWordBytes(bits, bit);
      BitIsGiven(sch, fields, vals, k, bit);
      assert (word + rest)[bit / 8] == word[bit / 8];
    }
  }

  /** The value of a conditional field is given: `true` for a bare flag, and else anything. */
  predicate Given(f: FieldSpec, v: Value) {
    if f.fullType.True? then v == BoolV(true) else v != NoneV
  }

  lemma GivenIs(sch: Schema, f: FieldSpec, v: Value)
    requires FieldTyped(sch, f, v) && !f.IsFlag()
    ensures (NotEmpty(f, v) <==> Given(f, v)) && (Empty(f, v) <==> !Given(f, v))
  {
  }

  /** Two fields on one bit are both given or both left out. */
  ghost predicate PairAgrees(fields: seq<FieldSpec>, vals: seq<Value>, k: nat, m: nat)
    requires k < |fields| == |vals| && m < |fields|
  {
    fields[k].flagBit.Some? && OneBit(fields, k, m) ==> (Given(fields[k], vals[k]) <==> Given(fields[m], vals[m]))
  }

  /** The serializer raises if and only if of two fields on one bit one is given and the other is not. */
  lemma RaisesExactly(sch: Schema, fields: seq<FieldSpec>, vals: seq<Value>)
    requires Typed(sch, fields, vals)
    ensures SharedBitsAgree(fields, ObjEnv(fields, vals)) <==>
      forall k, m :: 0 <= k < |fields| && 0 <= m < |fields| ==> PairAgrees(fields, vals, k, m)
  {
    if SharedBitsAgree(fields, ObjEnv(fields, vals)) {
      forall k, m | 0 <= k < |fields| && 0 <= m < |fields| ensures PairAgrees(fields, vals, k, m) {
        if fields[k].flagBit.Some? && OneBit(fields, k, m) {
          PairFromCheck(sch, fields, vals, k, m);
        }
      }
    }
    if forall k, m :: 0 <= k < |fields| && 0 <= m < |fields| ==> PairAgrees(fields, vals, k, m) {
      forall k | 0 <= k < |fields| && fields[k].IsOptional() && SharesBit(fields, k)
        ensures CheckHolds(fields, ObjEnv(fields, vals), k)
      {
        CheckFromPairs(sch, fields, vals, k);
      }
    }
  }

  ghost predicate CheckHolds(fields: seq<FieldSpec>, env: Env, k: nat)
    requires k < |fields|
  {
    || (forall m :: 0 <= m < |fields| && SameBit(fields[m], fields[k]) ==>
          Empty(fields[m], env(Self(fields[m].name))))
    || (forall m :: 0 <= m < |fields| && SameBit(fields[m], fields[k]) ==>
          NotEmpty(fields[m], env(Self(fields[m].name))))
  }

  lemma PairFromCheck(sch: Schema, fields: seq<FieldSpec>, vals: seq<Value>, k: nat, m: nat)
    requires Typed(sch, fields, vals) && SharedBitsAgree(fields, ObjEnv(fields, vals))
    requires k < |fields| && m < |fields| && fields[k].flagBit.Some? && OneBit(fields, k, m)
    ensures Given(fields[k], vals[k]) <==> Given(fields[m], vals[m])
  {
    if k != m {
      assert WellFormedField(fields[k]) && WellFormedField(fields[m]);
      assert SameBit(fields[m], fields[k]) && SameBit(fields[k], fields[k]) && SharesBit(fields, k);
      EnvAt(fields, vals, k);
      EnvAt(fields, vals, m);
      GivenIs(sch, fields[k], vals[k]);
      GivenIs(sch, fields[m], vals[m]);
    }
  }

  lemma CheckFromPairs(sch: Schema, fields: seq<FieldSpec>, vals: seq<Value>, k: nat)
    requires Typed(sch, fields, vals) && k < |fields| && fields[k].IsOptional()
    requires forall m :: 0 <= m < |fields| ==> PairAgrees(fields, vals, k, m)
    ensures CheckHolds(fields, ObjEnv(fields, vals), k)
  {
    forall m | 0 <= m < |fields| && SameBit(fields[m], fields[k])
      ensures var v := ObjEnv(fields, vals)(Self(fields[m].name));
        if Given(fields[k], vals[k]) then NotEmpty(fields[m], v) else Empty(fields[m], v)
    {
      assert OneBit(fields, k, m) && PairAgrees(fields, vals, k, m);
      assert WellFormedField(fields[m]);
      EnvAt(fields, vals, m);
      GivenIs(sch, fields[m], vals[m]);
    }
  }
}
