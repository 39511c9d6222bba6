/** What reading back a written value gives, and exactly when that is the value. */
module TlRoundTrip {
  import opened Containers
  import opened TlSchema
  import opened TlCode
  import opened TlPrimitives
  import opened TlCodec

  /** Field `k` lies on a shared bit that is given, but only with empty vectors, which do not set it. */
  ghost predicate Silent(fields: seq<FieldSpec>, vals: seq<Value>, k: nat)
    requires k < |fields| == |vals|
  {
    && fields[k].IsOptional()
    && SharesBit(fields, k)
    && forall m :: 0 <= m < |fields| && SameBit(fields[m], fields[k]) ==> fields[m].IsVector() && vals[m] == VecV([])
  }

  /** No object in `v` has a shared bit given by empty vectors alone. */
  ghost predicate Audible(sch: Schema, v: Value) {
    match v
    case VecV(items) => forall i :: 0 <= i < |items| ==> Audible(sch, items[i])
    case ObjV(c, vals) =>
      && (c in sch.ctors && |sch.ctors[c]| == |vals| ==>
            forall k :: 0 <= k < |vals| ==> !Silent(sch.ctors[c], vals, k))
      && forall k :: 0 <= k < |vals| ==> Audible(sch, vals[k])
    case _ => true
  }

  /** The value that comes back: an optional empty vector alone on its bit is as good as left out. */
  function Norm(sch: Schema, v: Value): Value
    decreases v, 0
  {
    match v
    case VecV(items) => VecV(NormItems(sch, items))
    case ObjV(c, vals) =>
      if c in sch.ctors && |sch.ctors[c]| == |vals| then ObjV(c, NormFields(sch, sch.ctors[c], vals, 0)) else v
    case _ => v
  }

  function NormItems(sch: Schema, items: seq<Value>): (r: seq<Value>)
    ensures |r| == |items|
    decreases items, 0
  {
    if items == [] then [] else [Norm(sch, items[0])] + NormItems(sch, items[1..])
  }

  function NormFields(sch: Schema, fields: seq<FieldSpec>, vals: seq<Value>, k: nat): (r: seq<Value>)
    requires k <= |fields| == |vals|
    ensures |r| == |fields| - k
    decreases vals, |fields| - k
  {
    if k == |fields| then []
    else
      [NormField(sch, fields, vals, k)] + NormFields(sch, fields, vals, k + 1)
  }

  function NormField(sch: Schema, fields: seq<FieldSpec>, vals: seq<Value>, k: nat): Value
    requires k < |fields| == |vals|
    decreases vals, 0
  {
    if DropsOut(fields, vals, k) then NoneV else Norm(sch, vals[k])
  }

  predicate DropsOut(fields: seq<FieldSpec>, vals: seq<Value>, k: nat)
    requires k < |fields| == |vals|
  {
    fields[k].IsOptional() && fields[k].IsVector() && !SharesBit(fields, k) && vals[k] == VecV([])
  }

  // ----- the bits of a flag word

  /** Some field on the bit of field `k` sets it. */
  ghost predicate Signalled(fields: seq<FieldSpec>, vals: seq<Value>, k: nat)
    requires k < |fields| == |vals|
  {
    exists m :: 0 <= m < |fields| && SameBit(fields[m], fields[k]) && Passes(FlagTest(fields[m]), vals[m])
  }

  lemma BitIsSet(fields: seq<FieldSpec>, vals: seq<Value>, k: nat)
    requires WellFormedFields(fields) && k < |fields| == |vals| && fields[k].IsOptional()
    ensures fields[k].flagBit.value in WordBits(fields, vals, fields[k].flagNum) <==> Signalled(fields, vals, k)
  {
    var num, env := fields[k].flagNum, ObjEnv(fields, vals);
    if Signalled(fields, vals, k) {
      var m :| 0 <= m < |fields| && SameBit(fields[m], fields[k]) && Passes(FlagTest(fields[m]), vals[m]);
      assert WellFormedField(fields[m]);
      PlainTermIn(fields, num, m);
      EnvAt(fields, vals, m);
      assert TermOf(fields[m]).bit in WordBits(fields, vals, num);
    }
    if fields[k].flagBit.value in WordBits(fields, vals, num) {
      var t :| t in PlainTerms(fields, num) && Passes(t.test, env(t.src)) && t.bit == fields[k].flagBit.value;
      var m := PlainTermFrom(fields, num, t);
      EnvAt(fields, vals, m);
      assert SameBit(fields[m], fields[k]);
    }
  }

  /** Given that the serializer's check passes and no bit is silent, a bit is set exactly when its fields are
      written, and the bit of a bare flag is its value. */
  lemma SignalMeansPresent(sch: Schema, fields: seq<FieldSpec>, vals: seq<Value>, k: nat)
    requires WellFormedFields(fields) && k < |fields| == |vals| && fields[k].IsOptional()
    requires forall m :: 0 <= m < |fields| ==> FieldTyped(sch, fields[m], vals[m])
    requires SharedBitsAgree(fields, ObjEnv(fields, vals)) && !Silent(fields, vals, k)
    ensures fields[k].Write() ==> (Signalled(fields, vals, k) <==> InBody(fields, vals, k))
    ensures !fields[k].Write() ==> vals[k] == BoolV(Signalled(fields, vals, k))
  {
    assert SameBit(fields[k], fields[k]);
    var f, v := fields[k], vals[k];
    assert FieldTyped(sch, f, v);
    if SharesBit(fields, k) {
      SharedBitState(fields, vals, k);
      if NotEmpty(f, v) {
        assert !Empty(f, v);
        var m :| 0 <= m < |fields| && SameBit(fields[m], fields[k]) && !(fields[m].IsVector() && vals[m] == VecV([]));
        assert WellFormedField(fields[m]) && FieldTyped(sch, fields[m], vals[m]);
        GivenSets(sch, fields[m], vals[m]);
      } else {
        forall m | 0 <= m < |fields| && SameBit(fields[m], f) ensures !Passes(FlagTest(fields[m]), vals[m]) {
          assert Empty(fields[m], vals[m]);
        }
      }
    } else {
      assert Signalled(fields, vals, k) <==> Passes(FlagTest(f), v);
    }
  }

  lemma SharedBitState(fields: seq<FieldSpec>, vals: seq<Value>, k: nat)
    requires UniqueNames(fields) && k < |fields| == |vals| && fields[k].IsOptional() && SharesBit(fields, k)
    requires SharedBitsAgree(fields, ObjEnv(fields, vals))
    ensures || (forall m :: 0 <= m < |fields| && SameBit(fields[m], fields[k]) ==> Empty(fields[m], vals[m]))
            || (forall m :: 0 <= m < |fields| && SameBit(fields[m], fields[k]) ==> NotEmpty(fields[m], vals[m]))
  {
    forall m | 0 <= m < |fields| ensures ObjEnv(fields, vals)(Self(fields[m].name)) == vals[m] {
      EnvAt(fields, vals, m);
    }
  }

  lemma GivenSets(sch: Schema, f: FieldSpec, v: Value)
    requires f.IsOptional() && FieldTyped(sch, f, v) && NotEmpty(f, v) && !(f.IsVector() && v == VecV([]))
    ensures Passes(FlagTest(f), v)
  {
  }

  lemma SilentIsNotSignalled(fields: seq<FieldSpec>, vals: seq<Value>, k: nat)
    requires k < |fields| == |vals| && Silent(fields, vals, k)
    ensures !Signalled(fields, vals, k) && vals[k] == VecV([]) && fields[k].IsVector()
  {
    assert SameBit(fields[k], fields[k]);
  }

  // ----- round trips

  /** A read gives back `want` with `rest` left if `good`, and never gives `want` otherwise. */
  ghost predicate Trip<T(!new)>(r: Read<T>, good: bool, want: T, rest: seq<byte>) {
    && (good ==> r == Some((want, rest)))
    && (r.Some? && r.value.0 == want ==> good)
  }

  lemma TripCons(want: Value, next: Read<seq<Value>>, goods: bool, wants: seq<Value>, rest: seq<byte>)
    requires Trip(next, goods, wants, rest)
    ensures Trip(Cons(want, next), goods, [want] + wants, rest)
  {
    if next.Some? && Cons(want, next).value.0 == [want] + wants {
      assert ([want] + next.value.0)[1..] == next.value.0 && ([want] + wants)[1..] == wants;
    }
  }

  lemma FirstIsWanted(x: Read<Value>, want: Value, whole: Read<seq<Value>>, wants: seq<Value>)
    requires whole.Some? ==> x.Some? && |whole.value.0| > 0 && whole.value.0[0] == x.value.0
    ensures whole.Some? && whole.value.0 == [want] + wants ==> x.Some? && x.value.0 == want
  {
    assert ([want] + wants)[0] == want;
  }

  /** An element, then the others. */
  lemma NextItem(sch: Schema, elem: TlType, n: nat, s: seq<byte>, good: bool, want: Value, tail: seq<byte>,
                 goods: bool, wants: seq<Value>, rest: seq<byte>)
    requires Trip(DecodeItem(sch, elem, s), good, want, tail)
    requires Trip(DecodeItems(sch, elem, n, tail), goods, wants, rest)
    ensures Trip(DecodeItems(sch, elem, n + 1, s), good && goods, [want] + wants, rest)
  {
    TripCons(want, DecodeItems(sch, elem, n, tail), goods, wants, rest);
    FirstIsWanted(DecodeItem(sch, elem, s), want, DecodeItems(sch, elem, n + 1, s), wants);
  }

  /** A field, then the others. */
  lemma NextField(sch: Schema, code: seq<ReadStmt>, k: nat, flags: map<nat, nat>, s: seq<byte>,
                  good: bool, want: Value, tail: seq<byte>, goods: bool, wants: seq<Value>, rest: seq<byte>)
    requires k < |code| && !code[k].ReadFlags?
    requires Trip(DecodeField(sch, code[k], flags, s), good, want, tail)
    requires Trip(DecodeFields(sch, code, k + 1, flags, tail), goods, wants, rest)
    ensures Trip(DecodeFields(sch, code, k, flags, s), good && goods, [want] + wants, rest)
  {
    TripCons(want, DecodeFields(sch, code, k + 1, flags, tail), goods, wants, rest);
    FirstIsWanted(DecodeField(sch, code[k], flags, s), want, DecodeFields(sch, code, k, flags, s), wants);
  }

  /** A flag word, then the others. */
  lemma NextFlags(sch: Schema, code: seq<ReadStmt>, k: nat, flags: map<nat, nat>, word: seq<byte>, tail: seq<byte>,
                  goods: bool, wants: seq<Value>, rest: seq<byte>)
    requires k < |code| && code[k].ReadFlags? && |word| == 4
    requires Trip(DecodeFields(sch, code, k + 1, flags[code[k].num := FromLE(word)], tail), goods, wants, rest)
    ensures Trip(DecodeFields(sch, code, k, flags, word + tail), goods, [NoneV] + wants, rest)
  {
    assert (word + tail)[..4] == word && (word + tail)[4..] == tail;
    TripCons(NoneV, DecodeFields(sch, code, k + 1, flags[code[k].num := FromLE(word)], tail), goods, wants, rest);
  }

  lemma ScalarTrip(sch: Schema, ty: TlType, v: Value, rest: seq<byte>)
    requires ScalarTyped(sch, ty, v)
    ensures ReadScalar(sch, ty, WriteScalar(ty, v) + rest) == Some((v, rest))
    ensures Norm(sch, v) == v && Audible(sch, v)
  {
    match ty
    case Int | Long | Int128 | Int256 => IntReads(v.i, IntSize(ty), rest);
    case Double => UpToExact(v.bits, rest);
    case Bytes | Str => BytesRoundTrip(v.bytes, rest);
    case Bool => BoolReads(v.b, rest);
    case _ =>
  }

  lemma {:induction false} BulkTrip(sch: Schema, elem: TlType, items: seq<Value>)
    requires BulkSize(elem) > 0
    requires forall i :: 0 <= i < |items| ==> ScalarTyped(sch, elem, items[i])
    ensures |EncodeItems(sch, elem, items)| == |items| * BulkSize(elem)
    ensures Chunks(elem, EncodeItems(sch, elem, items)) == items == NormItems(sch, items)
    decreases |items|
  {
    if items != [] {
      BulkTrip(sch, elem, items[1..]);
      var size, x := BulkSize(elem), items[0];
      var head, tail := Encode(sch, elem, x), EncodeItems(sch, elem, items[1..]);
      if !elem.Double? {
        IntRoundTrip(x.i, size);
      }
      assert |head| == size;
      assert (head + tail)[..size] == head && (head + tail)[size..] == tail;
      assert items == [x] + items[1..];
    }
  }

  /** Reading back any written value, followed by any bytes. */
  lemma {:induction false} ValueTrip(sch: Schema, ty: TlType, v: Value, rest: seq<byte>)
    requires ValidSchema(sch) && WellTyped(sch, ty, v) && ChecksPass(sch, v)
    ensures Trip(Decode(sch, ty, Encode(sch, ty, v) + rest), Audible(sch, v), Norm(sch, v), rest)
    decreases v, 1
  {
    match ty
    case Vector(elem) => VectorTrip(sch, elem, v.items, rest);
    case Object(name) =>
      ObjectTrip(sch, if name in sch.single then Some(sch.single[name]) else None, ty, v, rest);
    case _ => ScalarTrip(sch, ty, v, rest);
  }

  lemma {:induction false} VectorTrip(sch: Schema, elem: TlType, items: seq<Value>, rest: seq<byte>)
    requires ValidSchema(sch) && |items| < 0x8000_0000 && !elem.Vector?
    requires forall i :: 0 <= i < |items| ==> WellTyped(sch, elem, items[i]) && ChecksPass(sch, items[i])
    ensures Trip(Decode(sch, Vector(elem), Encode(sch, Vector(elem), VecV(items)) + rest),
                 Audible(sch, VecV(items)), Norm(sch, VecV(items)), rest)
    decreases items, 2
  {
    HeaderThen(sch, elem, items, rest);
    if BulkSize(elem) > 0 {
      BulkIsScalar(sch, elem, items);
      BulkVectorTrip(sch, elem, items, rest);
      AsVectorTrip(sch, Some((items, rest)), items, rest);
    } else {
      ItemsTrip(sch, elem, items, rest);
      AsVectorTrip(sch, DecodeItems(sch, elem, |items|, EncodeItems(sch, elem, items) + rest), items, rest);
    }
  }

  lemma AsVectorTrip(sch: Schema, r: Read<seq<Value>>, items: seq<Value>, rest: seq<byte>)
    requires Trip(r, AllAudible(sch, items), NormItems(sch, items), rest)
    ensures Trip(AsVector(r), Audible(sch, VecV(items)), Norm(sch, VecV(items)), rest)
  {
  }

  lemma BulkIsScalar(sch: Schema, elem: TlType, items: seq<Value>)
    requires BulkSize(elem) > 0 && forall i :: 0 <= i < |items| ==> WellTyped(sch, elem, items[i])
    ensures forall i :: 0 <= i < |items| ==> ScalarTyped(sch, elem, items[i])
  {
    forall i | 0 <= i < |items| ensures ScalarTyped(sch, elem, items[i]) {
      assert WellTyped(sch, elem, items[i]);
    }
  }

  lemma VectorWrites(sch: Schema, elem: TlType, items: seq<Value>, rest: seq<byte>)
    requires |items| < 0x8000_0000
    ensures Encode(sch, Vector(elem), VecV(items)) + rest
      == VectorHeader(|items|) + (EncodeItems(sch, elem, items) + rest)
  {
    AppendAssoc(VectorHeader(|items|), EncodeItems(sch, elem, items), rest);
  }

  lemma VectorDecodes(sch: Schema, elem: TlType, n: nat, s: seq<byte>, body: seq<byte>)
    requires ReadHeader(s) == Some((n, body))
    ensures BulkSize(elem) > 0 ==> Decode(sch, Vector(elem), s) == ReadBulk(elem, n, body)
    ensures BulkSize(elem) == 0 ==> Decode(sch, Vector(elem), s) == AsVector(DecodeItems(sch, elem, n, body))
  {
  }

  lemma HeaderThen(sch: Schema, elem: TlType, items: seq<Value>, rest: seq<byte>)
    requires |items| < 0x8000_0000
    ensures
      var s, body := Encode(sch, Vector(elem), VecV(items)) + rest, EncodeItems(sch, elem, items) + rest;
      && (BulkSize(elem) > 0 ==> Decode(sch, Vector(elem), s) == ReadBulk(elem, |items|, body))
      && (BulkSize(elem) == 0 ==> Decode(sch, Vector(elem), s) == AsVector(DecodeItems(sch, elem, |items|, body)))
  {
    var n, body := |items|, EncodeItems(sch, elem, items) + rest;
    VectorWrites(sch, elem, items, rest);
    HeaderReads(n, body);
    VectorDecodes(sch, elem, n, VectorHeader(n) + body, body);
  }

  lemma BulkVectorTrip(sch: Schema, elem: TlType, items: seq<Value>, rest: seq<byte>)
    requires BulkSize(elem) > 0
    requires forall i :: 0 <= i < |items| ==> ScalarTyped(sch, elem, items[i])
    ensures ReadBulk(elem, |items|, EncodeItems(sch, elem, items) + rest) == Some((VecV(items), rest))
    ensures AllAudible(sch, items) && NormItems(sch, items) == items
  {
    BulkTrip(sch, elem, items);
    forall i | 0 <= i < |items| ensures Audible(sch, items[i]) {
      assert ScalarTyped(sch, elem, items[i]);
    }
    BulkReads(elem, |items|, EncodeItems(sch, elem, items), rest);
  }

  lemma BulkReads(elem: TlType, n: nat, data: seq<byte>, rest: seq<byte>)
    requires BulkSize(elem) > 0 && |data| == n * BulkSize(elem)
    ensures ReadBulk(elem, n, data + rest) == Some((VecV(Chunks(elem, data)), rest))
  {
    UpToExact(data, rest);
    WholeElements(elem, n);
  }

  lemma WholeElements(elem: TlType, n: nat)
    requires BulkSize(elem) > 0
    ensures n * BulkSize(elem) % BulkSize(elem) == 0
  {
    if elem.Int? {
      assert n * 4 % 4 == 0;
    } else {
      assert n * 8 % 8 == 0;
    }
  }

  ghost predicate AllAudible(sch: Schema, items: seq<Value>) {
    forall i :: 0 <= i < |items| ==> Audible(sch, items[i])
  }

  lemma {:induction false} ItemsTrip(sch: Schema, elem: TlType, items: seq<Value>, rest: seq<byte>)
    requires ValidSchema(sch)
    requires forall i :: 0 <= i < |items| ==> WellTyped(sch, elem, items[i]) && ChecksPass(sch, items[i])
    requires !elem.Vector? && BulkSize(elem) == 0
    ensures Trip(DecodeItems(sch, elem, |items|, EncodeItems(sch, elem, items) + rest),
                 AllAudible(sch, items), NormItems(sch, items), rest)
    decreases items, 1
  {
    if items == [] {
      assert EncodeItems(sch, elem, items) + rest == rest;
    } else {
      var x := items[0];
      var tail := EncodeItems(sch, elem, items[1..]) + rest;
      assert WellTyped(sch, elem, x) && ChecksPass(sch, x);
      if elem.Object? {
        ObjectTrip(sch, None, elem, x, tail);
      } else {
        ValueTrip(sch, elem, x, tail);
      }
      ItemsTrip(sch, elem, items[1..], rest);
      ItemsStep(sch, elem, items, rest);
    }
  }

  lemma ItemsStep(sch: Schema, elem: TlType, items: seq<Value>, rest: seq<byte>)
    requires items != []
    requires var tail := EncodeItems(sch, elem, items[1..]) + rest;
      && Trip(DecodeItem(sch, elem, Encode(sch, elem, items[0]) + tail),
              Audible(sch, items[0]), Norm(sch, items[0]), tail)
      && Trip(DecodeItems(sch, elem, |items| - 1, tail),
              AllAudible(sch, items[1..]), NormItems(sch, items[1..]), rest)
    ensures Trip(DecodeItems(sch, elem, |items|, EncodeItems(sch, elem, items) + rest),
                 AllAudible(sch, items), NormItems(sch, items), rest)
  {
    var s, tail := EncodeItems(sch, elem, items) + rest, EncodeItems(sch, elem, items[1..]) + rest;
    AppendAssoc(Encode(sch, elem, items[0]), EncodeItems(sch, elem, items[1..]), rest);
    NextItem(sch, elem, |items| - 1, s, Audible(sch, items[0]), Norm(sch, items[0]), tail,
             AllAudible(sch, items[1..]), NormItems(sch, items[1..]), rest);
    assert items == [items[0]] + items[1..];
    assert AllAudible(sch, items) <==> Audible(sch, items[0]) && AllAudible(sch, items[1..]);
  }

  lemma {:induction false} ObjectTrip(sch: Schema, only: Option<nat>, ty: TlType, v: Value, rest: seq<byte>)
    requires ValidSchema(sch) && ty.Object? && WellTyped(sch, ty, v) && ChecksPass(sch, v)
    requires only.Some? ==> v.ctor == only.value
    ensures Trip(ReadObject(sch, only, Encode(sch, ty, v) + rest), Audible(sch, v), Norm(sch, v), rest)
    decreases v, 0
  {
    IdThen(sch, only, ty, v, rest);
    FieldsTrip(sch, sch.ctors[v.ctor], v.vals, 0, map[], rest);
  }

  /** The constructor id is read, then the fields. */
  lemma IdThen(sch: Schema, only: Option<nat>, ty: TlType, v: Value, rest: seq<byte>)
    requires ValidSchema(sch) && ty.Object? && v.ObjV? && v.ctor in sch.ctors && |sch.ctors[v.ctor]| == |v.vals|
    requires only.Some? ==> v.ctor == only.value
    ensures
      var fields := sch.ctors[v.ctor];
      var r := DecodeFields(sch, ReadCode(fields), 0, map[], EncodeFields(sch, fields, v.vals, 0) + rest);
      ReadObject(sch, only, Encode(sch, ty, v) + rest)
      == if r.None? then None else Some((ObjV(v.ctor, r.value.0), r.value.1))
  {
    var body := EncodeFields(sch, sch.ctors[v.ctor], v.vals, 0);
    AppendAssoc(ToLE(v.ctor, 4), body, rest);
    IdReads(sch, only, v.ctor, body + rest);
  }

  lemma IdReads(sch: Schema, only: Option<nat>, id: nat, s: seq<byte>)
    requires ValidSchema(sch) && id in sch.ctors && (only.Some? ==> id == only.value)
    ensures
      var r := DecodeFields(sch, ReadCode(sch.ctors[id]), 0, map[], s);
      ReadObject(sch, only, ToLE(id, 4) + s) == if r.None? then None else Some((ObjV(id, r.value.0), r.value.1))
  {
    var word := ToLE(id, 4);
    FlagWordSize();
    LERoundTrip(id, 4);
    assert (word + s)[..4] == word && (word + s)[4..] == s;
  }

  ghost predicate AudibleFrom(sch: Schema, fields: seq<FieldSpec>, vals: seq<Value>, k: nat)
    requires k <= |fields| == |vals|
  {
    forall m :: k <= m < |fields| ==> Audible(sch, vals[m]) && !Silent(fields, vals, m)
  }

  /** The flag words before field `k` have been read. */
  ghost predicate FlagsRead(fields: seq<FieldSpec>, vals: seq<Value>, k: nat, flags: map<nat, nat>)
    requires k <= |fields| == |vals|
  {
    forall m :: 0 <= m < k && fields[m].IsFlag() ==>
      && NumOf(fields[m]) in flags
      && flags[NumOf(fields[m])] == FlagValue(WordBits(fields, vals, fields[m].flagNum))
  }

  ghost predicate Sound(sch: Schema, fields: seq<FieldSpec>, vals: seq<Value>) {
    && WellFormedFields(fields) && |fields| == |vals|
    && SharedBitsAgree(fields, ObjEnv(fields, vals))
    && (forall m :: 0 <= m < |fields| ==> FieldTyped(sch, fields[m], vals[m]))
    && (forall m :: 0 <= m < |fields| ==> ChecksPass(sch, vals[m]))
  }

  lemma {:induction false} FieldsTrip(sch: Schema, fields: seq<FieldSpec>, vals: seq<Value>, k: nat,
                                      flags: map<nat, nat>, rest: seq<byte>)
    requires ValidSchema(sch) && Sound(sch, fields, vals)
    requires k <= |fields| && FlagsRead(fields, vals, k, flags)
    ensures Trip(DecodeFields(sch, ReadCode(fields), k, flags, EncodeFields(sch, fields, vals, k) + rest),
                 AudibleFrom(sch, fields, vals, k), NormFields(sch, fields, vals, k), rest)
    decreases vals, 1, |fields| - k
  {
    if k == |fields| {
      assert EncodeFields(sch, fields, vals, k) + rest == rest;
    } else if fields[k].IsFlag() {
      var word := FlagBytes(WordBits(fields, vals, fields[k].flagNum));
      assert FieldTyped(sch, fields[k], vals[k]);
      FlagBytesDecode(WordBits(fields, vals, fields[k].flagNum));
      FlagWordKept(fields, vals, k, flags);
      FieldsTrip(sch, fields, vals, k + 1, flags[NumOf(fields[k]) := FromLE(word)], rest);
      FlagStep(sch, fields, vals, k, flags, rest);
    } else {
      FieldTrip(sch, fields, vals, k, flags, EncodeFields(sch, fields, vals, k + 1) + rest);
      FieldsTrip(sch, fields, vals, k + 1, flags, rest);
      FieldStep(sch, fields, vals, k, flags, rest);
    }
  }

  lemma FlagStep(sch: Schema, fields: seq<FieldSpec>, vals: seq<Value>, k: nat, flags: map<nat, nat>, rest: seq<byte>)
    requires k < |fields| == |vals| && fields[k].IsFlag() && vals[k].NoneV?
    requires
      var word := FlagBytes(WordBits(fields, vals, fields[k].flagNum));
      Trip(DecodeFields(sch, ReadCode(fields), k + 1, flags[NumOf(fields[k]) := FromLE(word)],
                        EncodeFields(sch, fields, vals, k + 1) + rest),
           AudibleFrom(sch, fields, vals, k + 1), NormFields(sch, fields, vals, k + 1), rest)
    ensures Trip(DecodeFields(sch, ReadCode(fields), k, flags, EncodeFields(sch, fields, vals, k) + rest),
                 AudibleFrom(sch, fields, vals, k), NormFields(sch, fields, vals, k), rest)
  {
    var word := FlagBytes(WordBits(fields, vals, fields[k].flagNum));
    var tail := EncodeFields(sch, fields, vals, k + 1) + rest;
    AppendAssoc(word, EncodeFields(sch, fields, vals, k + 1), rest);
    NextFlags(sch, ReadCode(fields), k, flags, word, tail,
              AudibleFrom(sch, fields, vals, k + 1), NormFields(sch, fields, vals, k + 1), rest);
    assert Audible(sch, vals[k]) && !Silent(fields, vals, k) && NormField(sch, fields, vals, k) == NoneV;
    AudibleMore(sch, fields, vals, k);
  }

  lemma FieldStep(sch: Schema, fields: seq<FieldSpec>, vals: seq<Value>, k: nat, flags: map<nat, nat>, rest: seq<byte>)
    requires k < |fields| == |vals| && !fields[k].IsFlag()
    requires
      var tail := EncodeFields(sch, fields, vals, k + 1) + rest;
      && Trip(DecodeField(sch, ReadFor(fields[k]), flags, FieldBytes(sch, fields, vals, k) + tail),
              Audible(sch, vals[k]) && !Silent(fields, vals, k), NormField(sch, fields, vals, k), tail)
      && Trip(DecodeFields(sch, ReadCode(fields), k + 1, flags, tail),
              AudibleFrom(sch, fields, vals, k + 1), NormFields(sch, fields, vals, k + 1), rest)
    ensures Trip(DecodeFields(sch, ReadCode(fields), k, flags, EncodeFields(sch, fields, vals, k) + rest),
                 AudibleFrom(sch, fields, vals, k), NormFields(sch, fields, vals, k), rest)
  {
    var tail := EncodeFields(sch, fields, vals, k + 1) + rest;
    var s := EncodeFields(sch, fields, vals, k) + rest;
    AppendAssoc(FieldBytes(sch, fields, vals, k), EncodeFields(sch, fields, vals, k + 1), rest);
    NextField(sch, ReadCode(fields), k, flags, s, Audible(sch, vals[k]) && !Silent(fields, vals, k),
              NormField(sch, fields, vals, k), tail,
              AudibleFrom(sch, fields, vals, k + 1), NormFields(sch, fields, vals, k + 1), rest);
    AudibleMore(sch, fields, vals, k);
  }

  lemma AudibleMore(sch: Schema, fields: seq<FieldSpec>, vals: seq<Value>, k: nat)
    requires k < |fields| == |vals|
    ensures AudibleFrom(sch, fields, vals, k) <==>
      Audible(sch, vals[k]) && !Silent(fields, vals, k) && AudibleFrom(sch, fields, vals, k + 1)
  {
  }

  lemma FlagWordKept(fields: seq<FieldSpec>, vals: seq<Value>, k: nat, flags: map<nat, nat>)
    requires WellFormedFields(fields) && k < |fields| == |vals| && fields[k].IsFlag()
    requires FlagsRead(fields, vals, k, flags)
    ensures FlagsRead(fields, vals, k + 1,
                      flags[NumOf(fields[k]) := FlagValue(WordBits(fields, vals, fields[k].flagNum))])
  {
    forall m | 0 <= m < k && fields[m].IsFlag() ensures NumOf(fields[m]) != NumOf(fields[k]) {
      assert fields[m].flagNum != fields[k].flagNum;
      assert WellFormedField(fields[m]) && WellFormedField(fields[k]);
    }
  }

  /** The bit a conditional field is read by. */
  lemma BitIsRead(fields: seq<FieldSpec>, vals: seq<Value>, k: nat, flags: map<nat, nat>)
    requires WellFormedFields(fields) && k < |fields| == |vals| && fields[k].IsOptional()
    requires FlagsRead(fields, vals, k, flags)
    ensures NumOf(fields[k]) in flags
    ensures HasBit(flags[NumOf(fields[k])], fields[k].flagBit.value) <==> Signalled(fields, vals, k)
  {
    assert FlagBefore(fields, k) && WellFormedField(fields[k]);
    var m :| 0 <= m < k && fields[m].IsFlag() && fields[m].flagNum == fields[k].flagNum;
    FlagBytesDecode(WordBits(fields, vals, fields[m].flagNum));
    BitIsSet(fields, vals, k);
  }

  lemma {:induction false} FieldTrip(sch: Schema, fields: seq<FieldSpec>, vals: seq<Value>, k: nat,
                                     flags: map<nat, nat>, tail: seq<byte>)
    requires ValidSchema(sch) && Sound(sch, fields, vals)
    requires k < |fields| && FlagsRead(fields, vals, k, flags) && !fields[k].IsFlag()
    ensures Trip(DecodeField(sch, ReadFor(fields[k]), flags, FieldBytes(sch, fields, vals, k) + tail),
                 Audible(sch, vals[k]) && !Silent(fields, vals, k),
                 NormField(sch, fields, vals, k), tail)
    decreases vals, 0
  {
    var f, v := fields[k], vals[k];
    assert FieldTyped(sch, f, v) && WellFormedField(f) && ChecksPass(sch, v);
    if !f.IsOptional() {
      ValueTrip(sch, f.fullType, v, tail);
    } else {
      if InBody(fields, vals, k) {
        ValueTrip(sch, f.fullType, v, tail);
      }
      if Silent(fields, vals, k) {
        SilentTrip(sch, fields, vals, k, flags, tail);
      } else {
        ByBitTrip(sch, fields, vals, k, flags, tail);
      }
    }
  }

  /** A silent field is not read back: its bit is not set. */
  lemma SilentTrip(sch: Schema, fields: seq<FieldSpec>, vals: seq<Value>, k: nat, flags: map<nat, nat>, tail: seq<byte>)
    requires WellFormedFields(fields) && k < |fields| == |vals| && FlagsRead(fields, vals, k, flags)
    requires !fields[k].IsFlag() && Silent(fields, vals, k)
    ensures Trip(DecodeField(sch, ReadFor(fields[k]), flags, FieldBytes(sch, fields, vals, k) + tail),
                 false, NormField(sch, fields, vals, k), tail)
  {
    ReadByBit(sch, fields, vals, k, flags, FieldBytes(sch, fields, vals, k) + tail);
    SilentIsNotSignalled(fields, vals, k);
    assert Norm(sch, vals[k]) == VecV([]);
  }

  /** What reading a conditional field does, by its bit. */
  lemma ReadByBit(sch: Schema, fields: seq<FieldSpec>, vals: seq<Value>, k: nat, flags: map<nat, nat>, s: seq<byte>)
    requires WellFormedFields(fields) && k < |fields| == |vals| && FlagsRead(fields, vals, k, flags)
    requires !fields[k].IsFlag() && fields[k].IsOptional()
    ensures DecodeField(sch, ReadFor(fields[k]), flags, s)
      == if !fields[k].Write() then Some((BoolV(Signalled(fields, vals, k)), s))
         else if Signalled(fields, vals, k) then Decode(sch, fields[k].fullType, s)
         else Some((NoneV, s))
  {
    BitIsRead(fields, vals, k, flags);
  }

  /** Any other conditional field is read exactly when it was written. */
  lemma ByBitTrip(sch: Schema, fields: seq<FieldSpec>, vals: seq<Value>, k: nat, flags: map<nat, nat>, tail: seq<byte>)
    requires Sound(sch, fields, vals) && k < |fields| && FlagsRead(fields, vals, k, flags)
    requires !fields[k].IsFlag() && fields[k].IsOptional() && !Silent(fields, vals, k)
    requires InBody(fields, vals, k) ==>
      Trip(Decode(sch, fields[k].fullType, Encode(sch, fields[k].fullType, vals[k]) + tail),
           Audible(sch, vals[k]), Norm(sch, vals[k]), tail)
    ensures Trip(DecodeField(sch, ReadFor(fields[k]), flags, FieldBytes(sch, fields, vals, k) + tail),
                 Audible(sch, vals[k]), NormField(sch, fields, vals, k), tail)
  {
    ReadByBit(sch, fields, vals, k, flags, FieldBytes(sch, fields, vals, k) + tail);
    SignalMeansPresent(sch, fields, vals, k);
    if InBody(fields, vals, k) {
      assert !DropsOut(fields, vals, k);
    } else {
      AbsentNorm(sch, fields, vals, k);
      assert [] + tail == tail;
    }
  }

  lemma AbsentNorm(sch: Schema, fields: seq<FieldSpec>, vals: seq<Value>, k: nat)
    requires k < |fields| == |vals| && FieldTyped(sch, fields[k], vals[k])
    requires !fields[k].IsFlag() && fields[k].IsOptional() && !InBody(fields, vals, k)
    ensures NormField(sch, fields, vals, k) == if fields[k].Write() then NoneV else vals[k]
    ensures Audible(sch, vals[k])
  {
  }

  function FieldBytes(sch: Schema, fields: seq<FieldSpec>, vals: seq<Value>, k: nat): seq<byte>
    requires k < |fields| == |vals|
  {
    if fields[k].IsOptional() && !InBody(fields, vals, k) then [] else Encode(sch, fields[k].fullType, vals[k])
  }

  /** The codec law, exactly: whatever follows it, a written value is read back, with nothing of what follows
      touched, if and only if none of its objects gives a shared bit by empty vectors alone. */
  lemma RoundTripExactly(sch: Schema, ty: TlType, v: Value, rest: seq<byte>)
    requires ValidSchema(sch) && WellTyped(sch, ty, v) && ChecksPass(sch, v)
    ensures Decode(sch, ty, Encode(sch, ty, v) + rest) == Some((Norm(sch, v), rest)) <==> Audible(sch, v)
  {
    ValueTrip(sch, ty, v, rest);
  }

  // ----- what reading back may change leaves no trace on the wire

  lemma {:induction false} NormFieldsAt(sch: Schema, fields: seq<FieldSpec>, vals: seq<Value>, k: nat, m: nat)
    requires k <= m < |fields| == |vals|
    ensures NormFields(sch, fields, vals, k)[m - k] == NormField(sch, fields, vals, m)
    decreases m - k
  {
    if k < m {
      NormFieldsAt(sch, fields, vals, k + 1, m);
    }
  }

  lemma NormLooksTheSame(sch: Schema, fields: seq<FieldSpec>, vals: seq<Value>, m: nat)
    requires m < |fields| == |vals|
    ensures fields[m].IsOptional() ==>
              && Passes(FlagTest(fields[m]), NormField(sch, fields, vals, m)) == Passes(FlagTest(fields[m]), vals[m])
              && InBody(fields, NormFields(sch, fields, vals, 0), m) == InBody(fields, vals, m)
    ensures InBody(fields, vals, m) ==> !DropsOut(fields, vals, m)
  {
    NormFieldsAt(sch, fields, vals, 0, m);
    var v := vals[m];
    assert Norm(sch, v).NoneV? == v.NoneV? && Truthy(Norm(sch, v)) == Truthy(v) by {
      if v.VecV? {
        assert |Norm(sch, v).items| == |v.items|;
      }
    }
  }

  lemma NormKeepsWord(sch: Schema, fields: seq<FieldSpec>, vals: seq<Value>, num: Option<nat>)
    requires UniqueNames(fields) && |fields| == |vals|
    ensures WordBits(fields, NormFields(sch, fields, vals, 0), num) == WordBits(fields, vals, num)
  {
    var norm := NormFields(sch, fields, vals, 0);
    forall t | t in PlainTerms(fields, num)
      ensures Passes(t.test, ObjEnv(fields, norm)(t.src)) == Passes(t.test, ObjEnv(fields, vals)(t.src))
    {
      var m := PlainTermFrom(fields, num, t);
      EnvAt(fields, vals, m);
      EnvAt(fields, norm, m);
      NormFieldsAt(sch, fields, vals, 0, m);
      NormLooksTheSame(sch, fields, vals, m);
    }
  }

  /** The value that is read back is written as the same bytes as the original. */
  lemma {:induction false} NormWritesTheSame(sch: Schema, ty: TlType, v: Value)
    requires ValidSchema(sch)
    ensures Encode(sch, ty, Norm(sch, v)) == Encode(sch, ty, v)
    decreases v, 0
  {
    match v
    case VecV(items) =>
      if ty.Vector? {
        NormItemsWriteTheSame(sch, ty.elem, items);
      }
      SameVector(sch, ty, items, NormItems(sch, items));
    case ObjV(c, vals) =>
      if c in sch.ctors && |sch.ctors[c]| == |vals| {
        NormFieldsWriteTheSame(sch, sch.ctors[c], vals, 0);
        SameObject(sch, ty, c, vals, NormFields(sch, sch.ctors[c], vals, 0));
      }
    case _ =>
  }

  lemma SameVector(sch: Schema, ty: TlType, a: seq<Value>, b: seq<Value>)
    requires |a| == |b| && (ty.Vector? ==> EncodeItems(sch, ty.elem, a) == EncodeItems(sch, ty.elem, b))
    ensures Encode(sch, ty, VecV(a)) == Encode(sch, ty, VecV(b))
  {
  }

  lemma SameObject(sch: Schema, ty: TlType, c: nat, a: seq<Value>, b: seq<Value>)
    requires c in sch.ctors && |sch.ctors[c]| == |a| == |b|
    requires EncodeFields(sch, sch.ctors[c], a, 0) == EncodeFields(sch, sch.ctors[c], b, 0)
    ensures Encode(sch, ty, ObjV(c, a)) == Encode(sch, ty, ObjV(c, b))
  {
  }

  lemma {:induction false} NormItemsWriteTheSame(sch: Schema, elem: TlType, items: seq<Value>)
    requires ValidSchema(sch)
    ensures EncodeItems(sch, elem, NormItems(sch, items)) == EncodeItems(sch, elem, items)
    decreases items, 0
  {
    if items != [] {
      NormWritesTheSame(sch, elem, items[0]);
      NormItemsWriteTheSame(sch, elem, items[1..]);
      assert NormItems(sch, items)[1..] == NormItems(sch, items[1..]);
    }
  }

  lemma {:induction false} NormFieldsWriteTheSame(sch: Schema, fields: seq<FieldSpec>, vals: seq<Value>, k: nat)
    requires ValidSchema(sch) && UniqueNames(fields) && k <= |fields| == |vals|
    ensures EncodeFields(sch, fields, NormFields(sch, fields, vals, 0), k) == EncodeFields(sch, fields, vals, k)
    decreases vals, |fields| - k
  {
    if k < |fields| {
      NormKeepsWord(sch, fields, vals, fields[k].flagNum);
      NormWritesTheSame(sch, fields[k].fullType, vals[k]);
      NormFieldBytes(sch, fields, vals, k);
      NormFieldsWriteTheSame(sch, fields, vals, k + 1);
    }
  }

  lemma NormFieldBytes(sch: Schema, fields: seq<FieldSpec>, vals: seq<Value>, k: nat)
    requires k < |fields| == |vals|
    requires Encode(sch, fields[k].fullType, Norm(sch, vals[k])) == Encode(sch, fields[k].fullType, vals[k])
    ensures FieldBytes(sch, fields, NormFields(sch, fields, vals, 0), k) == FieldBytes(sch, fields, vals, k)
  {
    NormFieldsAt(sch, fields, vals, 0, k);
    NormLooksTheSame(sch, fields, vals, k);
  }

  // ----- the law does fail

  const BARE := FieldSpec("flags", None, Some(0), Flags)

  function OnFirstBit(name: string): FieldSpec {
    FieldSpec(name, Some(0), Some(0), Vector(Long))
  }

  function TwoOnOneBit(): seq<FieldSpec> {
    [BARE, OnFirstBit("a"), OnFirstBit("b")]
  }

  lemma TwoOnOneBitIsFine()
    ensures WellFormedFields(TwoOnOneBit())
  {
    var fields := TwoOnOneBit();
    assert |fields[0].name| == 5 && fields[1].name[0] != fields[2].name[0];
    assert fields[0].flagNum == fields[1].flagNum && fields[0].IsFlag();
    assert FlagBefore(fields, 1) && FlagBefore(fields, 2);
  }

  function TwoEmpty(): seq<Value> {
    [NoneV, VecV([]), VecV([])]
  }

  lemma TwoEmptyPassTheCheck()
    ensures SharedBitsAgree(TwoOnOneBit(), ObjEnv(TwoOnOneBit(), TwoEmpty()))
  {
    var fields := TwoOnOneBit();
    TwoOnOneBitIsFine();
    forall m | 0 <= m < |fields| && fields[m].flagBit.Some?
      ensures NotEmpty(fields[m], ObjEnv(fields, TwoEmpty())(Self(fields[m].name)))
    {
      EnvAt(fields, TwoEmpty(), m);
    }
  }

  lemma TwoEmptyStay(sch: Schema)
    ensures NormFields(sch, TwoOnOneBit(), TwoEmpty(), 0) == TwoEmpty() && Silent(TwoOnOneBit(), TwoEmpty(), 1)
  {
    var fields, vals := TwoOnOneBit(), TwoEmpty();
    assert SameBit(fields[2], fields[1]);
    assert SharesBit(fields, 1) && SharesBit(fields, 2);
    assert Norm(sch, VecV([])) == VecV([]) && Norm(sch, NoneV) == NoneV;
    forall k | 0 <= k < 3 ensures NormFields(sch, fields, vals, 0)[k] == vals[k] {
      NormFieldsAt(sch, fields, vals, 0, k);
    }
  }

  function LossySchema(): Schema {
    Schema(map[7 := TwoOnOneBit()], map[], _ => true)
  }

  const LOST := ObjV(7, TwoEmpty())

  lemma LostIsTyped()
    ensures WellTyped(LossySchema(), Object("T"), LOST)
  {
    assert WellTyped(LossySchema(), Vector(Long), VecV([]));
    forall k | 0 <= k < 3 ensures FieldTyped(LossySchema(), TwoOnOneBit()[k], TwoEmpty()[k]) {
    }
  }

  lemma LostPassesChecks()
    ensures ChecksPass(LossySchema(), LOST)
  {
    TwoEmptyPassTheCheck();
    ChecksOfObject(LossySchema(), 7, TwoOnOneBit(), TwoEmpty());
  }

  lemma ChecksOfObject(sch: Schema, c: nat, fields: seq<FieldSpec>, vals: seq<Value>)
    requires c in sch.ctors && sch.ctors[c] == fields && SharedBitsAgree(fields, ObjEnv(fields, vals))
    requires forall k :: 0 <= k < |vals| ==> vals[k] == NoneV || vals[k] == VecV([])
    ensures ChecksPass(sch, ObjV(c, vals))
  {
    forall k | 0 <= k < |vals| ensures ChecksPass(sch, vals[k]) {
      if vals[k] == VecV([]) {
        assert ChecksPass(sch, VecV([]));
      }
    }
  }

  lemma LostIsSilent()
    ensures Norm(LossySchema(), LOST) == LOST && !Audible(LossySchema(), LOST)
  {
    TwoEmptyStay(LossySchema());
    assert LossySchema().ctors[7] == TwoOnOneBit();
  }

  lemma SilentIsLost(sch: Schema, ty: TlType, v: Value, rest: seq<byte>)
    requires ValidSchema(sch) && WellTyped(sch, ty, v) && ChecksPass(sch, v)
    requires Norm(sch, v) == v && !Audible(sch, v)
    ensures Decode(sch, ty, Encode(sch, ty, v) + rest) != Some((v, rest))
  {
    RoundTripExactly(sch, ty, v, rest);
  }

  ghost predicate Writable(sch: Schema, ty: TlType, v: Value) {
    ValidSchema(sch) && WellTyped(sch, ty, v) && ChecksPass(sch, v)
  }

  lemma LostIsWritable()
    ensures Writable(LossySchema(), Object("T"), LOST)
  {
    TwoOnOneBitIsFine();
    LostIsTyped();
    LostPassesChecks();
  }

  /** An object with two empty vectors on one bit passes its serializer's check, and does not come back. */
  lemma EmptyVectorsOnOneBitAreLost(sch: Schema, v: Value, rest: seq<byte>)
    requires sch == LossySchema() && v == LOST
    ensures Writable(sch, Object("T"), v)
    ensures Decode(sch, Object("T"), Encode(sch, Object("T"), v) + rest) != Some((v, rest))
  {
    LostIsWritable();
    LostIsSilent();
    SilentIsLost(sch, Object("T"), v, rest);
  }
}
