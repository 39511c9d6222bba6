/** The serializer and deserializer the generator emits for every constructor, and the plain values they handle. */
module TlCodec {
  import opened Containers
  import opened TlSchema
  import opened TlCode
  import opened TlPrimitives

  /** All constructors by id, the types with a single constructor, and which byte strings are UTF-8. */
  datatype Schema = Schema(ctors: map<nat, seq<FieldSpec>>, single: map<string, nat>, utf8: seq<byte> -> bool)

  ghost predicate ValidSchema(sch: Schema) {
    forall id :: id in sch.ctors ==> id < 0x1_0000_0000 && WellFormedFields(sch.ctors[id])
  }

  // ----- emitted deserializer

  datatype ReadStmt =
    | ReadFlags(num: nat)
    | ReadField(ty: TlType)
    | ReadIf(ty: TlType, num: nat, bit: nat)
    | TestBit(num: nat, bit: nat)

  function NumOf(f: FieldSpec): nat {
    if f.flagNum.Some? then f.flagNum.value else 0
  }

  function ReadFor(f: FieldSpec): ReadStmt {
    if f.IsFlag() then ReadFlags(NumOf(f))
    else if f.IsOptional() then
      if f.Write() then ReadIf(f.fullType, NumOf(f), f.flagBit.value) else TestBit(NumOf(f), f.flagBit.value)
    else ReadField(f.fullType)
  }

  function ReadCode(fields: seq<FieldSpec>): seq<ReadStmt> {
    seq(|fields|, k requires 0 <= k < |fields| => ReadFor(fields[k]))
  }

  // ----- reading

  function ReadScalar(sch: Schema, ty: TlType, s: seq<byte>): (r: Read<Value>)
    ensures r.Some? ==> |r.value.1| <= |s|
  {
    match ty
    case Int | Long | Int128 | Int256 =>
      var r := ReadInt(s, IntSize(ty));
      if r.None? then None else Some((IntV(r.value.0), r.value.1))
    case Double =>
      var (data, rest) := UpTo(s, 8);
      if |data| < 8 then None else Some((DoubleV(data), rest))
    case Bytes =>
      var r := ReadBytes(s);
      if r.None? then None else Some((BytesV(r.value.0), r.value.1))
    case Str =>
      var r := ReadBytes(s);
      if r.None? || !sch.utf8(r.value.0) then None else Some((BytesV(r.value.0), r.value.1))
    case Bool =>
      var r := ReadBool(s);
      if r.None? then None else Some((BoolV(r.value.0), r.value.1))
    case _ => None
  }

  /** Element size of the vectors that are read in one piece; 0 for the others. */
  function BulkSize(elem: TlType): nat {
    match elem
    case Int => 4
    case Long => 8
    case Double => 8
    case _ => 0
  }

  function Chunks(elem: TlType, data: seq<byte>): seq<Value>
    requires BulkSize(elem) > 0
  {
    var size := BulkSize(elem);
    if |data| < size then []
    else [if elem.Double? then DoubleV(data[..size]) else IntV(SignedLE(data[..size]))] + Chunks(elem, data[size..])
  }

  /** A negative count reads all there is; a short read is refused only if it splits an element. */
  function ReadBulk(elem: TlType, count: int, s: seq<byte>): (r: Read<Value>)
    requires BulkSize(elem) > 0
    ensures r.Some? ==> |r.value.1| <= |s|
  {
    var (data, rest) := UpTo(s, if count < 0 then |s| else count * BulkSize(elem));
    if |data| % BulkSize(elem) != 0 then None else Some((VecV(Chunks(elem, data)), rest))
  }

  function Cons(v: Value, r: Read<seq<Value>>): Read<seq<Value>> {
    if r.None? then None else Some(([v] + r.value.0, r.value.1))
  }

  function AsVector(r: Read<seq<Value>>): Read<Value> {
    if r.None? then None else Some((VecV(r.value.0), r.value.1))
  }

  function Decode(sch: Schema, ty: TlType, s: seq<byte>): (r: Read<Value>)
    ensures r.Some? ==> |r.value.1| <= |s|
    decreases |s|, 1, 0
  {
    match ty
    case Vector(elem) =>
      var h := ReadHeader(s);
      if h.None? then None
      else if BulkSize(elem) > 0 then ReadBulk(elem, h.value.0, h.value.1)
      else
        AsVector(DecodeItems(sch, elem, if h.value.0 < 0 then 0 else h.value.0, h.value.1))
    case Object(name) =>
      ReadObject(sch, if name in sch.single then Some(sch.single[name]) else None, s)
    case _ => ReadScalar(sch, ty, s)
  }

  /** Reads an object; `only` is the constructor of a type that has no other. */
  function ReadObject(sch: Schema, only: Option<nat>, s: seq<byte>): (r: Read<Value>)
    ensures r.Some? ==> |r.value.1| <= |s|
    decreases |s|, 0, 0
  {
    if |s| < 4 then None
    else
      var id := FromLE(s[..4]);
      if (only.Some? && id != only.value) || id !in sch.ctors then None
      else
        var r := DecodeFields(sch, ReadCode(sch.ctors[id]), 0, map[], s[4..]);
        if r.None? then None else Some((ObjV(id, r.value.0), r.value.1))
  }

  /** Elements are read without regard to how many constructors their type has. */
  function DecodeItems(sch: Schema, elem: TlType, n: nat, s: seq<byte>): (r: Read<seq<Value>>)
    ensures r.Some? ==> |r.value.1| <= |s|
    decreases |s|, 2, n
  {
    if n == 0 then Some(([], s))
    else
      var x := DecodeItem(sch, elem, s);
      if x.None? then None else Cons(x.value.0, DecodeItems(sch, elem, n - 1, x.value.1))
  }

  function DecodeItem(sch: Schema, elem: TlType, s: seq<byte>): (r: Read<Value>)
    ensures r.Some? ==> |r.value.1| <= |s|
    decreases |s|, 1, 1
  {
    if elem.Object? then ReadObject(sch, None, s) else Decode(sch, elem, s)
  }

  /** Runs emitted reading code from statement `k` on; a flag word that was never read is an error. */
  function DecodeFields(sch: Schema, code: seq<ReadStmt>, k: nat, flags: map<nat, nat>, s: seq<byte>)
    : (r: Read<seq<Value>>)
    requires k <= |code|
    ensures r.Some? ==> |r.value.1| <= |s|
    decreases |s|, 2, |code| - k
  {
    if k == |code| then Some(([], s))
    else if code[k].ReadFlags? then
      if |s| < 4 then None
      else
        Cons(NoneV, DecodeFields(sch, code, k + 1, flags[code[k].num := FromLE(s[..4])], s[4..]))
    else
      var x := DecodeField(sch, code[k], flags, s);
      if x.None? then None else Cons(x.value.0, DecodeFields(sch, code, k + 1, flags, x.value.1))
  }

  function DecodeField(sch: Schema, st: ReadStmt, flags: map<nat, nat>, s: seq<byte>): (r: Read<Value>)
    requires !st.ReadFlags?
    ensures r.Some? ==> |r.value.1| <= |s|
    decreases |s|, 1, 1
  {
    match st
    case ReadField(ty) => Decode(sch, ty, s)
    case ReadIf(ty, num, bit) =>
      if num !in flags then None
      else if HasBit(flags[num], bit) then Decode(sch, ty, s)
      else Some((NoneV, s))
    case TestBit(num, bit) =>
      if num !in flags then None else Some((BoolV(HasBit(flags[num], bit)), s))
  }

  // ----- writing

  /** The original raises on a value that does not belong to the type. */
  function WriteScalar(ty: TlType, v: Value): seq<byte> {
    match ty
    case Int | Long | Int128 | Int256 =>
      if v.IntV? && InRange(v.i, IntSize(ty)) then WriteInt(v.i, IntSize(ty)) else []
    case Double => if v.DoubleV? then v.bits else []
    case Bytes | Str => if v.BytesV? && |v.bytes| < 0x100_0000 then WriteBytes(v.bytes) else []
    case Bool => if v.BoolV? && v.b then BOOL_TRUE else BOOL_FALSE
    case _ => []
  }

  function Encode(sch: Schema, ty: TlType, v: Value): seq<byte>
    decreases v, 0
  {
    match ty
    case Vector(elem) =>
      if v.VecV? && |v.items| < 0x8000_0000 then VectorHeader(|v.items|) + EncodeItems(sch, elem, v.items) else []
    case Object(_) =>
      if v.ObjV? && v.ctor in sch.ctors && |sch.ctors[v.ctor]| == |v.vals| then
        ToLE(v.ctor, 4) + EncodeFields(sch, sch.ctors[v.ctor], v.vals, 0)
      else []
    case _ => WriteScalar(ty, v)
  }

  function EncodeItems(sch: Schema, elem: TlType, items: seq<Value>): seq<byte>
    decreases items, 0
  {
    if items == [] then [] else Encode(sch, elem, items[0]) + EncodeItems(sch, elem, items[1..])
  }

  /** What the serializer writes from field `k` on. */
  function EncodeFields(sch: Schema, fields: seq<FieldSpec>, vals: seq<Value>, k: nat): seq<byte>
    requires k <= |fields| == |vals|
    decreases vals, |fields| - k
  {
    if k == |fields| then []
    else
      var f := fields[k];
      (if f.IsFlag() then FlagBytes(WordBits(fields, vals, f.flagNum))
       else if f.IsOptional() && !InBody(fields, vals, k) then []
       else Encode(sch, f.fullType, vals[k]))
      + EncodeFields(sch, fields, vals, k + 1)
  }

  function Position(fields: seq<FieldSpec>, name: string): (r: nat)
    ensures r <= |fields|
    ensures r < |fields| ==> fields[r].name == name
    ensures forall i :: 0 <= i < r ==> fields[i].name != name
  {
    if fields == [] then 0 else if fields[0].name == name then 0 else 1 + Position(fields[1..], name)
  }

  /** The attributes of an object. */
  function ObjEnv(fields: seq<FieldSpec>, vals: seq<Value>): Env {
    (src: Src) =>
      if src.Self? && Position(fields, src.name) < |vals| then vals[Position(fields, src.name)] else NoneV
  }

  function WordBits(fields: seq<FieldSpec>, vals: seq<Value>, num: Option<nat>): set<nat> {
    BitsOf(PlainTerms(fields, num), 0, ObjEnv(fields, vals))
  }

  predicate InBody(fields: seq<FieldSpec>, vals: seq<Value>, k: nat)
    requires k < |fields| == |vals|
  {
    fields[k].Write() && Passes(BodyTest(SharesBit(fields, k), fields[k]), vals[k])
  }

  // ----- values that have a type

  ghost predicate ScalarTyped(sch: Schema, ty: TlType, v: Value) {
    !ty.True? && !ty.Flags? && Scalar(ty, v) && (ty.Str? ==> sch.utf8(v.bytes))
  }

  ghost predicate WellTyped(sch: Schema, ty: TlType, v: Value)
    decreases v, 0
  {
    match ty
    case Vector(elem) =>
      && v.VecV? && |v.items| < 0x8000_0000 && !elem.Vector?
      && forall i :: 0 <= i < |v.items| ==> WellTyped(sch, elem, v.items[i])
    case Object(name) =>
      && v.ObjV? && v.ctor in sch.ctors && |sch.ctors[v.ctor]| == |v.vals|
      && (name in sch.single ==> v.ctor == sch.single[name])
      && forall k :: 0 <= k < |v.vals| ==> FieldTyped(sch, sch.ctors[v.ctor][k], v.vals[k])
    case _ => ScalarTyped(sch, ty, v)
  }

  /** Flag words have no value of their own; conditional fields may be left out. */
  ghost predicate FieldTyped(sch: Schema, f: FieldSpec, v: Value)
    decreases v, 1
  {
    if f.IsFlag() then v.NoneV?
    else if !f.Write() then v.BoolV?
    else (f.IsOptional() && v.NoneV?) || WellTyped(sch, f.fullType, v)
  }

  /** No object in `v` makes its serializer raise on partly given fields of one bit. */
  ghost predicate ChecksPass(sch: Schema, v: Value) {
    match v
    case VecV(items) => forall i :: 0 <= i < |items| ==> ChecksPass(sch, items[i])
    case ObjV(c, vals) =>
      && (c in sch.ctors ==> SharedBitsAgree(sch.ctors[c], ObjEnv(sch.ctors[c], vals)))
      && forall k :: 0 <= k < |vals| ==> ChecksPass(sch, vals[k])
    case _ => true
  }

  // ----- the emitted code means these functions

  lemma EnvAt(fields: seq<FieldSpec>, vals: seq<Value>, k: nat)
    requires UniqueNames(fields) && k < |fields| == |vals|
    ensures ObjEnv(fields, vals)(Self(fields[k].name)) == vals[k]
  {
    assert Position(fields, fields[k].name) == k;
  }

  function ObjEncoder(sch: Schema): Encoder {
    (ty: TlType, v: Value) => Encode(sch, ty, v)
  }

  /** The layer plays no part in the plain serializer. */
  lemma PlainBits(fields: seq<FieldSpec>, num: Option<nat>, layer: int, env: Env)
    ensures BitsOf(PlainTerms(fields, num), layer, env) == BitsOf(PlainTerms(fields, num), 0, env)
  {
    forall t | t in PlainTerms(fields, num) ensures t.guard == NO_GUARD {
      var _ := PlainTermFrom(fields, num, t);
    }
  }

  lemma PlainStmtWrites(sch: Schema, fields: seq<FieldSpec>, vals: seq<Value>, k: nat, layer: int)
    requires WellFormedFields(fields) && k < |fields| == |vals|
    ensures Run(PlainStmt(fields, k), layer, ObjEnv(fields, vals), ObjEncoder(sch))
            + EncodeFields(sch, fields, vals, k + 1) == EncodeFields(sch, fields, vals, k)
  {
    var f := fields[k];
    var env := ObjEnv(fields, vals);
    EnvAt(fields, vals, k);
    if PlainStmt(fields, k) != [] {
      RunOne(PlainStmt(fields, k)[0], layer, env, ObjEncoder(sch));
    }
    if f.IsFlag() {
      PlainBits(fields, f.flagNum, layer, env);
    }
  }

  lemma RunOneMore(fields: seq<FieldSpec>, k: nat, layer: int, env: Env, enc: Encoder)
    requires 0 < k <= |fields|
    ensures Run(PlainUpTo(fields, k), layer, env, enc)
      == Run(PlainUpTo(fields, k - 1), layer, env, enc) + Run(PlainStmt(fields, k - 1), layer, env, enc)
  {
    RunConcat(PlainUpTo(fields, k - 1), PlainStmt(fields, k - 1), layer, env, enc);
  }

  lemma {:induction false} PlainUpToWrites(sch: Schema, fields: seq<FieldSpec>, vals: seq<Value>, k: nat, layer: int)
    requires WellFormedFields(fields) && k <= |fields| == |vals|
    ensures Run(PlainUpTo(fields, k), layer, ObjEnv(fields, vals), ObjEncoder(sch))
            + EncodeFields(sch, fields, vals, k) == EncodeFields(sch, fields, vals, 0)
    decreases k
  {
    if k > 0 {
      var env, enc := ObjEnv(fields, vals), ObjEncoder(sch);
      PlainUpToWrites(sch, fields, vals, k - 1, layer);
      PlainStmtWrites(sch, fields, vals, k - 1, layer);
      RunOneMore(fields, k, layer, env, enc);
      Regroup(Run(PlainUpTo(fields, k), layer, env, enc), Run(PlainUpTo(fields, k - 1), layer, env, enc),
              Run(PlainStmt(fields, k - 1), layer, env, enc), EncodeFields(sch, fields, vals, k),
              EncodeFields(sch, fields, vals, k - 1));
    }
  }

  lemma Regroup(all: seq<byte>, before: seq<byte>, here: seq<byte>, after: seq<byte>, rest: seq<byte>)
    requires all == before + here && here + after == rest
    ensures all + after == before + rest
  {
    AppendAssoc(before, here, after);
  }

  /** Running the emitted serializer body writes what `EncodeFields` says. */
  lemma BodyWrites(sch: Schema, fields: seq<FieldSpec>, vals: seq<Value>, layer: int)
    requires WellFormedFields(fields) && |fields| == |vals|
    ensures Run(PlainBody(fields), layer, ObjEnv(fields, vals), ObjEncoder(sch)) == EncodeFields(sch, fields, vals, 0)
  {
    PlainUpToWrites(sch, fields, vals, |fields|, layer);
  }

  // ----- the wire form, spelled out

  /** Integers of every size: each byte a digit in base 256, lowest first, negative ones in two's complement. */
  lemma IntegerBytes(sch: Schema, ty: TlType, i: int, k: nat)
    requires ty.Int? || ty.Long? || ty.Int128? || ty.Int256?
    requires InRange(i, IntSize(ty)) && k < IntSize(ty)
    ensures var w := Encode(sch, ty, IntV(i));
      && |w| == (if ty.Int? then 4 else if ty.Long? then 8 else if ty.Int128? then 16 else 32)
      && w[k] == i / Pow256(k) % 256
  {
    IntBytes(i, IntSize(ty), k);
  }

  /** The short ones spelled out, and booleans. */
  lemma ScalarBytes(sch: Schema, i: int, b: bool, bits: seq<byte>)
    ensures -0x8000_0000 <= i < 0x8000_0000 ==>
      var w := Encode(sch, Int, IntV(i)); |w| == 4 && Four(w) == if i < 0 then i + 0x1_0000_0000 else i
    ensures Encode(sch, Bool, BoolV(b)) == if b then [0xb5, 0x75, 0x72, 0x99] else [0x37, 0x97, 0x79, 0xbc]
    ensures Encode(sch, Double, DoubleV(bits)) == bits
  {
    if -0x8000_0000 <= i < 0x8000_0000 {
      IntOfFour(i);
    }
  }

  /** Strings are byte strings: see `BytesLayout`. */
  lemma StringBytes(sch: Schema, b: seq<byte>)
    requires |b| < 0x100_0000
    ensures var w, h := Encode(sch, Bytes, BytesV(b)), if |b| < 254 then 1 else 4;
      && Encode(sch, Str, BytesV(b)) == w
      && |w| % 4 == 0 && h + |b| <= |w| < h + |b| + 4
      && (|b| < 254 ==> w[0] == |b|)
      && (|b| >= 254 ==> w[0] == 254 && Three(w[1..4]) == |b|)
      && w[h..h + |b|] == b
      && forall k :: h + |b| <= k < |w| ==> w[k] == 0
  {
    BytesLayout(b);
  }

  /** A vector: its id, its count, and its elements one behind the other. */
  lemma VectorBytes(sch: Schema, elem: TlType, items: seq<Value>, x: Value)
    requires |items| < 0x7fff_ffff
    ensures Encode(sch, Vector(elem), VecV([])) == [0x15, 0xc4, 0xb5, 0x1c, 0, 0, 0, 0]
    ensures var w, more := Encode(sch, Vector(elem), VecV(items)), Encode(sch, Vector(elem), VecV(items + [x]));
      && |w| >= 8 && w[..4] == [0x15, 0xc4, 0xb5, 0x1c] && Four(w[4..8]) == |items|
      && |more| >= 8 && more[8..] == w[8..] + Encode(sch, elem, x)
  {
    HeaderBytes(0);
    HeaderBytes(|items|);
    HeaderBytes(|items| + 1);
    ItemsAppend(sch, elem, items, x);
    var none: seq<Value> := [];
    assert EncodeItems(sch, elem, none) == [];
    var h, h' := VectorHeader(|items|), VectorHeader(|items| + 1);
    var body, body' := EncodeItems(sch, elem, items), EncodeItems(sch, elem, items + [x]);
    assert (h + body)[4..8] == h[4..] && (h + body)[8..] == body && (h' + body')[8..] == body';
    ZeroBytes();
  }

  lemma ZeroBytes()
    ensures VectorHeader(0) == [0x15, 0xc4, 0xb5, 0x1c, 0, 0, 0, 0]
  {
    HeaderBytes(0);
    var w := VectorHeader(0);
    assert w == w[..4] + [w[4], w[5], w[6], w[7]];
  }

  lemma {:induction false} ItemsAppend(sch: Schema, elem: TlType, items: seq<Value>, x: Value)
    ensures EncodeItems(sch, elem, items + [x]) == EncodeItems(sch, elem, items) + Encode(sch, elem, x)
    decreases |items|
  {
    if items == [] {
      var none: seq<Value> := [];
      assert [x][1..] == none && EncodeItems(sch, elem, none) == [];
      assert items + [x] == [x];
    } else {
      ItemsAppend(sch, elem, items[1..], x);
      assert (items + [x])[1..] == items[1..] + [x];
      AppendAssoc(Encode(sch, elem, items[0]), EncodeItems(sch, elem, items[1..]), Encode(sch, elem, x));
    }
  }

  /** An object: its constructor id, and what its serializer writes. */
  lemma ObjectBytes(sch: Schema, name: string, c: nat, vals: seq<Value>, layer: int)
    requires c in sch.ctors && c < 0x1_0000_0000 && |sch.ctors[c]| == |vals| && WellFormedFields(sch.ctors[c])
    ensures var w, fields := Encode(sch, Object(name), ObjV(c, vals)), sch.ctors[c];
      && |w| >= 4 && Four(w[..4]) == c
      && w[4..] == Run(PlainBody(fields), layer, ObjEnv(fields, vals), ObjEncoder(sch))
  {
    FourBytes(c);
    BodyWrites(sch, sch.ctors[c], vals, layer);
    var id, body := ToLE(c, 4), EncodeFields(sch, sch.ctors[c], vals, 0);
    assert (id + body)[..4] == id && (id + body)[4..] == body;
  }
}
