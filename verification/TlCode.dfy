/** Values of TL objects, little-endian words, and the meaning of the serializer code the generator emits. */
module TlCode {
  import opened Containers
  import opened TlSchema

  type byte = n: int | 0 <= n < 256

  /** A Python value of a field; strings stand for their UTF-8 bytes, doubles for their 8 bytes. */
  datatype Value =
    | NoneV
    | BoolV(b: bool)
    | IntV(i: int)
    | DoubleV(bits: seq<byte>)
    | BytesV(bytes: seq<byte>)
    | VecV(items: seq<Value>)
    | ObjV(ctor: nat, vals: seq<Value>)

  /** `if value:` */
  predicate Truthy(v: Value) {
    match v
    case NoneV => false
    case BoolV(b) => b
    case IntV(i) => i != 0
    case DoubleV(bits) => exists k :: 0 <= k < |bits| && bits[k] != 0 && (k < |bits| - 1 || bits[k] != 128)
    case BytesV(bytes) => bytes != []
    case VecV(items) => items != []
    case ObjV(_, _) => true
  }

  // ----- fixed-size little-endian words

  function Pow256(n: nat): (r: nat)
    ensures r > 0
  {
    if n == 0 then 1 else 256 * Pow256(n - 1)
  }

  function ToLE(x: nat, size: nat): (r: seq<byte>)
    ensures |r| == size
  {
    if size == 0 then [] else [x % 256] + ToLE(x / 256, size - 1)
  }

  function FromLE(s: seq<byte>): nat {
    if s == [] then 0 else s[0] + 256 * FromLE(s[1..])
  }

  lemma {:induction false} LERoundTrip(x: nat, size: nat)
    requires x < Pow256(size)
    ensures FromLE(ToLE(x, size)) == x
  {
    if size > 0 {
      assert x / 256 < Pow256(size - 1);
      LERoundTrip(x / 256, size - 1);
    }
  }

  // ----- flag words

  /** The word with the bits of `bits` at and above position `from`, `width` of them. */
  function Word(bits: set<nat>, from: nat, width: nat): nat
    decreases width
  {
    if width == 0 then 0
    else (if from in bits then 1 else 0) + 2 * Word(bits, from + 1, width - 1)
  }

  predicate HasBit(x: nat, bit: nat) {
    if bit == 0 then x % 2 == 1 else HasBit(x / 2, bit - 1)
  }

  lemma LowBit(low: nat, high: nat)
    requires low <= 1
    ensures (low + 2 * high) % 2 == low && (low + 2 * high) / 2 == high
  {
  }

  lemma {:induction false} WordHasBit(bits: set<nat>, from: nat, width: nat, bit: nat)
    requires bit < width
    ensures HasBit(Word(bits, from, width), bit) <==> from + bit in bits
    decreases width
  {
    LowBit(if from in bits then 1 else 0, Word(bits, from + 1, width - 1));
    if bit > 0 {
      WordHasBit(bits, from + 1, width - 1, bit - 1);
    }
  }

  function Pow2(n: nat): (r: nat)
    ensures r > 0
  {
    if n == 0 then 1 else 2 * Pow2(n - 1)
  }

  lemma {:induction false} WordBound(bits: set<nat>, from: nat, width: nat)
    ensures Word(bits, from, width) < Pow2(width)
    decreases width
  {
    if width > 0 {
      WordBound(bits, from + 1, width - 1);
    }
  }

  /** Flag words have 31 usable bits: the word is written as a signed 32-bit integer. */
  const FLAG_BITS: nat := 31

  function FlagValue(bits: set<nat>): nat {
    Word(bits, 0, FLAG_BITS)
  }

  function FlagBytes(bits: set<nat>): seq<byte> {
    ToLE(FlagValue(bits), 4)
  }

  lemma FlagWordSize()
    ensures Pow2(FLAG_BITS) == 0x8000_0000 && Pow256(4) == 0x1_0000_0000
  {
    assert Pow2(3) == 8;
    Pow2Add4(3); Pow2Add4(7); Pow2Add4(11); Pow2Add4(15); Pow2Add4(19); Pow2Add4(23); Pow2Add4(27);
    assert Pow256(2) == 0x1_0000;
  }

  lemma Pow2Add4(n: nat)
    ensures Pow2(n + 4) == 16 * Pow2(n)
  {
    assert Pow2(n + 2) == 4 * Pow2(n);
  }

  lemma FlagBytesDecode(bits: set<nat>)
    ensures FromLE(FlagBytes(bits)) == FlagValue(bits) < 0x8000_0000
    ensures forall b: nat :: b < FLAG_BITS ==> (HasBit(FromLE(FlagBytes(bits)), b) <==> b in bits)
  {
    WordBound(bits, 0, FLAG_BITS);
    FlagWordSize();
    LERoundTrip(FlagValue(bits), 4);
    forall b: nat | b < FLAG_BITS ensures HasBit(FlagValue(bits), b) <==> b in bits {
      WordHasBit(bits, 0, FLAG_BITS, b);
    }
  }

  lemma AtLeastOnce(d: int, k: int)
    requires d > 0
    ensures (k >= 1 ==> d * k >= d) && (k <= -1 ==> d * k <= -d)
  {
  }

  lemma QuotientIs(x: int, d: int, q: int, r: int)
    requires d > 0 && x == d * q + r && 0 <= r < d
    ensures x / d == q
  {
    var q', r' := x / d, x % d;
    assert d * (q - q') == r' - r;
    AtLeastOnce(d, q - q');
  }

  lemma MulAssoc(a: int, b: int, c: int)
    ensures a * (b * c) == (a * b) * c && a * (b + c) == a * b + a * c
  {
  }

  /** Digits of digits: a remainder below `d` scaled by `c`, and a remainder below `c`, are below `c * d`. */
  lemma Nested(c: int, d: int, r: int, low: int)
    requires c > 0 && 0 <= r < d && 0 <= low < c
    ensures c * d > 0 && 0 <= c * r + low < c * d
  {
    AtLeastOnce(c, d - r);
    MulAssoc(c, d - r, r);
  }

  lemma DivideTwice(x: int, c: int, d: int)
    requires c > 0 && d > 0
    ensures c * d > 0 && x / c / d == x / (c * d)
  {
    var y, low := x / c, x % c;
    var q, r := y / d, y % d;
    Nested(c, d, r, low);
    MulAssoc(c, d, q);
    MulAssoc(c, d * q, r);
    QuotientIs(x, c * d, q, c * r + low);
  }

  lemma {:induction false} BitIs(x: nat, bit: nat)
    ensures HasBit(x, bit) <==> x / Pow2(bit) % 2 == 1
  {
    if bit > 0 {
      BitIs(x / 2, bit - 1);
      DivideTwice(x, 2, Pow2(bit - 1));
    }
  }

  lemma OneBitMore(bits: set<nat>, from: nat, k: nat, width: nat)
    ensures Word(bits, from, k + 1 + width) == (if from in bits then 1 else 0) + 2 * Word(bits, from + 1, k + width)
    ensures Word(bits, from, k + 1) == (if from in bits then 1 else 0) + 2 * Word(bits, from + 1, k)
    ensures Pow2(k + 1) == 2 * Pow2(k)
  {
  }

  lemma {:induction false} WordSplits(bits: set<nat>, from: nat, k: nat, width: nat)
    ensures Word(bits, from, k + width) == Word(bits, from, k) + Pow2(k) * Word(bits, from + k, width)
    decreases k
  {
    if k > 0 {
      WordSplits(bits, from + 1, k - 1, width);
      MulAssoc(2, Pow2(k - 1), Word(bits, from + k, width));
      OneBitMore(bits, from, k - 1, width);
    }
  }

  /** `eight` stands for 8, so that words of that width are not spelled out bit by bit. */
  lemma ByteOfWord(bits: set<nat>, eight: nat, from: nat, width: nat, size: nat)
    requires eight == 8
    ensures ToLE(Word(bits, from, eight + width), size + 1)
      == [Word(bits, from, eight)] + ToLE(Word(bits, from + eight, width), size)
    ensures Word(bits, from, eight) < 256
  {
    var low, high := Word(bits, from, eight), Word(bits, from + eight, width);
    WordSplits(bits, from, eight, width);
    WordBound(bits, from, eight);
    Pow2Of(eight);
    LEOfDigits(low, high, size);
  }

  lemma LEOfDigits(low: nat, high: nat, size: nat)
    requires low < 256
    ensures ToLE(low + 256 * high, size + 1) == [low] + ToLE(high, size)
  {
    QuotientIs(low + 256 * high, 256, high, low);
  }

  lemma Pow2Of(width: nat)
    ensures width == 7 ==> Pow2(width) == 128
    ensures width == 8 ==> Pow2(width) == 256
  {
    Pow2Add4(0);
    Pow2Add4(3);
    Pow2Add4(4);
    assert Pow2(3) == 8;
  }

  lemma WordIsBytes(bits: set<nat>, eight: nat, top: nat)
    requires eight == 8 && top == 7
    ensures ToLE(Word(bits, 0, 3 * eight + top), 4)
      == [Word(bits, 0, eight), Word(bits, eight, eight), Word(bits, 2 * eight, eight), Word(bits, 3 * eight, top)]
    ensures Word(bits, 3 * eight, top) < 128
  {
    ByteOfWord(bits, eight, 0, 2 * eight + top, 3);
    ByteOfWord(bits, eight, eight, eight + top, 2);
    ByteOfWord(bits, eight, 2 * eight, top, 1);
    WordBound(bits, 3 * eight, top);
    Pow2Of(top);
    LEOfDigits(Word(bits, 3 * eight, top), 0, 0);
  }

  /** A flag word is four bytes, each with the next eight of its bits, lowest first; the topmost bit is not used. */
  lemma FlagWordBytes(bits: set<nat>, bit: nat)
    requires bit < FLAG_BITS
    ensures var w := FlagBytes(bits);
      |w| == 4 && w[3] < 128 && (w[bit / 8] / Pow2(bit % 8) % 2 == 1 <==> bit in bits)
  {
    BitOfBytes(bits, 8, FLAG_BITS - 24, bit);
  }

  lemma BitOfBytes(bits: set<nat>, eight: nat, top: nat, bit: nat)
    requires eight == 8 && top == 7 && bit < 3 * eight + top
    ensures var w := ToLE(Word(bits, 0, 3 * eight + top), 4);
      w[3] < 128 && (w[bit / eight] / Pow2(bit % eight) % 2 == 1 <==> bit in bits)
  {
    WordIsBytes(bits, eight, top);
    ByteHasBit(bits, bit - bit % eight, if bit < 3 * eight then eight else top, bit % eight);
  }

  lemma ByteHasBit(bits: set<nat>, from: nat, width: nat, r: nat)
    requires r < width
    ensures Word(bits, from, width) / Pow2(r) % 2 == 1 <==> from + r in bits
  {
    WordHasBit(bits, from, width, r);
    BitIs(Word(bits, from, width), r);
  }

  // ----- emitted statements

  datatype Test = IfTruthy | IfNotNone

  predicate Passes(t: Test, v: Value) {
    match t
    case IfTruthy => Truthy(v)
    case IfNotNone => !v.NoneV?
  }

  /** `if lo <= ctx.layer <= hi:`, either side possibly left out. */
  datatype Guard = Guard(lo: Option<int>, hi: Option<int>)

  const NO_GUARD := Guard(None, None)

  predicate Allows(g: Guard, layer: int) {
    (g.lo.Some? ==> g.lo.value <= layer) && (g.hi.Some? ==> layer <= g.hi.value)
  }

  /** Where a written value comes from: the object itself, or a converter for one entry of a field. */
  datatype Src =
    | Self(name: string)
    | Fallback(name: string, layer: int)
    | Downgrade(name: string, layer: int)

  datatype FlagTerm = FlagTerm(guard: Guard, src: Src, test: Test, bit: nat)

  datatype Stmt =
    | FlagWord(guard: Guard, num: nat, terms: seq<FlagTerm>)
    | Put(guard: Guard, src: Src, ty: TlType, test: Option<Test>)

  type Env = Src -> Value

  /** How one value is written. Which layer nested objects are written for is another matter: see `NestedLayers`. */
  type Encoder = (TlType, Value) -> seq<byte>

  function BitsOf(terms: seq<FlagTerm>, layer: int, env: Env): set<nat> {
    set t | t in terms && Allows(t.guard, layer) && Passes(t.test, env(t.src)) :: t.bit
  }

  function RunStmt(st: Stmt, layer: int, env: Env, enc: Encoder): seq<byte> {
    if !Allows(st.guard, layer) then []
    else
      match st
      case FlagWord(_, _, terms) => FlagBytes(BitsOf(terms, layer, env))
      case Put(_, src, ty, test) =>
        if test.Some? && !Passes(test.value, env(src)) then [] else enc(ty, env(src))
  }

  function Run(body: seq<Stmt>, layer: int, env: Env, enc: Encoder): seq<byte> {
    if body == [] then []
    else
      var n := |body| - 1;
      Run(body[..n], layer, env, enc) + RunStmt(body[n], layer, env, enc)
  }

  // ----- the plain serializer

  /** The flag-word test of a conditional field. */
  function FlagTest(f: FieldSpec): Test {
    if f.IsVector() || !f.Write() then IfTruthy else IfNotNone
  }

  predicate SameBit(a: FieldSpec, b: FieldSpec) {
    a.flagNum == b.flagNum && a.flagBit == b.flagBit
  }

  /** Some other field of the constructor uses the bit of `fields[k]`. */
  predicate SharesBit(fields: seq<FieldSpec>, k: nat)
    requires k < |fields|
  {
    exists m :: 0 <= m < |fields| && m != k && SameBit(fields[m], fields[k])
  }

  function BodyTest(shared: bool, f: FieldSpec): Test {
    if shared || !f.IsVector() then IfNotNone else IfTruthy
  }

  function TermOf(f: FieldSpec): FlagTerm
    requires f.IsOptional()
  {
    FlagTerm(NO_GUARD, Self(f.name), FlagTest(f), f.flagBit.value)
  }

  function PlainTerms(fields: seq<FieldSpec>, num: Option<nat>): seq<FlagTerm> {
    if fields == [] then []
    else
      var n := |fields| - 1;
      PlainTerms(fields[..n], num)
      + (if fields[n].IsOptional() && fields[n].flagNum == num
         then [TermOf(fields[n])]
         else [])
  }

  /** Every conditional field has its term in the flag word it belongs to. */
  lemma {:induction false} PlainTermIn(fields: seq<FieldSpec>, num: Option<nat>, q: nat)
    requires q < |fields| && fields[q].IsOptional() && fields[q].flagNum == num
    ensures TermOf(fields[q]) in PlainTerms(fields, num)
    decreases |fields|
  {
    var n := |fields| - 1;
    if q < n {
      assert fields[..n][q] == fields[q];
      PlainTermIn(fields[..n], num, q);
    }
  }

  /** Every term of a flag word comes from a conditional field. */
  lemma {:induction false} PlainTermFrom(fields: seq<FieldSpec>, num: Option<nat>, t: FlagTerm) returns (q: nat)
    requires t in PlainTerms(fields, num)
    ensures q < |fields| && fields[q].IsOptional() && fields[q].flagNum == num && t == TermOf(fields[q])
    decreases |fields|
  {
    var n := |fields| - 1;
    if t in PlainTerms(fields[..n], num) {
      q := PlainTermFrom(fields[..n], num, t);
    } else {
      q := n;
    }
  }

  function PlainStmt(fields: seq<FieldSpec>, k: nat): seq<Stmt>
    requires k < |fields|
  {
    var f := fields[k];
    if f.IsFlag() then
      [FlagWord(NO_GUARD, if f.flagNum.Some? then f.flagNum.value else 0, PlainTerms(fields, f.flagNum))]
    else if f.IsOptional() then
      if f.Write() then [Put(NO_GUARD, Self(f.name), f.fullType, Some(BodyTest(SharesBit(fields, k), f)))] else []
    else
      [Put(NO_GUARD, Self(f.name), f.fullType, None)]
  }

  function PlainUpTo(fields: seq<FieldSpec>, k: nat): seq<Stmt>
    requires k <= |fields|
  {
    if k == 0 then [] else PlainUpTo(fields, k - 1) + PlainStmt(fields, k - 1)
  }

  /** The body of the serializer of one version, after its check of shared bits. */
  function PlainBody(fields: seq<FieldSpec>): seq<Stmt> {
    PlainUpTo(fields, |fields|)
  }

  // ----- the check in front of the body

  /** `is None`, or `is False` for a bare flag. */
  predicate Empty(f: FieldSpec, v: Value) {
    if f.Write() then v.NoneV? else v == BoolV(false)
  }

  predicate NotEmpty(f: FieldSpec, v: Value) {
    if f.Write() then !v.NoneV? else v == BoolV(true)
  }

  /** Fields on one bit are all given or all left out; otherwise the serializer raises. */
  ghost predicate SharedBitsAgree(fields: seq<FieldSpec>, env: Env) {
    forall k :: 0 <= k < |fields| && fields[k].IsOptional() && SharesBit(fields, k) ==>
      || (forall m :: 0 <= m < |fields| && SameBit(fields[m], fields[k]) ==>
        Empty(fields[m], env(Self(fields[m].name))))
      || (forall m :: 0 <= m < |fields| && SameBit(fields[m], fields[k]) ==>
        NotEmpty(fields[m], env(Self(fields[m].name))))
  }

  /** What one version of a constructor looks like: names and flag words are unique, conditional fields
      have a flag word and a bit in it, and only conditional fields are `true`. */
  ghost predicate WellFormedFields(fields: seq<FieldSpec>) {
    && UniqueNames(fields)
    && (forall k :: 0 <= k < |fields| ==> WellFormedField(fields[k]))
    && (forall k, m :: 0 <= k < m < |fields| && fields[k].IsFlag() && fields[m].IsFlag() ==>
          fields[k].flagNum != fields[m].flagNum)
    && (forall k :: 0 <= k < |fields| && fields[k].IsOptional() ==> FlagBefore(fields, k))
  }

  ghost predicate FlagBefore(fields: seq<FieldSpec>, k: nat)
    requires k < |fields|
  {
    exists m :: 0 <= m < k && fields[m].IsFlag() && fields[m].flagNum == fields[k].flagNum
  }

  predicate WellFormedField(f: FieldSpec) {
    && (f.IsFlag() ==> f.flagNum.Some? && f.flagBit.None?)
    && (f.IsOptional() ==> f.flagNum.Some? && f.flagBit.value < FLAG_BITS)
    && (f.fullType.True? ==> f.IsOptional())
  }

  // ----- running concatenated code

  lemma RunLast(body: seq<Stmt>, st: Stmt, layer: int, env: Env, enc: Encoder)
    ensures Run(body + [st], layer, env, enc) == Run(body, layer, env, enc) + RunStmt(st, layer, env, enc)
  {
    assert (body + [st])[..|body|] == body;
  }

  lemma LastAppend(a: seq<Stmt>, b: seq<Stmt>)
    requires b != []
    ensures b[..|b| - 1] + [b[|b| - 1]] == b && a + b[..|b| - 1] + [b[|b| - 1]] == a + b
  {
  }

  lemma RunConcatMore(a: seq<Stmt>, b: seq<Stmt>, st: Stmt, layer: int, env: Env, enc: Encoder)
    requires Run(a + b, layer, env, enc) == Run(a, layer, env, enc) + Run(b, layer, env, enc)
    ensures Run(a + b + [st], layer, env, enc) == Run(a, layer, env, enc) + Run(b + [st], layer, env, enc)
  {
    RunLast(a + b, st, layer, env, enc);
    RunLast(b, st, layer, env, enc);
    AppendAssoc(Run(a, layer, env, enc), Run(b, layer, env, enc), RunStmt(st, layer, env, enc));
  }

  lemma {:induction false} RunConcat(a: seq<Stmt>, b: seq<Stmt>, layer: int, env: Env, enc: Encoder)
    ensures Run(a + b, layer, env, enc) == Run(a, layer, env, enc) + Run(b, layer, env, enc)
    decreases |b|
  {
    if b == [] {
      assert a + b == a;
    } else {
      var front, st := b[..|b| - 1], b[|b| - 1];
      RunConcat(a, front, layer, env, enc);
      RunConcatMore(a, front, st, layer, env, enc);
      LastAppend(a, b);
    }
  }

  lemma RunOne(st: Stmt, layer: int, env: Env, enc: Encoder)
    ensures Run([st], layer, env, enc) == RunStmt(st, layer, env, enc)
  {
    assert [st][..0] == [];
    assert Run([st][..0], layer, env, enc) == [];
  }
}
