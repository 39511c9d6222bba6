/** What the readers make of any bytes at all, well-formed or not. */
module TlReading {
  import opened Containers
  import opened TlSchema
  import opened TlCode
  import opened TlPrimitives
  import opened TlCodec

  lemma {:induction false} WrittenBack(s: seq<byte>)
    ensures FromLE(s) < Pow256(|s|) && ToLE(FromLE(s), |s|) == s
  {
    if s != [] {
      var low: int := s[0];
      var high := FromLE(s[1..]);
      WrittenBack(s[1..]);
      QuotientIs(low + 256 * high, 256, high, low);
      assert s == [s[0]] + s[1..];
    }
  }

  lemma {:induction false} EvenPower(n: nat)
    requires n > 0
    ensures Pow256(n) % 2 == 0
  {
    var p := Pow256(n - 1);
    assert Pow256(n) == 2 * (128 * p);
  }

  lemma SignedWrittenBack(s: seq<byte>)
    requires s != []
    ensures InRange(SignedLE(s), |s|) && WriteInt(SignedLE(s), |s|) == s
  {
    WrittenBack(s);
    EvenPower(|s|);
  }

  /** Reading an integer of 4 or 8 bytes fails exactly when there are fewer, and otherwise what is read is what those
      bytes are the writing of; wider ones take fewer bytes for the whole. */
  lemma IntegerExactly(s: seq<byte>, size: nat)
    requires size > 0
    ensures var r := ReadInt(s, size);
      && (r.None? <==> size <= 8 && |s| < size)
      && (|s| >= size ==>
            InRange(r.value.0, size) && s == WriteInt(r.value.0, size) + r.value.1)
      && (0 < |s| < size && size > 8 ==>
            InRange(r.value.0, |s|) && s == WriteInt(r.value.0, |s|) && r.value.1 == [])
  {
    if |s| >= size {
      SignedWrittenBack(s[..size]);
    } else if s != [] {
      SignedWrittenBack(s);
    }
  }

  /** A boolean is read from its two forms and nothing else. */
  lemma BooleanExactly(s: seq<byte>, b: bool, rest: seq<byte>)
    ensures ReadBool(s) == Some((b, rest)) <==>
      s == (if b then [0xb5, 0x75, 0x72, 0x99] else [0x37, 0x97, 0x79, 0xbc]) + rest
  {
    assert BOOL_TRUE[0] != BOOL_FALSE[0];
    var form := if b then BOOL_TRUE else BOOL_FALSE;
    if s == form + rest {
      UpToExact(form, rest);
    }
  }

  /** A vector header is read from the vector id and a count of any sign, and nothing else. */
  lemma HeaderExactly(s: seq<byte>, n: int, rest: seq<byte>)
    ensures ReadHeader(s) == Some((n, rest)) <==>
      InRange(n, 4) && s == [0x15, 0xc4, 0xb5, 0x1c] + (WriteInt(n, 4) + rest)
  {
    if ReadHeader(s) == Some((n, rest)) {
      IntegerExactly(s[4..], 4);
      assert s == s[..4] + s[4..];
    }
    if InRange(n, 4) && s == VECTOR + (WriteInt(n, 4) + rest) {
      UpToExact(VECTOR, WriteInt(n, 4) + rest);
      IntReads(n, 4, rest);
    }
  }

  /** What is left behind the first place from `from` on that is divisible by 4. */
  predicate SkipsTo(s: seq<byte>, from: nat, end: nat, rest: seq<byte>) {
    from <= end < from + 4 && end % 4 == 0 && rest == if end <= |s| then s[end..] else []
  }

  ghost predicate Skips(s: seq<byte>, from: nat, rest: seq<byte>) {
    exists end :: SkipsTo(s, from, end, rest)
  }

  lemma RestSkips(s: seq<byte>, from: nat)
    requires from <= |s|
    ensures Skips(s, from, UpTo(s[from..], Padding(from)).1)
  {
    var end := from + Padding(from);
    assert end <= |s| ==> s[from..][Padding(from)..] == s[end..];
    assert SkipsTo(s, from, end, UpTo(s[from..], Padding(from)).1);
  }

  /** The length of a byte string takes one byte, or four if it does not fit in one. */
  predicate HasLength(s: seq<byte>, h: nat, n: nat) {
    |s| > 0 && if s[0] < 254 then h == 1 && n == s[0] else |s| >= 4 && h == 4 && n == Three(s[1..4])
  }

  lemma LengthIs(s: seq<byte>, h: nat, n: nat)
    requires HasLength(s, h, n)
    ensures h <= |s| && ReadLength(s) == (n, s[h..])
  {
    if s[0] >= 254 {
      assert s[1..][..3] == s[1..4] && s[1..][3..] == s[4..];
      ThreeIs(s[1..4]);
    }
  }

  /** A byte string is read from any bytes but none: as many as its length says, as far as there are; and then as many
      are skipped as make the whole divisible by 4, whatever they are. */
  lemma StringExactly(s: seq<byte>, h: nat, n: nat)
    requires HasLength(s, h, n)
    ensures ReadBytes(s).Some? && ReadBytes([]).None?
    ensures var (data, rest) := ReadBytes(s).value;
      if h + n <= |s| then data == s[h..h + n] && Skips(s, h + n, rest) else data == s[h..] && rest == []
  {
    LengthIs(s, h, n);
    if h + n <= |s| {
      assert s[h..][..n] == s[h..h + n] && s[h..][n..] == s[h + n..];
      RestSkips(s, h + n);
    }
  }

  lemma ThreeIs(s: seq<byte>)
    requires |s| == 3
    ensures FromLE(s) == Three(s)
  {
    assert s[1..][1..] == [s[2]] && FromLE([s[2]]) == s[2];
    assert FromLE(s[1..]) == s[1] + 256 * FromLE([s[2]]);
  }

  /** A vector of numbers is read in one piece: a count that is too high gives what there is, a negative one all of it,
      and only an element cut short is refused. */
  lemma BulkExactly(sch: Schema, elem: TlType, s: seq<byte>, count: int, body: seq<byte>)
    requires elem.Int? || elem.Long? || elem.Double?
    requires ReadHeader(s) == Some((count, body))
    ensures
      var size := if elem.Int? then 4 else 8;
      var n := if count < 0 || count * size > |body| then |body| else count * size;
      var r := Decode(sch, Vector(elem), s);
      && (r.None? <==> n % size != 0)
      && (r.Some? ==> r.value.1 == body[n..] && r.value.0.VecV? && |r.value.0.items| == n / size)
  {
    var size := if elem.Int? then 4 else 8;
    var n := if count < 0 || count * size > |body| then |body| else count * size;
    assert BulkSize(elem) == size;
    var asked := if count < 0 then |body| else count * size;
    assert body[..|body|] == body && body[|body|..] == [];
    assert UpTo(body, asked) == (body[..n], body[n..]);
    assert Decode(sch, Vector(elem), s) == ReadBulk(elem, count, body);
    ChunkCount(elem, body[..n], size);
  }

  lemma {:induction false} ChunkCount(elem: TlType, data: seq<byte>, size: nat)
    requires (elem.Int? || elem.Long? || elem.Double?) && size == BulkSize(elem)
    ensures |Chunks(elem, data)| == |data| / size
    decreases |data|
  {
    if |data| >= size {
      ChunkCount(elem, data[size..], size);
      assert |data[size..]| == |data| - size;
      ShiftedQuotient(|data| - size, size, 1);
    }
  }

  /** An object is read only behind four bytes of the id of a known constructor, the only one of its type if there is
      only one. */
  lemma ObjectNeeds(sch: Schema, name: string, s: seq<byte>)
    ensures var r := Decode(sch, Object(name), s);
      r.Some? ==>
        && |s| >= 4 && FromLE(s[..4]) in sch.ctors && (name in sch.single ==> FromLE(s[..4]) == sch.single[name])
        && r.value.0.ObjV? && r.value.0.ctor == FromLE(s[..4])
  {
    var only := if name in sch.single then Some(sch.single[name]) else None;
    assert Decode(sch, Object(name), s) == ReadObject(sch, only, s);
  }
}
