/** The wire form of primitive values, with the leniencies of the original readers. */
module TlPrimitives {
  import opened Containers
  import opened TlSchema
  import opened TlCode

  /** What a reader returns: a value and the bytes left, or nothing if it raises. */
  type Read<T> = Option<(T, seq<byte>)>

  /** A stream gives at most what it has. */
  function UpTo(s: seq<byte>, n: nat): (r: (seq<byte>, seq<byte>))
    ensures |r.0| + |r.1| == |s|
  {
    if n <= |s| then (s[..n], s[n..]) else (s, [])
  }

  // ----- integers

  function IntSize(ty: TlType): nat {
    match ty
    case Int => 4
    case Long => 8
    case Int128 => 16
    case Int256 => 32
    case _ => 0
  }

  predicate InRange(i: int, size: nat) {
    var p: int := Pow256(size);
    -p <= 2 * i < p
  }

  /** What the writer of a primitive type takes; `true` and `#` as elements of a vector are booleans and integers. */
  ghost predicate Scalar(ty: TlType, v: Value) {
    match ty
    case Int | Long | Int128 | Int256 => v.IntV? && InRange(v.i, IntSize(ty))
    case Flags => v.IntV? && InRange(v.i, 4)
    case Double => v.DoubleV? && |v.bits| == 8
    case Bytes | Str => v.BytesV? && |v.bytes| < 0x100_0000
    case Bool | True => v.BoolV?
    case _ => false
  }

  /** Two's complement, little-endian. */
  function WriteInt(i: int, size: nat): seq<byte>
    requires InRange(i, size)
  {
    ToLE(Unsigned(i, size), size)
  }

  function Unsigned(i: int, size: nat): (r: nat)
    requires InRange(i, size)
    ensures r < Pow256(size)
  {
    if i < 0 then i + Pow256(size) else i
  }

  function SignedLE(s: seq<byte>): int {
    var x := FromLE(s);
    if 2 * x >= Pow256(|s|) then x - Pow256(|s|) else x
  }

  lemma IntRoundTrip(i: int, size: nat)
    requires InRange(i, size)
    ensures |WriteInt(i, size)| == size && (size > 0 ==> SignedLE(WriteInt(i, size)) == i)
  {
    if size > 0 {
      LERoundTrip(Unsigned(i, size), size);
    }
  }

  /** 4 and 8 byte integers are unpacked from exactly that many bytes; wider ones take what is there. */
  function ReadInt(s: seq<byte>, size: nat): (r: Read<int>)
    ensures r.Some? ==> |r.value.1| <= |s|
  {
    var (data, rest) := UpTo(s, size);
    if size <= 8 && |data| < size then None else Some((SignedLE(data), rest))
  }

  // ----- the bytes themselves

  lemma {:induction false} WordBytes(x: nat, size: nat, k: nat)
    requires k < size
    ensures ToLE(x, size)[k] == x / Pow256(k) % 256
  {
    if k > 0 {
      WordBytes(x / 256, size - 1, k - 1);
      DivideTwice(x, 256, Pow256(k - 1));
    }
  }

  lemma {:induction false} Pow256Splits(k: nat, m: nat)
    ensures Pow256(k + m) == Pow256(k) * Pow256(m)
  {
    if k > 0 {
      Pow256Splits(k - 1, m);
      MulAssoc(256, Pow256(k - 1), Pow256(m));
    }
  }

  /** Byte `k` of an integer of any size, negative ones included: the digit in base 256 at place `k`. */
  lemma IntBytes(i: int, size: nat, k: nat)
    requires InRange(i, size) && k < size
    ensures |WriteInt(i, size)| == size && WriteInt(i, size)[k] == i / Pow256(k) % 256
  {
    WordBytes(Unsigned(i, size), size, k);
    if i < 0 {
      ComplementDigit(i, size, k);
    }
  }

  /** Adding 256 to the `size` changes no digit below that place. */
  lemma ComplementDigit(i: int, size: nat, k: nat)
    requires k < size
    ensures (i + Pow256(size)) / Pow256(k) % 256 == i / Pow256(k) % 256
  {
    var p, m := Pow256(k), Pow256(size - k - 1);
    Pow256Splits(k, size - k);
    assert Pow256(size - k) == 256 * m;
    ShiftedQuotient(i, p, 256 * m);
    ShiftedRemainder(i / p, m);
  }

  lemma ShiftedQuotient(x: int, d: int, m: int)
    requires d > 0
    ensures (x + d * m) / d == x / d + m
  {
    MulAssoc(d, x / d, m);
    QuotientIs(x + d * m, d, x / d + m, x % d);
  }

  lemma ShiftedRemainder(x: int, m: int)
    ensures (x + 256 * m) % 256 == x % 256
  {
  }

  /** The number that three or four bytes make, lowest first. */
  function Three(s: seq<byte>): nat
    requires |s| == 3
  {
    var (x: int, y: int, z: int) := (s[0], s[1], s[2]);
    x + 0x100 * y + 0x1_0000 * z
  }

  function Four(s: seq<byte>): nat
    requires |s| == 4
  {
    var high: int := s[3];
    Three(s[..3]) + 0x100_0000 * high
  }

  /** A 32-bit integer, spelled out. */
  lemma IntOfFour(i: int)
    requires -0x8000_0000 <= i < 0x8000_0000
    ensures InRange(i, 4)
    ensures |WriteInt(i, 4)| == 4 && Four(WriteInt(i, 4)) == if i < 0 then i + 0x1_0000_0000 else i
  {
    FlagWordSize();
    FourBytes(Unsigned(i, 4));
  }

  lemma FourBytes(x: nat)
    requires x < 0x1_0000_0000
    ensures Four(ToLE(x, 4)) == x
  {
    var (y, z, u) := (x / 256, x / 256 / 256, x / 256 / 256 / 256);
    LEHead(u, 0);
    LEHead(z, 1);
    LEHead(y, 2);
    LEHead(x, 3);
    assert ToLE(x, 4) == [x % 256, y % 256, z % 256, u % 256];
    assert ToLE(x, 4)[..3] == [x % 256, y % 256, z % 256];
  }

  lemma ThreeBytes(x: nat)
    requires x < 0x100_0000
    ensures Three(ToLE(x, 3)) == x
  {
    var (y, z) := (x / 256, x / 256 / 256);
    LEHead(z, 0);
    LEHead(y, 1);
    LEHead(x, 2);
    assert ToLE(x, 3) == [x % 256, y % 256, z % 256];
  }

  lemma LEHead(x: nat, size: nat)
    ensures ToLE(x, size + 1) == [x % 256] + ToLE(x / 256, size)
  {
  }

  // ----- byte strings

  function Padding(n: nat): nat {
    (4 - n % 4) % 4
  }

  function Zeros(n: nat): (r: seq<byte>)
    ensures |r| == n
  {
    seq(n, _ => 0)
  }

  function BytesHeader(n: nat): seq<byte>
    requires n < 0x100_0000
  {
    if n >= 0xFE then [254] + ToLE(n, 3) else [n]
  }

  function WriteBytes(b: seq<byte>): seq<byte>
    requires |b| < 0x100_0000
  {
    var h := BytesHeader(|b|);
    h + b + Zeros(Padding(|h| + |b|))
  }

  /** The length prefix, and the bytes after it. */
  function ReadLength(s: seq<byte>): (r: (nat, seq<byte>))
    requires s != []
    ensures |r.1| < |s|
  {
    if s[0] >= 254 then
      var (len, rest) := UpTo(s[1..], 3);
      (FromLE(len), rest)
    else (s[0], s[1..])
  }

  lemma LengthReads(n: nat, rest: seq<byte>)
    requires n < 0x100_0000
    ensures ReadLength(BytesHeader(n) + rest) == (n, rest)
  {
    var s := BytesHeader(n) + rest;
    if n >= 0xFE {
      assert Pow256(3) == 0x100_0000 by {
        assert Pow256(2) == 0x1_0000;
      }
      LERoundTrip(n, 3);
      assert s[1..] == ToLE(n, 3) + rest;
      UpToExact(ToLE(n, 3), rest);
    } else {
      assert s[1..] == rest;
    }
  }

  function ReadBytes(s: seq<byte>): (r: Read<seq<byte>>)
    ensures r.Some? ==> |r.value.1| <= |s|
  {
    if s == [] then None
    else
      var (len, s1) := ReadLength(s);
      var (data, s2) := UpTo(s1, len);
      Some((data, UpTo(s2, Padding((if s[0] >= 254 then 4 else 1) + |data|)).1))
  }

  lemma UpToExact(a: seq<byte>, rest: seq<byte>)
    ensures UpTo(a + rest, |a|) == (a, rest)
  {
    assert (a + rest)[..|a|] == a && (a + rest)[|a|..] == rest;
  }

  lemma BytesRoundTrip(b: seq<byte>, rest: seq<byte>)
    requires |b| < 0x100_0000
    ensures ReadBytes(WriteBytes(b) + rest) == Some((b, rest))
  {
    var h := BytesHeader(|b|);
    var pad := Zeros(Padding(|h| + |b|));
    assert WriteBytes(b) + rest == h + (b + (pad + rest));
    LengthReads(|b|, b + (pad + rest));
    UpToExact(b, pad + rest);
    UpToExact(pad, rest);
  }

  /** What a byte string looks like on the wire: its length, in one byte or behind a 254 in three, then its bytes, then
      as few zeros as make the whole divisible by 4. */
  lemma BytesLayout(b: seq<byte>)
    requires |b| < 0x100_0000
    ensures var w, h := WriteBytes(b), if |b| < 254 then 1 else 4;
      && |w| % 4 == 0 && h + |b| <= |w| < h + |b| + 4
      && (|b| < 254 ==> w[0] == |b|)
      && (|b| >= 254 ==> w[0] == 254 && Three(w[1..4]) == |b|)
      && w[h..h + |b|] == b
      && forall k :: h + |b| <= k < |w| ==> w[k] == 0
  {
    PaddedLayout(BytesHeader(|b|), b);
    if |b| >= 254 {
      ThreeBytes(|b|);
      assert WriteBytes(b)[1..4] == BytesHeader(|b|)[1..] == ToLE(|b|, 3);
    }
  }

  lemma PaddedLayout(h: seq<byte>, b: seq<byte>)
    ensures var n := |h| + |b|;
      var w := h + b + Zeros(Padding(n));
      && |w| % 4 == 0 && n <= |w| < n + 4 && w[..|h|] == h && w[|h|..n] == b
      && forall k :: n <= k < |w| ==> w[k] == 0
  {
    assert (h + b)[|h|..] == b;
  }

  // ----- booleans, doubles, vector headers

  const BOOL_TRUE: seq<byte> := [0xb5, 0x75, 0x72, 0x99]
  const BOOL_FALSE: seq<byte> := [0x37, 0x97, 0x79, 0xbc]
  const VECTOR: seq<byte> := [0x15, 0xc4, 0xb5, 0x1c]

  function ReadBool(s: seq<byte>): (r: Read<bool>)
    ensures r.Some? ==> |r.value.1| <= |s|
  {
    var (data, rest) := UpTo(s, 4);
    if data == BOOL_TRUE then Some((true, rest)) else if data == BOOL_FALSE then Some((false, rest)) else None
  }

  /** The element count of a vector. */
  function ReadHeader(s: seq<byte>): (r: Read<int>)
    ensures r.Some? ==> |r.value.1| <= |s| - 8
  {
    var (data, rest) := UpTo(s, 4);
    if data == VECTOR then ReadInt(rest, 4) else None
  }

  lemma IntReads(i: int, size: nat, rest: seq<byte>)
    requires InRange(i, size) && size > 0
    ensures ReadInt(WriteInt(i, size) + rest, size) == Some((i, rest))
  {
    IntRoundTrip(i, size);
    UpToExact(WriteInt(i, size), rest);
  }

  function VectorHeader(n: nat): seq<byte>
    requires n < 0x8000_0000
  {
    FlagWordSize();
    VECTOR + WriteInt(n, 4)
  }

  lemma HeaderReads(n: nat, rest: seq<byte>)
    requires n < 0x8000_0000
    ensures ReadHeader(VectorHeader(n) + rest) == Some((n, rest))
  {
    FlagWordSize();
    assert VectorHeader(n) + rest == VECTOR + (WriteInt(n, 4) + rest);
    UpToExact(VECTOR, WriteInt(n, 4) + rest);
    IntReads(n, 4, rest);
  }

  /** The header spelled out. */
  lemma HeaderBytes(n: nat)
    requires n < 0x8000_0000
    ensures var w := VectorHeader(n);
      |w| == 8 && w[..4] == [0x15, 0xc4, 0xb5, 0x1c] && Four(w[4..]) == n
  {
    IntOfFour(n);
    assert VectorHeader(n)[..4] == VECTOR && VectorHeader(n)[4..] == WriteInt(n, 4);
  }

  lemma BoolReads(b: bool, rest: seq<byte>)
    ensures ReadBool((if b then BOOL_TRUE else BOOL_FALSE) + rest) == Some((b, rest))
  {
    UpToExact(if b then BOOL_TRUE else BOOL_FALSE, rest);
    assert BOOL_TRUE[0] != BOOL_FALSE[0];
  }
}
