/** The generator's loops over the fields of one constructor: its shared-bit checks, its serializer body
    and its deserializer body. */
module TlPlainEmit {
  import opened Containers
  import opened TlSchema
  import opened TlCode
  import opened TlCodec

  type BitKey = (Option<nat>, Option<nat>)

  function KeyOf(f: FieldSpec): BitKey {
    (f.flagNum, f.flagBit)
  }

  /** The fields among the first `n` that use a given bit of a given flag word. */
  function OnBit(fields: seq<FieldSpec>, n: nat, key: BitKey): seq<FieldSpec>
    requires n <= |fields|
  {
    if n == 0 then []
    else OnBit(fields, n - 1, key) + (if KeyOf(fields[n - 1]) == key then [fields[n - 1]] else [])
  }

  predicate Named(key: BitKey) {
    key.0.Some? && key.1.Some?
  }

  /** `if not (all empty or all not empty): raise` */
  ghost predicate CheckPasses(group: seq<FieldSpec>, env: Env) {
    || (forall m :: 0 <= m < |group| ==> Empty(group[m], env(Self(group[m].name))))
    || (forall m :: 0 <= m < |group| ==> NotEmpty(group[m], env(Self(group[m].name))))
  }

  ghost predicate AllChecksPass(checks: seq<seq<FieldSpec>>, env: Env) {
    forall c :: 0 <= c < |checks| ==> CheckPasses(checks[c], env)
  }

  ghost predicate Grouped(fields: seq<FieldSpec>, n: nat, keys: seq<BitKey>, byBit: map<BitKey, seq<FieldSpec>>)
    requires n <= |fields|
  {
    && (forall key :: key in byBit <==> key in keys)
    && (forall key :: key in byBit ==> Named(key) && byBit[key] == OnBit(fields, n, key) != [])
    && (forall key :: Named(key) && OnBit(fields, n, key) != [] ==> key in byBit)
  }

  /** A dict keeps its keys in the order of first insertion. */
  method GroupByBit(fields: seq<FieldSpec>) returns (keys: seq<BitKey>, byBit: map<BitKey, seq<FieldSpec>>)
    ensures Grouped(fields, |fields|, keys, byBit)
  {
    keys, byBit := [], map[];
    for i := 0 to |fields|
      invariant Grouped(fields, i, keys, byBit)
    {
      var key := KeyOf(fields[i]);
      GroupedStep(fields, i, keys, byBit);
      if key.0.Some? && key.1.Some? {
        keys := if key in byBit then keys else keys + [key];
        byBit := byBit[key := (if key in byBit then byBit[key] else []) + [fields[i]]];
      }
    }
  }

  lemma GroupedStep(fields: seq<FieldSpec>, i: nat, keys: seq<BitKey>, byBit: map<BitKey, seq<FieldSpec>>)
    requires i < |fields| && Grouped(fields, i, keys, byBit)
    ensures
      var key := KeyOf(fields[i]);
      if Named(key) then
        Grouped(fields, i + 1, if key in byBit then keys else keys + [key],
                byBit[key := (if key in byBit then byBit[key] else []) + [fields[i]]])
      else Grouped(fields, i + 1, keys, byBit)
  {
    var key := KeyOf(fields[i]);
    forall other | other != key ensures OnBit(fields, i + 1, other) == OnBit(fields, i, other) {
    }
    assert Named(key) && key !in byBit ==> OnBit(fields, i, key) == [];
  }

  /** The checks in front of a serializer body refuse exactly the objects that fill a shared bit in part. */
  method EmitChecks(fields: seq<FieldSpec>) returns (checks: seq<seq<FieldSpec>>)
    requires WellFormedFields(fields)
    ensures forall env: Env :: AllChecksPass(checks, env) <==> SharedBitsAgree(fields, env)
  {
    var keys, byBit := GroupByBit(fields);
    checks := SharedGroups(fields, keys, byBit);
    ChecksSuffice(fields, checks);
  }

  method SharedGroups(fields: seq<FieldSpec>, keys: seq<BitKey>, byBit: map<BitKey, seq<FieldSpec>>)
    returns (checks: seq<seq<FieldSpec>>)
    requires Grouped(fields, |fields|, keys, byBit)
    ensures forall c :: 0 <= c < |checks| ==> IsShared(fields, checks[c])
    ensures forall key :: Named(key) && |OnBit(fields, |fields|, key)| >= 2 ==> OnBit(fields, |fields|, key) in checks
  {
    checks := [];
    for i := 0 to |keys|
      invariant forall c :: 0 <= c < |checks| ==> IsShared(fields, checks[c])
      invariant forall key :: key in keys[..i] && |OnBit(fields, |fields|, key)| >= 2 ==>
                  OnBit(fields, |fields|, key) in checks
    {
      var key := keys[i];
      var group := byBit[key];
      assert keys[..i + 1] == keys[..i] + [key];
      if |group| >= 2 {
        assert Shared(fields, key, group);
        checks := checks + [group];
      }
    }
    assert keys[..|keys|] == keys;
  }

  lemma ChecksSuffice(fields: seq<FieldSpec>, checks: seq<seq<FieldSpec>>)
    requires WellFormedFields(fields)
    requires forall c :: 0 <= c < |checks| ==> IsShared(fields, checks[c])
    requires forall key :: Named(key) && |OnBit(fields, |fields|, key)| >= 2 ==> OnBit(fields, |fields|, key) in checks
    ensures forall env: Env :: AllChecksPass(checks, env) <==> SharedBitsAgree(fields, env)
  {
    forall env: Env ensures AllChecksPass(checks, env) <==> SharedBitsAgree(fields, env) {
      if SharedBitsAgree(fields, env) {
        forall c | 0 <= c < |checks| ensures CheckPasses(checks[c], env) {
          assert IsShared(fields, checks[c]);
          var key :| Shared(fields, key, checks[c]);
          GroupPasses(fields, key, env);
        }
      }
      if AllChecksPass(checks, env) {
        forall k | 0 <= k < |fields| && fields[k].IsOptional() && SharesBit(fields, k)
          ensures BitAgrees(fields, k, env)
        {
          assert WellFormedField(fields[k]);
          SharedGroupSize(fields, k);
          assert OnBit(fields, |fields|, KeyOf(fields[k])) in checks;
          GroupAgrees(fields, k, env);
        }
      }
    }
  }

  ghost predicate Shared(fields: seq<FieldSpec>, key: BitKey, group: seq<FieldSpec>) {
    Named(key) && |group| >= 2 && group == OnBit(fields, |fields|, key)
  }

  ghost predicate IsShared(fields: seq<FieldSpec>, group: seq<FieldSpec>) {
    exists key :: Shared(fields, key, group)
  }

  ghost predicate BitAgrees(fields: seq<FieldSpec>, k: nat, env: Env)
    requires k < |fields|
  {
    || (forall m :: 0 <= m < |fields| && SameBit(fields[m], fields[k]) ==> Empty(fields[m], env(Self(fields[m].name))))
    || (forall m :: 0 <= m < |fields| && SameBit(fields[m], fields[k]) ==>
      NotEmpty(fields[m], env(Self(fields[m].name))))
  }

  // ----- which fields a group holds

  lemma {:induction false} OnBitHolds(fields: seq<FieldSpec>, n: nat, key: BitKey)
    requires n <= |fields|
    ensures forall f :: f in OnBit(fields, n, key) ==> KeyOf(f) == key && f in fields[..n]
    ensures forall m :: 0 <= m < n && KeyOf(fields[m]) == key ==> fields[m] in OnBit(fields, n, key)
  {
    if n > 0 {
      OnBitHolds(fields, n - 1, key);
    }
  }

  lemma {:induction false} TwoOnBit(fields: seq<FieldSpec>, n: nat, i: nat, j: nat)
    requires i < j < n <= |fields| && SameBit(fields[i], fields[j])
    ensures |OnBit(fields, n, KeyOf(fields[j]))| >= 2
  {
    if j < n - 1 {
      TwoOnBit(fields, n - 1, i, j);
    } else {
      OnBitHolds(fields, j, KeyOf(fields[j]));
      assert fields[i] in OnBit(fields, j, KeyOf(fields[j]));
    }
  }

  lemma SharedGroupSize(fields: seq<FieldSpec>, k: nat)
    requires k < |fields| && SharesBit(fields, k)
    ensures |OnBit(fields, |fields|, KeyOf(fields[k]))| >= 2
  {
    var m :| 0 <= m < |fields| && m != k && SameBit(fields[m], fields[k]);
    if m < k {
      TwoOnBit(fields, |fields|, m, k);
    } else {
      TwoOnBit(fields, |fields|, k, m);
    }
  }

  /** The last field of a group of two has another one before it. */
  lemma {:induction false} GroupIsShared(fields: seq<FieldSpec>, n: nat, key: BitKey) returns (k: nat, m: nat)
    requires n <= |fields| && |OnBit(fields, n, key)| >= 2
    ensures m < k < n && KeyOf(fields[k]) == key == KeyOf(fields[m])
  {
    if KeyOf(fields[n - 1]) == key {
      k := n - 1;
      OnBitHolds(fields, n - 1, key);
      assert OnBit(fields, n - 1, key)[0] in fields[..n - 1];
      m :| 0 <= m < n - 1 && fields[m] == OnBit(fields, n - 1, key)[0];
    } else {
      k, m := GroupIsShared(fields, n - 1, key);
    }
  }

  lemma GroupPasses(fields: seq<FieldSpec>, key: BitKey, env: Env)
    requires WellFormedFields(fields) && SharedBitsAgree(fields, env)
    requires Named(key) && |OnBit(fields, |fields|, key)| >= 2
    ensures CheckPasses(OnBit(fields, |fields|, key), env)
  {
    var k, m := GroupIsShared(fields, |fields|, key);
    assert SameBit(fields[m], fields[k]) && SharesBit(fields, k) && WellFormedField(fields[k]);
    assert BitAgrees(fields, k, env);
    forall j | 0 <= j < |OnBit(fields, |fields|, key)|
      ensures exists i ::
        0 <= i < |fields| && OnBit(fields, |fields|, key)[j] == fields[i] && SameBit(fields[i], fields[k])
    {
      var i := GroupMember(fields, |fields|, key, j);
      assert SameBit(fields[i], fields[k]);
    }
  }

  lemma {:induction false} GroupMember(fields: seq<FieldSpec>, n: nat, key: BitKey, j: nat) returns (i: nat)
    requires n <= |fields| && j < |OnBit(fields, n, key)|
    ensures i < n && OnBit(fields, n, key)[j] == fields[i] && KeyOf(fields[i]) == key
  {
    if j < |OnBit(fields, n - 1, key)| {
      i := GroupMember(fields, n - 1, key, j);
    } else {
      i := n - 1;
    }
  }

  lemma GroupAgrees(fields: seq<FieldSpec>, k: nat, env: Env)
    requires k < |fields| && CheckPasses(OnBit(fields, |fields|, KeyOf(fields[k])), env)
    ensures BitAgrees(fields, k, env)
  {
    OnBitHolds(fields, |fields|, KeyOf(fields[k]));
    forall m | 0 <= m < |fields| && SameBit(fields[m], fields[k])
      ensures fields[m] in OnBit(fields, |fields|, KeyOf(fields[k])) {
      assert KeyOf(fields[m]) == KeyOf(fields[k]);
    }
  }

  // ----- bodies

  method EmitFlagWord(fields: seq<FieldSpec>, k: nat) returns (st: Stmt)
    requires k < |fields| && fields[k].IsFlag()
    ensures PlainStmt(fields, k) == [st]
  {
    var terms := [];
    for i := 0 to |fields|
      invariant terms == PlainTerms(fields[..i], fields[k].flagNum)
    {
      assert fields[..i + 1][..i] == fields[..i];
      var g := fields[i];
      if g.IsOptional() && g.flagNum == fields[k].flagNum {
        var test := if g.IsVector() || !g.Write() then IfTruthy else IfNotNone;
        terms := terms + [FlagTerm(NO_GUARD, Self(g.name), test, g.flagBit.value)];
      }
    }
    assert fields[..|fields|] == fields;
    st := FlagWord(NO_GUARD, NumOf(fields[k]), terms);
  }

  /** How many fields are on the bit of field `k`, itself included. */
  method CountOnBit(fields: seq<FieldSpec>, k: nat) returns (n: nat)
    requires k < |fields|
    ensures n > 1 <==> SharesBit(fields, k)
  {
    n := 0;
    for i := 0 to |fields|
      invariant n >= if k < i then 1 else 0
      invariant n > (if k < i then 1 else 0) <==> exists m :: 0 <= m < i && m != k && SameBit(fields[m], fields[k])
    {
      if fields[i].flagNum == fields[k].flagNum && fields[i].flagBit == fields[k].flagBit {
        assert SameBit(fields[i], fields[k]);
        n := n + 1;
      }
    }
  }

  method EmitPut(fields: seq<FieldSpec>, k: nat) returns (st: Stmt)
    requires k < |fields| && fields[k].IsOptional() && fields[k].Write()
    ensures PlainStmt(fields, k) == [st]
  {
    var f := fields[k];
    var test := IfTruthy;
    var n := CountOnBit(fields, k);
    if n > 1 || !f.IsVector() {
      test := IfNotNone;
    }
    st := Put(NO_GUARD, Self(f.name), f.fullType, Some(test));
  }

  /** One pass over the fields emits both bodies. */
  method EmitBodies(fields: seq<FieldSpec>) returns (writing: seq<Stmt>, reading: seq<ReadStmt>)
    requires WellFormedFields(fields)
    ensures writing == PlainBody(fields) && reading == ReadCode(fields)
  {
    writing, reading := [], [];
    for k := 0 to |fields|
      invariant writing == PlainUpTo(fields, k)
      invariant reading == ReadCode(fields)[..k]
    {
      var f := fields[k];
      assert WellFormedField(f);
      assert ReadCode(fields)[..k + 1] == ReadCode(fields)[..k] + [ReadFor(f)];
      if f.IsFlag() {
        var st := EmitFlagWord(fields, k);
        writing, reading := writing + [st], reading + [ReadFlags(NumOf(f))];
        continue;
      }
      if f.IsOptional() {
        if f.Write() {
          var st := EmitPut(fields, k);
          writing, reading := writing + [st], reading + [ReadIf(f.fullType, NumOf(f), f.flagBit.value)];
        } else if f.fullType.True? {
          reading := reading + [TestBit(NumOf(f), f.flagBit.value)];
        }
        continue;
      }
      writing, reading := writing + [Put(NO_GUARD, Self(f.name), f.fullType, None)], reading + [ReadField(f.fullType)];
    }
  }
}
