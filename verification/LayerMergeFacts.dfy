/** The value-level argument behind the layer merge: what one merged list has to satisfy while the
    fields of the next version are being placed, and why the result is exact for every client layer. */
module LayerMergeFacts {
  import opened Containers
  import opened TlSchema

  function Names(fs: seq<FieldSpec>): set<string> {
    set i | 0 <= i < |fs| :: fs[i].name
  }

  /** Positions of the fields whose name is in `names`, ascending. */
  function Named(fs: seq<FieldSpec>, names: set<string>): (r: seq<nat>)
    ensures forall k :: 0 <= k < |r| ==> r[k] < |fs| && fs[r[k]].name in names
    ensures forall k, m :: 0 <= k < m < |r| ==> r[k] < r[m]
  {
    if fs == [] then []
    else
      var n := |fs| - 1;
      Named(fs[..n], names) + (if fs[n].name in names then [n] else [])
  }

  function NamedAlive(c: int, names: set<string>): Slot -> bool {
    (s: Slot) => s.hi == c && s.spec.name in names
  }

  function Pick(fs: seq<FieldSpec>, at: seq<nat>): (r: seq<FieldSpec>)
    requires forall k :: 0 <= k < |at| ==> at[k] < |fs|
    ensures |r| == |at| && forall k :: 0 <= k < |at| ==> r[k] == fs[at[k]]
  {
    seq(|at|, k requires 0 <= k < |at| => fs[at[k]])
  }

  /** Field `f` stands at the same place in both lists once names found in only one of them are dropped. */
  ghost predicate IsKept(before: seq<FieldSpec>, after: seq<FieldSpec>, f: FieldSpec) {
    var names := Names(before) * Names(after);
    var b, a := Named(before, names), Named(after, names);
    exists k :: 0 <= k < |b| && k < |a| && before[b[k]] == f && after[a[k]] == f
  }

  /** A field is one entry across two consecutive versions exactly when it is kept in place. */
  ghost predicate Shares(ss: seq<Slot>, vs: seq<Version>, i: nat)
    requires i < |vs|
  {
    forall k, s :: 1 <= k <= i && s in ss && Holds(vs[k].minLayer)(s)
      ==> (s.lo < vs[k].minLayer <==> IsKept(vs[k - 1].fields, vs[k].fields, s.spec))
  }

  /** Every interval is non-empty and starts where some version starts. */
  ghost predicate Bounded(ss: seq<Slot>, vs: seq<Version>, i: nat)
    requires i < |vs|
  {
    forall s :: s in ss ==>
      s.lo <= s.hi <= vs[i].layer && exists k :: 0 <= k <= i && s.lo == Start(vs, k)
  }

  /** The merged list after versions 0 to `i`. */
  ghost predicate Merged(ss: seq<Slot>, vs: seq<Version>, i: nat)
    requires i < |vs|
  {
    && Exact(ss, vs, i)
    && Shares(ss, vs, i)
    && Bounded(ss, vs, i)
    && Specs(Filter(ss, EndsAt(vs[i].layer))) == vs[i].fields
  }

  // ----- while version `v` is being placed

  ghost predicate Ascending(s: seq<nat>, n: nat) {
    && (forall k :: 0 <= k < |s| ==> s[k] < n)
    && (forall k, m :: 0 <= k < m < |s| ==> s[k] < s[m])
  }

  /** Slot `s` is new with `v`, or it is an earlier slot, possibly extended to `v`. */
  ghost predicate Origin(ss0: seq<Slot>, s: Slot, prev: int, v: Version) {
    || (s.lo == v.minLayer && s.hi == v.layer)
    || (exists s0 :: s0 in ss0 && s0.spec == s.spec && s0.lo == s.lo
                     && (s.hi == s0.hi || (s0.hi == prev && s.hi == v.layer)))
  }

  /** `placed` and `pend` split the positions of `v.fields`; the slots that end with `v` are the
      placed fields in order, and no client at or below layer `prev` sees a change. */
  ghost predicate Placing(ss0: seq<Slot>, ss: seq<Slot>, prev: int, v: Version, placed: seq<nat>, pend: seq<nat>) {
    && Ascending(placed, |v.fields|)
    && Ascending(pend, |v.fields|)
    && (forall j: nat :: j < |v.fields| ==> (j in placed <==> j !in pend))
    && Specs(Filter(ss, EndsAt(v.layer))) == Pick(v.fields, placed)
    && (forall l :: l <= prev ==> View(ss, l) == View(ss0, l))
    && (forall s :: s in ss ==> Origin(ss0, s, prev, v))
  }

  ghost predicate SharedNow(ss: seq<Slot>, before: seq<FieldSpec>, v: Version, pend: seq<nat>)
    requires Ascending(pend, |v.fields|)
  {
    && (forall s :: s in ss && s.hi == v.layer ==> (s.lo < v.minLayer <==> IsKept(before, v.fields, s.spec)))
    && (forall k :: 0 <= k < |pend| ==> !IsKept(before, v.fields, v.fields[pend[k]]))
  }

  function Retire(s: Slot, prev: int, v: Version): Slot {
    if s.hi == prev then s.(hi := v.minLayer - 1) else s
  }

  function Retired(ss: seq<Slot>, prev: int, v: Version): (r: seq<Slot>)
    ensures |r| == |ss|
    ensures forall i :: 0 <= i < |ss| ==> r[i] == Retire(ss[i], prev, v)
  {
    seq(|ss|, i requires 0 <= i < |ss| => Retire(ss[i], prev, v))
  }

  lemma {:induction false} AscendingIsShort(s: seq<nat>, n: nat)
    requires Ascending(s, n)
    ensures |s| <= n
    decreases |s|
  {
    if s != [] {
      var m := |s| - 1;
      AscendingIsShort(s[..m], s[m]);
    }
  }

  lemma {:induction false} AllPlaced(placed: seq<nat>, n: nat)
    requires Ascending(placed, n)
    requires forall j: nat :: j < n ==> j in placed
    ensures |placed| == n && forall k :: 0 <= k < n ==> placed[k] == k
    decreases n
  {
    if n == 0 {
      AscendingIsShort(placed, n);
    } else {
      assert n - 1 in placed;
      var m := |placed| - 1;
      var m' :| 0 <= m' < |placed| && placed[m'] == n - 1;
      assert placed[m'] <= placed[m] < n;
      forall j: nat | j < n - 1 ensures j in placed[..m] {
        assert j in placed;
        var k :| 0 <= k < |placed| && placed[k] == j;
        assert placed[..m][k] == j;
      }
      AllPlaced(placed[..m], n - 1);
    }
  }

  /** Neither neighbour of position `j` has an entry. */
  ghost predicate Lonely(placed: seq<nat>, j: nat) {
    j + 1 !in placed && (j > 0 ==> j - 1 !in placed)
  }

  /** A placed position and an unplaced one always meet somewhere. */
  lemma {:induction false} SomePendingHasPlacedNeighbour(placed: seq<nat>, pend: seq<nat>, n: nat, p: nat, q: nat)
    returns (j: nat)
    requires forall j: nat :: j < n ==> (j in placed <==> j !in pend)
    requires p < n && q < n && p in placed && q in pend
    ensures j in pend && j < n && !Lonely(placed, j)
    decreases if p < q then q - p else p - q
  {
    if p < q {
      if q - 1 in placed {
        j := q;
      } else {
        j := SomePendingHasPlacedNeighbour(placed, pend, n, p, q - 1);
      }
    } else {
      assert p != q;
      if q + 1 in placed {
        j := q;
      } else {
        j := SomePendingHasPlacedNeighbour(placed, pend, n, p, q + 1);
      }
    }
  }

  lemma InsertPicks(a: seq<Slot>, b: seq<Slot>, x: Slot, fs: seq<FieldSpec>, placed: seq<nat>, j: nat)
    requires Ascending(placed, |fs|) && j < |fs| && x.spec == fs[j]
    requires Specs(a + b) == Pick(fs, placed) && |a| <= |placed|
    ensures var placed' := Insert(placed, |a|, j);
            (forall k :: 0 <= k < |placed'| ==> placed'[k] < |fs|) && Specs(a + [x] + b) == Pick(fs, placed')
  {
    var cut := |a|;
    var placed' := Insert(placed, cut, j);
    forall k | 0 <= k < |placed'|
      ensures placed'[k] < |fs| && Specs(a + [x] + b)[k] == fs[placed'[k]]
    {
      if k < cut {
        assert Specs(a + b)[k] == fs[placed[k]];
      } else if k > cut {
        assert Specs(a + b)[k - 1] == fs[placed[k - 1]];
      }
    }
  }

  /** A slot meant for later layers only does not show at layer `l`. */
  lemma InsertUnseen(ss: seq<Slot>, at: nat, x: Slot, l: int)
    requires at <= |ss| && l < x.lo
    ensures View(Insert(ss, at, x), l) == View(ss, l)
  {
    FilterInsert(ss, at, x, Holds(l));
    FilterSplit(ss, at, Holds(l));
    assert Filter(Insert(ss, at, x), Holds(l)) == Filter(ss, Holds(l));
  }

  /** Placing position `pend[x]` at `at`, where the placed slots before `at` are `cut` many. */
  lemma InsertKeepsPlacing(ss0: seq<Slot>, ss: seq<Slot>, prev: int, v: Version, placed: seq<nat>, pend: seq<nat>,
                           x: nat, at: nat, cut: nat)
    requires Placing(ss0, ss, prev, v, placed, pend)
    requires prev < v.minLayer <= v.layer
    requires x < |pend| && at <= |ss| && cut == |Filter(ss[..at], EndsAt(v.layer))| <= |placed|
    requires cut == 0 || placed[cut - 1] < pend[x]
    requires cut == |placed| || pend[x] < placed[cut]
    ensures Placing(ss0, Insert(ss, at, Slot(v.fields[pend[x]], v.minLayer, v.layer)), prev, v,
                    Insert(placed, cut, pend[x]), Without(pend, x))
  {
    var new_ := Slot(v.fields[pend[x]], v.minLayer, v.layer);
    var ss' := Insert(ss, at, new_);
    InsertSplitsPositions(placed, pend, |v.fields|, x, cut);
    InsertShows(ss, new_, v, placed, at, cut, pend[x]);
    forall l | l <= prev ensures View(ss', l) == View(ss0, l) {
      InsertUnseen(ss, at, new_, l);
      assert View(ss, l) == View(ss0, l);
    }
    forall s | s in ss' ensures Origin(ss0, s, prev, v) {
      assert s == new_ || s in ss;
    }
  }

  lemma InsertShows(ss: seq<Slot>, new_: Slot, v: Version, placed: seq<nat>, at: nat, cut: nat, j: nat)
    requires Ascending(placed, |v.fields|) && j < |v.fields| && new_.spec == v.fields[j] && new_.hi == v.layer
    requires Specs(Filter(ss, EndsAt(v.layer))) == Pick(v.fields, placed)
    requires at <= |ss| && cut == |Filter(ss[..at], EndsAt(v.layer))| <= |placed|
    ensures Specs(Filter(Insert(ss, at, new_), EndsAt(v.layer))) == Pick(v.fields, Insert(placed, cut, j))
  {
    FilterInsert(ss, at, new_, EndsAt(v.layer));
    FilterSplit(ss, at, EndsAt(v.layer));
    InsertPicks(Filter(ss[..at], EndsAt(v.layer)), Filter(ss[at..], EndsAt(v.layer)), new_, v.fields, placed, j);
  }

  lemma InsertKeepsShared(ss: seq<Slot>, v: Version, pend: seq<nat>, before: seq<FieldSpec>, x: nat, at: nat)
    requires Ascending(pend, |v.fields|) && SharedNow(ss, before, v, pend)
    requires x < |pend| && at <= |ss|
    ensures Ascending(Without(pend, x), |v.fields|)
    ensures SharedNow(Insert(ss, at, Slot(v.fields[pend[x]], v.minLayer, v.layer)), before, v, Without(pend, x))
  {
    var new_ := Slot(v.fields[pend[x]], v.minLayer, v.layer);
    var pend' := Without(pend, x);
    forall s | s in Insert(ss, at, new_) ensures s == new_ || s in ss {
    }
    forall k | 0 <= k < |pend'| ensures pend'[k] == if k < x then pend[k] else pend[k + 1] {
    }
  }

  lemma InsertSplitsPositions(placed: seq<nat>, pend: seq<nat>, n: nat, x: nat, cut: nat)
    requires Ascending(placed, n) && Ascending(pend, n)
    requires forall j: nat :: j < n ==> (j in placed <==> j !in pend)
    requires x < |pend| && cut <= |placed|
    requires cut == 0 || placed[cut - 1] < pend[x]
    requires cut == |placed| || pend[x] < placed[cut]
    ensures Ascending(Insert(placed, cut, pend[x]), n)
    ensures Ascending(Without(pend, x), n)
    ensures forall j: nat :: j < n ==>
              (j in Insert(placed, cut, pend[x]) <==> j !in Without(pend, x))
  {
    var placed' := Insert(placed, cut, pend[x]);
    var pend' := Without(pend, x);
    forall k, m | 0 <= k < m < |placed'| ensures placed'[k] < placed'[m] {
      if m < cut {
      } else if m == cut {
        assert placed[k] <= placed[cut - 1];
      } else if k == cut {
        assert placed[cut] <= placed[m - 1];
      } else {
        var k' := if k < cut then k else k - 1;
        assert placed'[k] == placed[k'] && placed'[m] == placed[m - 1];
      }
    }
    forall j: nat | j < n ensures j in placed' <==> j !in pend' {
      assert j in placed' <==> j in placed || j == pend[x];
      assert pend == pend[..x] + [pend[x]] + pend[x + 1..];
      assert j in pend <==> j in pend' || j == pend[x];
      assert pend[x] !in pend';
    }
  }

  /** The slot that ends with `v` under name `v.fields[j].name` is placed position `j`, and tells the cut. */
  lemma PlacedAt(ss: seq<Slot>, v: Version, placed: seq<nat>, r: nat, j: nat)
    requires Ascending(placed, |v.fields|) && UniqueNames(v.fields)
    requires Specs(Filter(ss, EndsAt(v.layer))) == Pick(v.fields, placed)
    requires r < |ss| && ss[r].hi == v.layer && j < |v.fields| && ss[r].spec.name == v.fields[j].name
    ensures var cut := |Filter(ss[..r], EndsAt(v.layer))|;
            && cut < |placed| && placed[cut] == j
            && |Filter(ss[..r + 1], EndsAt(v.layer))| == cut + 1
  {
    var p := EndsAt(v.layer);
    var cut := |Filter(ss[..r], p)|;
    assert ss[..r + 1][..r] == ss[..r];
    assert ss == ss[..r + 1] + ss[r + 1..];
    FilterConcat(ss[..r + 1], ss[r + 1..], p);
    assert Filter(ss, p)[cut] == ss[r];
    assert Specs(Filter(ss, p))[cut] == Pick(v.fields, placed)[cut] == v.fields[placed[cut]];
  }

  ghost predicate NewOrOld(s: Slot, prev: int, v: Version) {
    || (s.lo == v.minLayer && s.hi == v.layer)
    || (s.lo <= prev && (s.hi == v.layer || s.hi <= prev))
  }

  lemma OriginBounds(vs: seq<Version>, i: nat, ss0: seq<Slot>, s: Slot)
    requires SortedFamily(vs) && 0 < i < |vs| && Bounded(ss0, vs, i - 1)
    requires Origin(ss0, s, vs[i - 1].layer, vs[i])
    ensures NewOrOld(s, vs[i - 1].layer, vs[i])
    ensures s.lo <= s.hi && exists k :: 0 <= k <= i && s.lo == Start(vs, k)
  {
    if s.lo == vs[i].minLayer && s.hi == vs[i].layer {
      assert s.lo == Start(vs, i);
    }
  }

  lemma StepIsBounded(vs: seq<Version>, i: nat, ss0: seq<Slot>, ss: seq<Slot>)
    requires SortedFamily(vs) && 0 < i < |vs| && Bounded(ss0, vs, i - 1)
    requires forall s :: s in ss ==> Origin(ss0, s, vs[i - 1].layer, vs[i])
    ensures Bounded(Retired(ss, vs[i - 1].layer, vs[i]), vs, i)
  {
    var ss' := Retired(ss, vs[i - 1].layer, vs[i]);
    forall s | s in ss'
      ensures s.lo <= s.hi <= vs[i].layer && exists k :: 0 <= k <= i && s.lo == Start(vs, k)
    {
      var m :| 0 <= m < |ss'| && ss'[m] == s;
      assert ss[m] in ss;
      OriginBounds(vs, i, ss0, ss[m]);
    }
  }

  /** Retiring or extending a slot changes nothing at the layers where earlier versions start. */
  lemma SlotShares(vs: seq<Version>, i: nat, ss0: seq<Slot>, s: Slot, k: nat)
    requires SortedFamily(vs) && 0 < i < |vs| && Shares(ss0, vs, i - 1)
    requires Origin(ss0, s, vs[i - 1].layer, vs[i])
    requires 1 <= k < i && s.lo <= vs[k].minLayer <= s.hi
    ensures s.lo < vs[k].minLayer <==> IsKept(vs[k - 1].fields, vs[k].fields, s.spec)
  {
    var prev, v := vs[i - 1].layer, vs[i];
    assert vs[k].minLayer <= vs[k].layer <= prev < v.minLayer;
    var s0 :| s0 in ss0 && s0.spec == s.spec && s0.lo == s.lo
              && (s.hi == s0.hi || (s0.hi == prev && s.hi == v.layer));
    assert Holds(vs[k].minLayer)(s0);
  }

  lemma RetiredShares(vs: seq<Version>, i: nat, ss0: seq<Slot>, ss: seq<Slot>, k: nat, m: nat)
    requires SortedFamily(vs) && 0 < i < |vs| && Bounded(ss0, vs, i - 1) && Shares(ss0, vs, i - 1)
    requires SharedNow(ss, vs[i - 1].fields, vs[i], [])
    requires 1 <= k <= i && m < |ss| && Origin(ss0, ss[m], vs[i - 1].layer, vs[i])
    requires Holds(vs[k].minLayer)(Retire(ss[m], vs[i - 1].layer, vs[i]))
    ensures ss[m].lo < vs[k].minLayer <==> IsKept(vs[k - 1].fields, vs[k].fields, ss[m].spec)
  {
    OriginBounds(vs, i, ss0, ss[m]);
    if k < i {
      assert vs[k].minLayer <= vs[k].layer <= vs[i - 1].layer;
      SlotShares(vs, i, ss0, ss[m], k);
    } else {
      assert ss[m] in ss && ss[m].hi == vs[i].layer;
    }
  }

  lemma StepShares(vs: seq<Version>, i: nat, ss0: seq<Slot>, ss: seq<Slot>)
    requires SortedFamily(vs) && 0 < i < |vs| && Bounded(ss0, vs, i - 1) && Shares(ss0, vs, i - 1)
    requires forall s :: s in ss ==> Origin(ss0, s, vs[i - 1].layer, vs[i])
    requires SharedNow(ss, vs[i - 1].fields, vs[i], [])
    ensures Shares(Retired(ss, vs[i - 1].layer, vs[i]), vs, i)
  {
    var ss' := Retired(ss, vs[i - 1].layer, vs[i]);
    forall k, s | 1 <= k <= i && s in ss' && Holds(vs[k].minLayer)(s)
      ensures s.lo < vs[k].minLayer <==> IsKept(vs[k - 1].fields, vs[k].fields, s.spec)
    {
      var m :| 0 <= m < |ss'| && ss'[m] == s;
      assert ss[m] in ss;
      RetiredShares(vs, i, ss0, ss, k, m);
    }
  }

  /** Once everything is placed and the leftovers are retired, the list is merged up to version `i`. */
  lemma StepIsMerged(vs: seq<Version>, i: nat, ss0: seq<Slot>, ss: seq<Slot>, placed: seq<nat>)
    requires SortedFamily(vs) && 0 < i < |vs| && Merged(ss0, vs, i - 1)
    requires Placing(ss0, ss, vs[i - 1].layer, vs[i], placed, [])
    requires SharedNow(ss, vs[i - 1].fields, vs[i], [])
    ensures Merged(Retired(ss, vs[i - 1].layer, vs[i]), vs, i)
  {
    var prev, v := vs[i - 1].layer, vs[i];
    var ss' := Retired(ss, prev, v);
    AllPlaced(placed, |v.fields|);
    assert Pick(v.fields, placed) == v.fields;
    forall s | s in ss
      ensures NewOrOld(s, prev, v)
    {
      OriginBounds(vs, i, ss0, s);
    }
    RetiredView(ss, prev, v, v.layer);
    forall m | 0 <= m < |ss| ensures EndsAt(v.layer)(ss'[m]) == Holds(v.layer)(ss'[m]) {
      assert ss[m] in ss;
    }
    FilterAgree(ss', EndsAt(v.layer), ss', Holds(v.layer));
    StepIsExact(vs, i, ss0, ss);
    StepShares(vs, i, ss0, ss);
    StepIsBounded(vs, i, ss0, ss);
  }

  lemma RetiredView(ss: seq<Slot>, prev: int, v: Version, l: int)
    requires prev < v.minLayer && l <= v.layer && forall s :: s in ss ==> NewOrOld(s, prev, v)
    ensures View(Retired(ss, prev, v), l) ==
              if l <= prev then View(ss, l)
              else if l < v.minLayer then View(ss, prev)
              else Specs(Filter(ss, EndsAt(v.layer)))
  {
    var ss' := Retired(ss, prev, v);
    var q := if l <= prev then Holds(l) else if l < v.minLayer then Holds(prev) else EndsAt(v.layer);
    forall m | 0 <= m < |ss| ensures Holds(l)(ss'[m]) == q(ss[m]) && ss'[m].spec == ss[m].spec {
      assert ss[m] in ss && ss'[m] == Retire(ss[m], prev, v);
    }
    FilterAgree(ss', Holds(l), ss, q);
  }

  lemma InForceBefore(vs: seq<Version>, i: nat, j: nat, l: int)
    requires SortedFamily(vs) && 0 < i < |vs| && j < i && InForce(vs, i, j, l)
    ensures l < vs[i].minLayer && InForce(vs, i - 1, j, if l <= vs[i - 1].layer then l else vs[i - 1].layer)
  {
    if j < i - 1 {
      assert Start(vs, j + 1) <= vs[j + 1].layer <= vs[i - 1].layer;
    }
  }

  lemma StepIsExact(vs: seq<Version>, i: nat, ss0: seq<Slot>, ss: seq<Slot>)
    requires SortedFamily(vs) && 0 < i < |vs| && Exact(ss0, vs, i - 1)
    requires forall l :: l <= vs[i - 1].layer ==> View(ss, l) == View(ss0, l)
    requires Specs(Filter(ss, EndsAt(vs[i].layer))) == vs[i].fields
    requires forall s :: s in ss ==> NewOrOld(s, vs[i - 1].layer, vs[i])
    ensures Exact(Retired(ss, vs[i - 1].layer, vs[i]), vs, i)
  {
    var prev, v := vs[i - 1].layer, vs[i];
    forall j, l | 0 <= j <= i && InForce(vs, i, j, l) ensures View(Retired(ss, prev, v), l) == vs[j].fields {
      RetiredView(ss, prev, v, l);
      if j < i {
        InForceBefore(vs, i, j, l);
        var l' := if l <= prev then l else prev;
        assert View(ss, l') == View(ss0, l') == vs[j].fields;
      } else {
        assert v.minLayer <= l;
      }
    }
  }

  // ----- fields kept in place

  /** Extending the unplaced slot at `p` to `v`, when everything placed so far stands before it. */
  lemma ExtendKeepsPlacing(ss0: seq<Slot>, ss: seq<Slot>, prev: int, v: Version, placed: seq<nat>, pend: seq<nat>,
                           p: nat, x: nat)
    requires Placing(ss0, ss, prev, v, placed, pend)
    requires prev < v.minLayer <= v.layer
    requires p < |ss| && x < |pend| && ss[p].hi == prev && ss[p].spec == v.fields[pend[x]]
    requires forall q :: p < q < |ss| ==> ss[q].hi != v.layer
    requires placed == [] || placed[|placed| - 1] < pend[x]
    ensures Placing(ss0, ss[p := ss[p].(hi := v.layer)], prev, v, placed + [pend[x]], Without(pend, x))
  {
    var ss' := ss[p := ss[p].(hi := v.layer)];
    var e := EndsAt(v.layer);
    InsertSplitsPositions(placed, pend, |v.fields|, x, |placed|);
    assert Insert(placed, |placed|, pend[x]) == placed + [pend[x]];
    assert Filter(ss', e) == Filter(ss, e) + [ss'[p]] by {
      ExtendFilters(ss, p, v.layer);
    }
    assert Specs(Filter(ss', e)) == Pick(v.fields, placed + [pend[x]]) by {
      assert Specs(Filter(ss, e)) == Pick(v.fields, placed);
    }
    forall l | l <= prev ensures View(ss', l) == View(ss0, l) {
      FilterAgree(ss', Holds(l), ss, Holds(l));
      assert View(ss, l) == View(ss0, l);
    }
    forall s | s in ss' ensures Origin(ss0, s, prev, v) {
      assert ss[p] in ss && Origin(ss0, ss[p], prev, v);
      assert s == ss'[p] || s in ss;
    }
  }

  lemma ExtendFilters(ss: seq<Slot>, p: nat, c: int)
    requires p < |ss| && ss[p].hi != c && forall q :: p < q < |ss| ==> ss[q].hi != c
    ensures var ss' := ss[p := ss[p].(hi := c)];
            Filter(ss', EndsAt(c)) == Filter(ss, EndsAt(c)) + [ss'[p]]
  {
    var ss' := ss[p := ss[p].(hi := c)];
    var e := EndsAt(c);
    assert ss == ss[..p] + ss[p..] && ss' == ss[..p] + [ss'[p]] + ss[p + 1..];
    FilterConcat(ss[..p], ss[p..], e);
    FilterConcat(ss[..p] + [ss'[p]], ss[p + 1..], e);
    FilterConcat(ss[..p], [ss'[p]], e);
    FilterNone(ss[p..], e);
    FilterNone(ss[p + 1..], e);
    assert [ss'[p]][..0] == [];
  }

  /** Dropping names from the alive fields, or taking the alive slots with those names: the same order. */
  lemma {:induction false} NamedOfAlive(ss: seq<Slot>, c: int, names: set<string>)
    ensures var before := Specs(Filter(ss, EndsAt(c)));
            var w, n := Where(ss, NamedAlive(c, names)), Named(before, names);
            |w| == |n| && forall k :: 0 <= k < |w| ==> ss[w[k]].spec == before[n[k]]
    decreases |ss|
  {
    if ss != [] {
      var m := |ss| - 1;
      NamedOfAlive(ss[..m], c, names);
      var before, before' := Specs(Filter(ss, EndsAt(c))), Specs(Filter(ss[..m], EndsAt(c)));
      if ss[m].hi == c {
        assert before == before' + [ss[m].spec];
        assert before[..|before| - 1] == before';
      } else {
        assert before == before';
      }
    }
  }

  lemma AliveNames(ss: seq<Slot>, c: int)
    ensures Names(Specs(Filter(ss, EndsAt(c)))) == set s | s in ss && s.hi == c :: s.spec.name
  {
    var fs := Specs(Filter(ss, EndsAt(c)));
    var w := Where(ss, EndsAt(c));
    FilterWhere(ss, EndsAt(c));
    forall s | s in ss && s.hi == c ensures s.spec.name in Names(fs) {
      var i :| 0 <= i < |ss| && ss[i] == s;
      assert EndsAt(c)(ss[i]) && i in w;
      var k :| 0 <= k < |w| && w[k] == i;
      assert fs[k] == s.spec;
    }
    forall n | n in Names(fs) ensures exists s :: s in ss && s.hi == c && s.spec.name == n {
      var k :| 0 <= k < |fs| && fs[k].name == n;
      assert EndsAt(c)(ss[w[k]]);
      assert ss[w[k]] in ss;
    }
  }

  /** After the kept fields have been extended, nothing left to place is a kept field. */
  lemma KeptAreShared(ss0: seq<Slot>, ss: seq<Slot>, prev: int, v: Version, placed: seq<nat>, pend: seq<nat>,
                      before: seq<FieldSpec>)
    requires Placing(ss0, ss, prev, v, placed, pend) && UniqueNames(v.fields)
    requires forall s :: s in ss ==> s.lo < v.minLayer
    requires forall j: nat :: j < |v.fields| ==> (j in placed <==> IsKept(before, v.fields, v.fields[j]))
    ensures SharedNow(ss, before, v, pend)
  {
    forall s | s in ss && s.hi == v.layer ensures IsKept(before, v.fields, s.spec) {
      var i :| 0 <= i < |ss| && ss[i] == s;
      FilterWhere(ss, EndsAt(v.layer));
      var w := Where(ss, EndsAt(v.layer));
      assert EndsAt(v.layer)(ss[i]) && i in w;
      var k :| 0 <= k < |w| && w[k] == i;
      assert Specs(Filter(ss, EndsAt(v.layer)))[k] == Pick(v.fields, placed)[k];
      assert placed[k] in placed;
    }
    forall k | 0 <= k < |pend| ensures !IsKept(before, v.fields, v.fields[pend[k]]) {
      assert pend[k] in pend;
    }
  }

  lemma {:induction false} FilterAll(a: seq<Slot>, p: Slot -> bool)
    requires forall i :: 0 <= i < |a| ==> p(a[i])
    ensures Filter(a, p) == a
    decreases |a|
  {
    if a != [] {
      FilterAll(a[..|a| - 1], p);
    }
  }

  /** The oldest version alone. */
  lemma OldestIsMerged(vs: seq<Version>, ss: seq<Slot>)
    requires SortedFamily(vs)
    requires |ss| == |vs[0].fields|
    requires forall k :: 0 <= k < |ss| ==> ss[k] == Slot(vs[0].fields[k], vs[0].layer, vs[0].layer)
    ensures Merged(ss, vs, 0)
  {
    FilterAll(ss, EndsAt(vs[0].layer));
    assert Specs(ss) == vs[0].fields;
    forall j, l | 0 <= j <= 0 && InForce(vs, 0, j, l) ensures View(ss, l) == vs[j].fields {
      FilterAll(ss, Holds(l));
    }
    assert Bounded(ss, vs, 0) by {
      forall s | s in ss ensures s.lo == s.hi == vs[0].layer == Start(vs, 0) {
        var k :| 0 <= k < |ss| && ss[k] == s;
      }
    }
  }

  // ----- fields that need an entry of their own

  /** What is known while version `v` is being placed over `ss0`: `before` are the fields of the version
      before it, which ends at layer `prev`; `placed` are the positions that have an entry. */
  datatype Placement = Placement(ss0: seq<Slot>, before: seq<FieldSpec>, prev: int, v: Version, placed: seq<nat>)

  ghost predicate Consistent(p: Placement, ss: seq<Slot>, pend: seq<nat>) {
    match p
    case Placement(ss0, before, prev, v, placed) =>
      && prev < v.minLayer <= v.layer
      && UniqueNames(v.fields)
      && Placing(ss0, ss, prev, v, placed, pend)
      && SharedNow(ss, before, v, pend)
  }

  /** Position `j` belongs between the placed fields before and after `at`. */
  ghost predicate Fits(p: Placement, ss: seq<Slot>, j: nat, at: nat) {
    match p
    case Placement(_, _, _, v, placed) =>
      && at <= |ss|
      && var cut := |Filter(ss[..at], EndsAt(v.layer))|;
         && cut <= |placed|
         && (cut == 0 || placed[cut - 1] < j)
         && (cut == |placed| || j < placed[cut])
  }

  ghost function Put(p: Placement, ss: seq<Slot>, j: nat, at: nat): Placement
    requires Fits(p, ss, j, at)
  {
    var cut := |Filter(ss[..at], EndsAt(p.v.layer))|;
    p.(placed := Insert(p.placed, cut, j))
  }

  lemma InsertConsistent(p: Placement, ss: seq<Slot>, pend: seq<nat>, x: nat, at: nat)
    requires Consistent(p, ss, pend) && x < |pend| && Fits(p, ss, pend[x], at)
    ensures pend[x] < |p.v.fields|
    ensures Consistent(Put(p, ss, pend[x], at), Insert(ss, at, Slot(p.v.fields[pend[x]], p.v.minLayer, p.v.layer)),
                       Without(pend, x))
  {
    var cut := |Filter(ss[..at], EndsAt(p.v.layer))|;
    InsertKeepsPlacing(p.ss0, ss, p.prev, p.v, p.placed, pend, x, at, cut);
    InsertKeepsShared(ss, p.v, pend, p.before, x, at);
  }

  lemma OnlyFieldFits(p: Placement, ss: seq<Slot>, pend: seq<nat>)
    requires Consistent(p, ss, pend) && pend != [] && |p.v.fields| == 1
    ensures |pend| == 1 && pend[0] == 0 && Fits(p, ss, 0, |ss|)
  {
    AscendingIsShort(pend, 1);
    AscendingIsShort(p.placed, 1);
    LastIsIn(pend);
    if |p.placed| == 1 {
      LastIsIn(p.placed);
      assert false;
    }
    AppendFits(p, ss, pend, 0);
  }

  lemma LastIsIn(s: seq<nat>)
    requires s != []
    ensures s[|s| - 1] in s
  {
  }

  lemma AppendFits(p: Placement, ss: seq<Slot>, pend: seq<nat>, j: nat)
    requires Consistent(p, ss, pend) && forall m :: 0 <= m < |p.placed| ==> p.placed[m] < j
    ensures Fits(p, ss, j, |ss|) && Put(p, ss, j, |ss|).placed == p.placed + [j]
  {
    assert ss[..|ss|] == ss;
    assert |Filter(ss, EndsAt(p.v.layer))| == |Specs(Filter(ss, EndsAt(p.v.layer)))|;
  }

  lemma AfterLeftFits(p: Placement, ss: seq<Slot>, pend: seq<nat>, r: nat, j: nat)
    requires Consistent(p, ss, pend) && j in pend && 0 < j < |p.v.fields|
    requires r < |ss| && ss[r].hi == p.v.layer && ss[r].spec.name == p.v.fields[j - 1].name
    ensures Fits(p, ss, j, r + 1)
  {
    PlacedAt(ss, p.v, p.placed, r, j - 1);
    var cut := |Filter(ss[..r + 1], EndsAt(p.v.layer))|;
    if cut < |p.placed| {
      assert p.placed[cut - 1] < p.placed[cut] && p.placed[cut] in p.placed;
    }
  }

  lemma BeforeRightFits(p: Placement, ss: seq<Slot>, pend: seq<nat>, at: nat, r: nat, j: nat)
    requires Consistent(p, ss, pend) && j in pend && j + 1 < |p.v.fields|
    requires at <= r < |ss| && ss[r].hi == p.v.layer && ss[r].spec.name == p.v.fields[j + 1].name
    requires forall k :: at <= k < r ==> ss[k].hi != p.v.layer
    ensures Fits(p, ss, j, at)
  {
    PlacedAt(ss, p.v, p.placed, r, j + 1);
    assert ss[..r] == ss[..at] + ss[at..r];
    FilterConcat(ss[..at], ss[at..r], EndsAt(p.v.layer));
    FilterNone(ss[at..r], EndsAt(p.v.layer));
    var cut := |Filter(ss[..at], EndsAt(p.v.layer))|;
    if cut > 0 {
      assert p.placed[cut - 1] < p.placed[cut] && p.placed[cut - 1] in p.placed;
    }
  }

  lemma PlacedHasSlot(p: Placement, ss: seq<Slot>, pend: seq<nat>, j: nat)
    requires Consistent(p, ss, pend) && j in p.placed
    ensures j < |p.v.fields|
    ensures exists r :: 0 <= r < |ss| && ss[r].hi == p.v.layer && ss[r].spec.name == p.v.fields[j].name
  {
    var k :| 0 <= k < |p.placed| && p.placed[k] == j;
    FilterWhere(ss, EndsAt(p.v.layer));
    var w := Where(ss, EndsAt(p.v.layer));
    assert Specs(Filter(ss, EndsAt(p.v.layer)))[k] == Pick(p.v.fields, p.placed)[k];
    assert ss[w[k]].hi == p.v.layer && ss[w[k]].spec.name == p.v.fields[j].name;
  }

  /** A pending position has no slot that ends with `v`. */
  lemma PendingHasNoSlot(p: Placement, ss: seq<Slot>, pend: seq<nat>, j: nat, r: nat)
    requires Consistent(p, ss, pend) && j in pend && j < |p.v.fields|
    requires r < |ss| && ss[r].spec.name == p.v.fields[j].name
    ensures ss[r].hi != p.v.layer
  {
    if ss[r].hi == p.v.layer {
      PlacedAt(ss, p.v, p.placed, r, j);
      assert false;
    }
  }

  /** A pass that places nothing means that nothing is placed yet. */
  lemma StuckMeansEmpty(p: Placement, ss: seq<Slot>, pend: seq<nat>)
    requires Consistent(p, ss, pend) && pend != []
    requires forall j {:trigger Lonely(p.placed, j)} :: j in pend ==> Lonely(p.placed, j)
    ensures p.placed == [] && |pend| == |p.v.fields|
    ensures forall k :: 0 <= k < |pend| ==> pend[k] == k
  {
    if p.placed != [] {
      LastIsIn(p.placed);
      LastIsIn(pend);
      var j := SomePendingHasPlacedNeighbour(p.placed, pend, |p.v.fields|, p.placed[|p.placed| - 1], pend[|pend| - 1]);
      assert false;
    }
    AllPlaced(pend, |p.v.fields|);
  }
}
