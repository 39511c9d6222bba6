/** The merge itself, over mutable entries: every historical field list of a constructor becomes one
    list of entries, each with the layers it is meant for. Where the generator raises, the method
    states that the branch cannot be reached. */
module LayerMerge {
  import opened Containers
  import opened TlSchema
  import opened LayerMergeFacts

  class Field {
    const spec: FieldSpec
    const minLayer: int
    var maxLayer: int

    constructor (spec: FieldSpec, minLayer: int, maxLayer: int)
      ensures this.spec == spec && this.minLayer == minLayer && this.maxLayer == maxLayer
    {
      this.spec, this.minLayer, this.maxLayer := spec, minLayer, maxLayer;
    }
  }

  ghost function Slots(fs: seq<Field>): (r: seq<Slot>)
    reads fs
    ensures |r| == |fs|
    ensures forall i :: 0 <= i < |fs| ==> r[i] == Slot(fs[i].spec, fs[i].minLayer, fs[i].maxLayer)
  {
    seq(|fs|, i requires 0 <= i < |fs| reads fs => Slot(fs[i].spec, fs[i].minLayer, fs[i].maxLayer))
  }

  /** `fs` lists the entries of `all` that end with layer `c`, in some order. */
  ghost predicate AliveList(fs: seq<Field>, all: seq<Field>, c: int)
    reads all
  {
    && (forall f :: f in fs ==> f in all && f.maxLayer == c)
    && (forall f :: f in all && f.maxLayer == c ==> f in fs)
  }

  /** The list keeps its entries and gains only new ones that end with layer `c`. */
  twostate predicate Grows(all: seq<Field>, new all': seq<Field>, c: int)
    reads all'
  {
    && (forall f :: f in all ==> f in all')
    && (forall f :: f in all' ==> f in all || (fresh(f) && f.maxLayer == c))
  }

  /** Where an entry was found, and the position left of the run of equal names ending there. */
  datatype Found = Found(field: Field, rightIdx: nat, leftIdx: int)

  predicate Matches(f: Field, name: string, layer: Option<int>)
    reads f
  {
    f.spec.name == name && (layer.Some? ==> f.maxLayer == layer.value)
  }

  /** The first match, and the run of entries with its name that ends there. */
  ghost predicate FoundAt(fields: seq<Field>, name: string, layer: Option<int>, found: Found)
    reads fields
  {
    match found
    case Found(field, rightIdx, leftIdx) =>
      && rightIdx < |fields|
      && field == fields[rightIdx]
      && Matches(field, name, layer)
      && (forall k :: 0 <= k < rightIdx ==> !Matches(fields[k], name, layer))
      && -1 <= leftIdx < rightIdx
      && (forall k :: leftIdx < k <= rightIdx ==> fields[k].spec.name == name)
      && (leftIdx >= 0 ==> fields[leftIdx].spec.name != name)
  }

  method FindFieldInFieldsMaybe(fields: seq<Field>, name: Option<string>, layer: Option<int>) returns (r: Option<Found>)
    ensures name.None? ==> r.None?
    ensures r.None? && name.Some? ==> forall k :: 0 <= k < |fields| ==> !Matches(fields[k], name.value, layer)
    ensures r.Some? ==> name.Some? && FoundAt(fields, name.value, layer, r.value)
  {
    if name.None? {
      return None;
    }
    for rightIdx := 0 to |fields|
      invariant forall k :: 0 <= k < rightIdx ==> !Matches(fields[k], name.value, layer)
    {
      if Matches(fields[rightIdx], name.value, layer) {
        var leftIdx := rightIdx;
        while leftIdx >= 0 && fields[leftIdx].spec.name == name.value
          invariant -1 <= leftIdx <= rightIdx
          invariant forall k :: leftIdx < k <= rightIdx ==> fields[k].spec.name == name.value
        {
          leftIdx := leftIdx - 1;
        }
        return Some(Found(fields[rightIdx], rightIdx, leftIdx));
      }
    }
    return None;
  }

  /** A field of the new version that has no entry yet, with the names beside it. */
  datatype Pending = Pending(left: Option<string>, at: nat, right: Option<string>)

  function NameAt(fs: seq<FieldSpec>, i: int): Option<string> {
    if 0 <= i < |fs| then Some(fs[i].name) else None
  }

  ghost predicate Describes(added: seq<Pending>, fs: seq<FieldSpec>) {
    forall k :: 0 <= k < |added| ==>
      && added[k].at < |fs|
      && added[k].left == NameAt(fs, added[k].at - 1)
      && added[k].right == NameAt(fs, added[k].at + 1)
  }

  ghost function Ats(added: seq<Pending>): (r: seq<nat>)
    ensures |r| == |added| && forall k :: 0 <= k < |r| ==> r[k] == added[k].at
  {
    seq(|added|, k requires 0 <= k < |added| => added[k].at)
  }

  method ListAdded(fs: seq<FieldSpec>) returns (added: seq<Pending>)
    ensures Describes(added, fs) && |added| == |fs|
    ensures forall k :: 0 <= k < |fs| ==> added[k].at == k
  {
    added := [];
    for idx := 0 to |fs|
      invariant Describes(added, fs) && |added| == idx
      invariant forall k :: 0 <= k < idx ==> added[k].at == k
    {
      added := added + [Pending(NameAt(fs, idx - 1), idx, NameAt(fs, idx + 1))];
    }
  }

  /** The alive entries with a common name, in list order. */
  function ExistingOrder(all: seq<Field>, prev: int, names: set<string>): seq<Field>
    reads all
  {
    if all == [] then []
    else
      var n := |all| - 1;
      ExistingOrder(all[..n], prev, names)
      + (if all[n].maxLayer == prev && all[n].spec.name in names then [all[n]] else [])
  }

  lemma {:induction false} ExistingWhere(all: seq<Field>, prev: int, names: set<string>)
    ensures var r, w := ExistingOrder(all, prev, names), Where(Slots(all), NamedAlive(prev, names));
            |r| == |w| && forall k :: 0 <= k < |r| ==> r[k] == all[w[k]]
  {
    if all != [] {
      var n := |all| - 1;
      assert Slots(all)[..n] == Slots(all[..n]);
      ExistingWhere(all[..n], prev, names);
    }
  }

  lemma CommonNames(all: seq<Field>, prev: int)
    ensures (set f | f in all && f.maxLayer == prev :: f.spec.name) == Names(Specs(Filter(Slots(all), EndsAt(prev))))
  {
    var ss := Slots(all);
    AliveNames(ss, prev);
    forall f | f in all && f.maxLayer == prev
      ensures f.spec.name in set s | s in ss && s.hi == prev :: s.spec.name
    {
      var i :| 0 <= i < |all| && all[i] == f;
      assert ss[i] in ss;
    }
    forall s | s in ss && s.hi == prev
      ensures s.spec.name in set f | f in all && f.maxLayer == prev :: f.spec.name
    {
      var i :| 0 <= i < |ss| && ss[i] == s;
      assert all[i] in all;
    }
  }

  /** `w` and `as_` list the alive slots and the new fields that share a name, in order. */
  ghost predicate CommonOrders(ss0: seq<Slot>, prev: int, v: Version, w: seq<nat>, as_: seq<nat>) {
    var before := Specs(Filter(ss0, EndsAt(prev)));
    var names := Names(before) * Names(v.fields);
    var bs := Named(before, names);
    && Ascending(w, |ss0|) && as_ == Named(v.fields, names)
    && |w| == |bs|
    && (forall k :: 0 <= k < |w| ==> ss0[w[k]].hi == prev && ss0[w[k]].spec == before[bs[k]])
  }

  method ListCommon(all: seq<Field>, prev: int, v: Version)
    returns (existing: seq<Field>, new_: seq<nat>, ghost w: seq<nat>)
    ensures CommonOrders(Slots(all), prev, v, w, new_)
    ensures |existing| == |w| && forall k :: 0 <= k < |w| ==> w[k] < |all| && existing[k] == all[w[k]]
  {
    var names := (set f | f in all && f.maxLayer == prev :: f.spec.name) * Names(v.fields);
    CommonNames(all, prev);
    existing := ExistingOrder(all, prev, names);
    ExistingWhere(all, prev, names);
    new_ := Named(v.fields, names);
    w := Where(Slots(all), NamedAlive(prev, names));
    NamedOfAlive(Slots(all), prev, names);
  }

  /** The first `k` pairs of the common orders have been compared. */
  ghost predicate Keeping(ss0: seq<Slot>, ss: seq<Slot>, prev: int, v: Version, placed: seq<nat>,
                          w: seq<nat>, as_: seq<nat>, k: nat)
    requires Ascending(w, |ss0|) && Ascending(as_, |v.fields|) && k <= |w| && k <= |as_|
  {
    && |ss| == |ss0|
    && (forall i :: 0 <= i < |ss| ==>
          ss[i] == ss0[i] || (ss0[i].hi == prev && ss[i] == ss0[i].(hi := v.layer)))
    && (forall i :: 0 <= i < |ss| && ss[i].hi == v.layer ==> k > 0 && i <= w[k - 1])
    && (forall m :: 0 <= m < |placed| ==> k > 0 && placed[m] <= as_[k - 1])
    && (forall j: nat :: j in placed <==> exists m :: 0 <= m < k && as_[m] == j && ss0[w[m]].spec == v.fields[j])
  }

  lemma KeepingNext(ss0: seq<Slot>, ss: seq<Slot>, prev: int, v: Version, placed: seq<nat>,
                    w: seq<nat>, as_: seq<nat>, k: nat)
    requires prev < v.layer && forall s :: s in ss0 ==> s.hi <= prev
    requires Ascending(w, |ss0|) && Ascending(as_, |v.fields|) && k < |w| && k < |as_|
    requires Keeping(ss0, ss, prev, v, placed, w, as_, k) && ss0[w[k]].hi == prev
    ensures ss[w[k]] == ss0[w[k]] && as_[k] !in placed
    ensures forall q :: w[k] < q < |ss| ==> ss[q].hi != v.layer
    ensures placed == [] || placed[|placed| - 1] < as_[k]
    ensures ss0[w[k]].spec != v.fields[as_[k]] ==> Keeping(ss0, ss, prev, v, placed, w, as_, k + 1)
    ensures ss0[w[k]].spec == v.fields[as_[k]] ==>
              Keeping(ss0, ss[w[k] := ss[w[k]].(hi := v.layer)], prev, v, placed + [as_[k]], w, as_, k + 1)
  {
    assert k > 0 ==> w[k - 1] < w[k] && as_[k - 1] < as_[k];
    assert ss0[w[k]] in ss0;
    if ss0[w[k]].spec == v.fields[as_[k]] {
      var placed' := placed + [as_[k]];
      forall j: nat
        ensures j in placed' <==> exists m :: 0 <= m < k + 1 && as_[m] == j && ss0[w[m]].spec == v.fields[j]
      {
        if j == as_[k] {
          assert as_[k] == j;
        }
      }
    }
  }

  lemma KeepingDone(ss0: seq<Slot>, ss: seq<Slot>, prev: int, v: Version, placed: seq<nat>, pend: seq<nat>,
                    w: seq<nat>, as_: seq<nat>, k: nat)
    requires prev < v.minLayer <= v.layer && UniqueNames(v.fields) && forall s :: s in ss0 ==> s.lo <= prev
    requires CommonOrders(ss0, prev, v, w, as_)
    requires k <= |w| && k <= |as_| && (k == |w| || k == |as_|)
    requires Keeping(ss0, ss, prev, v, placed, w, as_, k) && Placing(ss0, ss, prev, v, placed, pend)
    ensures SharedNow(ss, Specs(Filter(ss0, EndsAt(prev))), v, pend)
  {
    var before := Specs(Filter(ss0, EndsAt(prev)));
    forall j: nat | j < |v.fields| ensures j in placed <==> IsKept(before, v.fields, v.fields[j]) {
      PlacedIsKept(ss0, ss, prev, v, placed, w, as_, k, j);
    }
    forall s | s in ss ensures s.lo < v.minLayer {
      var i :| 0 <= i < |ss| && ss[i] == s;
      assert ss0[i] in ss0;
    }
    KeptAreShared(ss0, ss, prev, v, placed, pend, before);
  }

  lemma PlacedIsKept(ss0: seq<Slot>, ss: seq<Slot>, prev: int, v: Version, placed: seq<nat>,
                     w: seq<nat>, as_: seq<nat>, k: nat, j: nat)
    requires UniqueNames(v.fields) && j < |v.fields|
    requires CommonOrders(ss0, prev, v, w, as_)
    requires k <= |w| && k <= |as_| && (k == |w| || k == |as_|)
    requires Keeping(ss0, ss, prev, v, placed, w, as_, k)
    ensures j in placed <==> IsKept(Specs(Filter(ss0, EndsAt(prev))), v.fields, v.fields[j])
  {
    if j in placed {
      var m :| 0 <= m < k && as_[m] == j && ss0[w[m]].spec == v.fields[j];
      PairIsKept(ss0, prev, v, w, as_, m);
    }
    if IsKept(Specs(Filter(ss0, EndsAt(prev))), v.fields, v.fields[j]) {
      var m := KeptIsPair(ss0, prev, v, w, as_, j);
      assert m < k;
    }
  }

  lemma PairIsKept(ss0: seq<Slot>, prev: int, v: Version, w: seq<nat>, as_: seq<nat>, m: nat)
    requires CommonOrders(ss0, prev, v, w, as_)
    requires m < |w| && m < |as_| && ss0[w[m]].spec == v.fields[as_[m]]
    ensures IsKept(Specs(Filter(ss0, EndsAt(prev))), v.fields, v.fields[as_[m]])
  {
    var before := Specs(Filter(ss0, EndsAt(prev)));
    var bs := Named(before, Names(before) * Names(v.fields));
    assert before[bs[m]] == v.fields[as_[m]];
  }

  lemma KeptIsPair(ss0: seq<Slot>, prev: int, v: Version, w: seq<nat>, as_: seq<nat>, j: nat) returns (m: nat)
    requires UniqueNames(v.fields) && j < |v.fields| && CommonOrders(ss0, prev, v, w, as_)
    requires IsKept(Specs(Filter(ss0, EndsAt(prev))), v.fields, v.fields[j])
    ensures m < |w| && m < |as_| && as_[m] == j && ss0[w[m]].spec == v.fields[j]
  {
    var before := Specs(Filter(ss0, EndsAt(prev)));
    var bs := Named(before, Names(before) * Names(v.fields));
    m :| 0 <= m < |bs| && m < |as_| && before[bs[m]] == v.fields[j] && v.fields[as_[m]] == v.fields[j];
  }

  /** The fields that stayed in place get extended to the new version and need no entry of their own. */
  method KeepUnchanged(all: seq<Field>, prev: int, v: Version, added0: seq<Pending>)
    returns (kept: seq<Field>, added: seq<Pending>, ghost placed: seq<nat>)
    requires Distinct(all) && prev < v.minLayer <= v.layer && UniqueNames(v.fields)
    requires forall s :: s in Slots(all) ==> s.lo <= prev && s.hi <= prev
    requires Describes(added0, v.fields) && |added0| == |v.fields|
    requires forall k :: 0 <= k < |added0| ==> added0[k].at == k
    modifies all
    ensures Placing(old(Slots(all)), Slots(all), prev, v, placed, Ats(added)) && Describes(added, v.fields)
    ensures SharedNow(Slots(all), old(Specs(Filter(Slots(all), EndsAt(prev)))), v, Ats(added))
    ensures AliveList(kept, all, v.layer)
    ensures forall f :: f in all ==> f.maxLayer == old(f.maxLayer) || f.maxLayer == v.layer
  {
    ghost var ss0 := Slots(all);
    var existing, new_, w := ListCommon(all, prev, v);
    StartPlacing(ss0, prev, v, Ats(added0));
    KeptStart(all, prev, v, added0, w, new_);
    ghost var n: nat;
    kept, added, placed, n := KeepInStep(all, prev, v, added0, existing, new_, w);
    KeepingDone(ss0, Slots(all), prev, v, placed, Ats(added), w, new_, n);
    forall f | f in all ensures f.maxLayer == old(f.maxLayer) || f.maxLayer == v.layer {
      var i :| 0 <= i < |all| && all[i] == f;
      assert Slots(all)[i] == ss0[i] || Slots(all)[i] == ss0[i].(hi := v.layer);
    }
  }

  ghost predicate KeptState(ss0: seq<Slot>, all: seq<Field>, prev: int, v: Version, kept: seq<Field>,
                            added: seq<Pending>, placed: seq<nat>, w: seq<nat>, as_: seq<nat>, k: nat)
    reads all
  {
    && Ascending(w, |ss0|) && Ascending(as_, |v.fields|) && k <= |w| && k <= |as_|
    && Placing(ss0, Slots(all), prev, v, placed, Ats(added))
    && Describes(added, v.fields)
    && Keeping(ss0, Slots(all), prev, v, placed, w, as_, k)
    && AliveList(kept, all, v.layer)
  }

  lemma KeptStart(all: seq<Field>, prev: int, v: Version, added0: seq<Pending>, w: seq<nat>, as_: seq<nat>)
    requires prev < v.layer && forall s :: s in Slots(all) ==> s.hi <= prev
    requires Ascending(w, |all|) && Ascending(as_, |v.fields|)
    requires Placing(Slots(all), Slots(all), prev, v, [], Ats(added0)) && Describes(added0, v.fields)
    ensures KeptState(Slots(all), all, prev, v, [], added0, [], w, as_, 0)
  {
    forall i | 0 <= i < |all| ensures all[i].maxLayer != v.layer {
      assert Slots(all)[i] in Slots(all);
    }
  }

  /** Walking the two orders of common fields side by side. */
  method KeepInStep(all: seq<Field>, ghost prev: int, v: Version, added0: seq<Pending>,
                    existing: seq<Field>, new_: seq<nat>, ghost w: seq<nat>)
    returns (kept: seq<Field>, added: seq<Pending>, ghost placed: seq<nat>, ghost n: nat)
    requires Distinct(all) && prev < v.minLayer <= v.layer
    requires forall s :: s in Slots(all) ==> s.hi <= prev
    requires |existing| == |w|
    requires forall k :: 0 <= k < |w| ==> w[k] < |all| && existing[k] == all[w[k]] && all[w[k]].maxLayer == prev
    requires KeptState(Slots(all), all, prev, v, [], added0, [], w, new_, 0)
    modifies all
    ensures n <= |w| && n <= |new_| && (n == |w| || n == |new_|)
    ensures KeptState(old(Slots(all)), all, prev, v, kept, added, placed, w, new_, n)
  {
    ghost var ss0 := Slots(all);
    kept, added, placed := [], added0, [];
    var len := if |existing| < |new_| then |existing| else |new_|;
    for k := 0 to len
      invariant KeptState(ss0, all, prev, v, kept, added, placed, w, new_, k)
    {
      kept, added, placed := KeepPair(all, prev, v, kept, added, existing[k], new_, w, ss0, placed, k);
    }
    n := len;
  }

  method KeepPair(all: seq<Field>, ghost prev: int, v: Version, kept0: seq<Field>, added0: seq<Pending>,
                  oldField: Field, new_: seq<nat>, ghost w: seq<nat>, ghost ss0: seq<Slot>,
                  ghost placed0: seq<nat>, k: nat)
    returns (kept: seq<Field>, added: seq<Pending>, ghost placed: seq<nat>)
    requires Distinct(all) && prev < v.minLayer <= v.layer && |ss0| == |all|
    requires forall s :: s in ss0 ==> s.hi <= prev
    requires k < |w| && k < |new_| && w[k] < |all| && oldField == all[w[k]] && ss0[w[k]].hi == prev
    requires KeptState(ss0, all, prev, v, kept0, added0, placed0, w, new_, k)
    modifies all
    ensures KeptState(ss0, all, prev, v, kept, added, placed, w, new_, k + 1)
  {
    KeepingNext(ss0, Slots(all), prev, v, placed0, w, new_, k);
    kept, added, placed := kept0, added0, placed0;
    if oldField.spec == v.fields[new_[k]] {
      kept, added := KeepOne(all, kept, added, oldField, w[k], new_[k], v, prev, ss0, placed);
      placed := placed + [new_[k]];
    }
  }

  method KeepOne(all: seq<Field>, kept0: seq<Field>, added0: seq<Pending>, oldField: Field, ghost p: nat, j: nat,
                 v: Version, ghost prev: int, ghost ss0: seq<Slot>, ghost placed: seq<nat>)
    returns (kept: seq<Field>, added: seq<Pending>)
    requires Distinct(all) && prev < v.minLayer <= v.layer && j < |v.fields| && j !in placed
    requires p < |all| && all[p] == oldField && oldField.maxLayer == prev && oldField.spec == v.fields[j]
    requires Placing(ss0, Slots(all), prev, v, placed, Ats(added0)) && Describes(added0, v.fields)
    requires forall q :: p < q < |all| ==> Slots(all)[q].hi != v.layer
    requires placed == [] || placed[|placed| - 1] < j
    requires AliveList(kept0, all, v.layer)
    modifies oldField
    ensures Slots(all) == old(Slots(all))[p := old(Slots(all))[p].(hi := v.layer)]
    ensures Placing(ss0, Slots(all), prev, v, placed + [j], Ats(added)) && Describes(added, v.fields)
    ensures AliveList(kept, all, v.layer)
  {
    ghost var ss := Slots(all);
    assert j in Ats(added0);
    var x := FindPending(added0, j);
    kept := kept0 + [oldField];
    oldField.maxLayer := v.layer;
    assert Slots(all) == ss[p := ss[p].(hi := v.layer)];
    ExtendKeepsPlacing(ss0, ss, prev, v, placed, Ats(added0), p, x);
    added := Without(added0, x);
    WithoutPending(added0, x, v.fields);
  }

  lemma StartPlacing(ss0: seq<Slot>, prev: int, v: Version, all: seq<nat>)
    requires prev < v.minLayer <= v.layer && forall s :: s in ss0 ==> s.hi <= prev
    requires |all| == |v.fields| && forall k :: 0 <= k < |all| ==> all[k] == k
    ensures Placing(ss0, ss0, prev, v, [], all)
  {
    forall i | 0 <= i < |ss0| ensures !EndsAt(v.layer)(ss0[i]) {
      assert ss0[i] in ss0;
    }
    FilterNone(ss0, EndsAt(v.layer));
    forall j: nat | j < |v.fields| ensures j in all {
      assert all[j] == j;
    }
  }

  method FindPending(added: seq<Pending>, j: nat) returns (x: nat)
    requires exists k :: 0 <= k < |added| && added[k].at == j
    ensures x < |added| && added[x].at == j && forall k :: 0 <= k < x ==> added[k].at != j
  {
    for idx := 0 to |added|
      invariant forall k :: 0 <= k < idx ==> added[k].at != j
    {
      if added[idx].at == j {
        return idx;
      }
    }
    assert false;
  }

  // ----- fields that need an entry of their own

  ghost predicate PlaceState(p: Placement, all: seq<Field>, this_: seq<Field>, added: seq<Pending>)
    reads all
  {
    match p
    case Placement(_, _, _, v, _) =>
      && Consistent(p, Slots(all), Ats(added))
      && Describes(added, v.fields)
      && Distinct(all)
      && AliveList(this_, all, v.layer)
  }

  method AddEntry(all: seq<Field>, at: nat, spec: FieldSpec, lo: int, hi: int) returns (f: Field, all': seq<Field>)
    requires Distinct(all) && at <= |all|
    ensures fresh(f) && f.spec == spec && f.maxLayer == hi
    ensures all' == Insert(all, at, f) && Distinct(all')
    ensures Slots(all') == Insert(Slots(all), at, Slot(spec, lo, hi))
  {
    f := new Field(spec, lo, hi);
    all' := Insert(all, at, f);
  }

  lemma WithoutPending(added: seq<Pending>, idx: nat, fs: seq<FieldSpec>)
    requires Describes(added, fs) && idx < |added|
    ensures Describes(Without(added, idx), fs) && Ats(Without(added, idx)) == Without(Ats(added), idx)
  {
  }

  lemma AliveInsert(this_: seq<Field>, all: seq<Field>, at: nat, f: Field, c: int)
    requires AliveList(this_, all, c) && at <= |all| && f.maxLayer == c
    ensures AliveList(this_ + [f], Insert(all, at, f), c)
    ensures forall g :: g in Insert(all, at, f) ==> g == f || g in all
  {
    assert f in Insert(all, at, f);
    forall g | g in all ensures g in Insert(all, at, f) {
      assert all == all[..at] + all[at..];
    }
  }

  method InsertField(ghost p: Placement, v: Version, all: seq<Field>, this_: seq<Field>, added: seq<Pending>,
                     idx: nat, at: nat)
    returns (ghost p': Placement, all': seq<Field>, this': seq<Field>, added': seq<Pending>)
    requires PlaceState(p, all, this_, added) && p.v == v
    requires idx < |added| && Fits(p, Slots(all), added[idx].at, at)
    ensures PlaceState(p', all', this', added')
    ensures p' == Put(p, old(Slots(all)), added[idx].at, at)
    ensures added' == Without(added, idx)
    ensures Grows(all, all', v.layer)
  {
    InsertConsistent(p, Slots(all), Ats(added), idx, at);
    p' := Put(p, Slots(all), added[idx].at, at);
    var f: Field;
    f, all' := AddEntry(all, at, v.fields[added[idx].at], v.minLayer, v.layer);
    this' := this_ + [f];
    added' := Without(added, idx);
    WithoutPending(added, idx, v.fields);
    AliveInsert(this_, all, at, f, v.layer);
  }

  /** Where `added[idx]` goes: to the end if it is alone in the version, else beside a neighbour. */
  method FindSpot(ghost p: Placement, v: Version, all: seq<Field>, added: seq<Pending>, idx: nat)
    returns (at: Option<nat>)
    requires Consistent(p, Slots(all), Ats(added)) && Describes(added, v.fields) && p.v == v && idx < |added|
    ensures at.Some? ==> Fits(p, Slots(all), added[idx].at, at.value)
    ensures at.None? ==> Lonely(p.placed, added[idx].at)
  {
    AtIsPending(added, idx);
    var current := FindFieldInFieldsMaybe(all, Some(v.fields[added[idx].at].name), None);
    if current.Some? && current.value.field.maxLayer == v.layer {
      NotYetThere(p, all, added, current.value, added[idx].at);
      assert false;
    } else if current.None? && added[idx].left.None? && added[idx].right.None? {
      Alone(p, all, added, idx);
      assert |added| == 1;
      return Some(|all|);
    } else {
      at := FindSpotBeside(p, v, all, added, idx);
    }
  }

  lemma AtIsPending(added: seq<Pending>, idx: nat)
    requires idx < |added|
    ensures added[idx].at in Ats(added)
  {
    assert Ats(added)[idx] == added[idx].at;
  }

  /** Right after the left neighbour, or before the run of the right neighbour. */
  method FindSpotBeside(ghost p: Placement, v: Version, all: seq<Field>, added: seq<Pending>, idx: nat)
    returns (at: Option<nat>)
    requires Consistent(p, Slots(all), Ats(added)) && Describes(added, v.fields) && p.v == v && idx < |added|
    ensures at.Some? ==> Fits(p, Slots(all), added[idx].at, at.value)
    ensures at.None? ==> Lonely(p.placed, added[idx].at)
  {
    var leftFound := FindFieldInFieldsMaybe(all, added[idx].left, Some(v.layer));
    var rightFound := FindFieldInFieldsMaybe(all, added[idx].right, Some(v.layer));
    if leftFound.Some? {
      AfterFound(p, v, all, added, idx, leftFound.value);
      at := Some(leftFound.value.rightIdx + 1);
    } else {
      at := SpotBefore(p, v, all, added, idx, rightFound);
    }
  }

  method SpotBefore(ghost p: Placement, v: Version, ghost all: seq<Field>, ghost added: seq<Pending>, ghost idx: nat,
                    rightFound: Option<Found>) returns (at: Option<nat>)
    requires Consistent(p, Slots(all), Ats(added)) && Describes(added, v.fields) && p.v == v && idx < |added|
    requires added[idx].left.Some? ==>
      forall k :: 0 <= k < |all| ==> !Matches(all[k], added[idx].left.value, Some(v.layer))
    requires rightFound.None? && added[idx].right.Some? ==>
      forall k :: 0 <= k < |all| ==> !Matches(all[k], added[idx].right.value, Some(v.layer))
    requires rightFound.Some? ==>
      added[idx].right.Some? && FoundAt(all, added[idx].right.value, Some(v.layer), rightFound.value)
    ensures at.Some? ==> Fits(p, Slots(all), added[idx].at, at.value)
    ensures at.None? ==> Lonely(p.placed, added[idx].at)
  {
    if rightFound.Some? {
      BeforeFound(p, v, all, added, idx, rightFound.value);
      at := Some(rightFound.value.leftIdx + 1);
    } else {
      NoNeighbour(p, v, all, added, idx);
      at := None;
    }
  }

  /** One look at `added[idx]`: placed beside a neighbour that is already there, or left alone. */
  method TryPlace(ghost p: Placement, v: Version, all: seq<Field>, this_: seq<Field>, added: seq<Pending>, idx: nat)
    returns (done: bool, ghost p': Placement, all': seq<Field>, this': seq<Field>, added': seq<Pending>)
    requires PlaceState(p, all, this_, added) && p.v == v && idx < |added|
    ensures PlaceState(p', all', this', added') && p' == p.(placed := p'.placed)
    ensures done ==> added' == Without(added, idx)
    ensures !done ==> all' == all && this' == this_ && added' == added && p' == p
    ensures !done ==> Lonely(p.placed, added[idx].at)
    ensures Grows(all, all', v.layer)
  {
    var at := FindSpot(p, v, all, added, idx);
    if at.Some? {
      done := true;
      p', all', this', added' := InsertField(p, v, all, this_, added, idx, at.value);
    } else {
      done, p', all', this', added' := false, p, all, this_, added;
    }
  }

  lemma NotYetThere(p: Placement, all: seq<Field>, added: seq<Pending>, found: Found, j: nat)
    requires Consistent(p, Slots(all), Ats(added)) && j in Ats(added) && j < |p.v.fields|
    requires FoundAt(all, p.v.fields[j].name, None, found)
    ensures found.field.maxLayer != p.v.layer
  {
    PendingHasNoSlot(p, Slots(all), Ats(added), j, found.rightIdx);
  }

  lemma Alone(p: Placement, all: seq<Field>, added: seq<Pending>, idx: nat)
    requires Consistent(p, Slots(all), Ats(added)) && Describes(added, p.v.fields) && idx < |added|
    requires added[idx].left.None? && added[idx].right.None?
    ensures |added| == 1 && Fits(p, Slots(all), added[idx].at, |all|)
  {
    OnlyFieldFits(p, Slots(all), Ats(added));
  }

  lemma AfterFound(p: Placement, v: Version, all: seq<Field>, added: seq<Pending>, idx: nat, found: Found)
    requires Consistent(p, Slots(all), Ats(added)) && Describes(added, v.fields) && p.v == v && idx < |added|
    requires added[idx].left.Some? && FoundAt(all, added[idx].left.value, Some(v.layer), found)
    ensures Fits(p, Slots(all), added[idx].at, found.rightIdx + 1)
  {
    AtIsPending(added, idx);
    AfterLeftFits(p, Slots(all), Ats(added), found.rightIdx, added[idx].at);
  }

  lemma BeforeFound(p: Placement, v: Version, all: seq<Field>, added: seq<Pending>, idx: nat, found: Found)
    requires Consistent(p, Slots(all), Ats(added)) && Describes(added, v.fields) && p.v == v && idx < |added|
    requires added[idx].right.Some? && FoundAt(all, added[idx].right.value, Some(v.layer), found)
    ensures Fits(p, Slots(all), added[idx].at, found.leftIdx + 1)
  {
    AtIsPending(added, idx);
    forall k | found.leftIdx + 1 <= k < found.rightIdx ensures Slots(all)[k].hi != v.layer {
      assert !Matches(all[k], added[idx].right.value, Some(v.layer));
    }
    BeforeRightFits(p, Slots(all), Ats(added), found.leftIdx + 1, found.rightIdx, added[idx].at);
  }

  lemma NoNeighbour(p: Placement, v: Version, all: seq<Field>, added: seq<Pending>, idx: nat)
    requires Consistent(p, Slots(all), Ats(added)) && Describes(added, v.fields) && p.v == v && idx < |added|
    requires added[idx].left.Some? ==>
      forall k :: 0 <= k < |all| ==> !Matches(all[k], added[idx].left.value, Some(v.layer))
    requires added[idx].right.Some? ==>
      forall k :: 0 <= k < |all| ==> !Matches(all[k], added[idx].right.value, Some(v.layer))
    ensures Lonely(p.placed, added[idx].at)
  {
    var j := added[idx].at;
    if j + 1 in p.placed {
      PlacedHasSlot(p, Slots(all), Ats(added), j + 1);
      assert false;
    }
    if j > 0 && j - 1 in p.placed {
      PlacedHasSlot(p, Slots(all), Ats(added), j - 1);
      assert false;
    }
  }

  /** None of these pending fields has a neighbour that is placed. */
  ghost predicate AllLonely(placed: seq<nat>, added: seq<Pending>) {
    forall w :: w in added ==> Lonely(placed, w.at)
  }

  lemma OneMoreLonely(placed: seq<nat>, added: seq<Pending>, idx: nat)
    requires idx < |added| && AllLonely(placed, added[..idx]) && Lonely(placed, added[idx].at)
    ensures AllLonely(placed, added[..idx + 1])
  {
    assert added[..idx + 1] == added[..idx] + [added[idx]];
  }

  /** One pass over the pending fields. */
  method Sweep(ghost p0: Placement, v: Version, all0: seq<Field>, this0: seq<Field>, added0: seq<Pending>)
    returns (progress: bool, ghost p: Placement, all: seq<Field>, this_: seq<Field>, added: seq<Pending>)
    requires PlaceState(p0, all0, this0, added0) && p0.v == v
    ensures PlaceState(p, all, this_, added) && p == p0.(placed := p.placed)
    ensures progress ==> |added| < |added0|
    ensures !progress ==> all == all0 && this_ == this0 && added == added0 && p == p0
    ensures !progress ==> AllLonely(p.placed, added)
    ensures Grows(all0, all, v.layer)
  {
    progress, p, all, this_, added := false, p0, all0, this0, added0;
    var idx := 0;
    while idx < |added|
      invariant idx <= |added|
      invariant PlaceState(p, all, this_, added) && p == p0.(placed := p.placed)
      invariant if progress then |added| < |added0|
                else all == all0 && this_ == this0 && added == added0 && p == p0
      invariant !progress ==> AllLonely(p.placed, added[..idx])
      invariant Grows(all0, all, v.layer)
      decreases |added| - idx
    {
      var done: bool;
      done, p, all, this_, added := TryPlace(p, v, all, this_, added, idx);
      if done {
        progress := true;
      } else {
        if !progress {
          OneMoreLonely(p.placed, added, idx);
        }
        idx := idx + 1;
      }
    }
    assert added[..|added|] == added;
  }

  lemma {:induction false} Stuck(p: Placement, all: seq<Field>, added: seq<Pending>)
    requires Consistent(p, Slots(all), Ats(added)) && Describes(added, p.v.fields) && added != []
    requires AllLonely(p.placed, added)
    ensures p.placed == [] && |added| == |p.v.fields| && forall k :: 0 <= k < |added| ==> Ats(added)[k] == k
    ensures added[0].left.None? && added[|added| - 1].right.None?
  {
    forall j | j in Ats(added) ensures Lonely(p.placed, j) {
      var k :| 0 <= k < |added| && Ats(added)[k] == j;
      assert added[k] in added;
    }
    StuckMeansEmpty(p, Slots(all), Ats(added));
    assert Ats(added)[0] == 0 && Ats(added)[|added| - 1] == |added| - 1;
  }

  method PlaceAdded(ghost p0: Placement, v: Version, all0: seq<Field>, this0: seq<Field>, added0: seq<Pending>)
    returns (ghost p: Placement, all: seq<Field>, this_: seq<Field>)
    requires PlaceState(p0, all0, this0, added0) && p0.v == v
    ensures PlaceState(p, all, this_, []) && p == p0.(placed := p.placed)
    ensures Grows(all0, all, v.layer)
  {
    p, all, this_ := p0, all0, this0;
    var added := added0;
    while added != []
      invariant PlaceState(p, all, this_, added) && p == p0.(placed := p.placed)
      invariant Grows(all0, all, v.layer)
      decreases |added|
    {
      var progress: bool;
      progress, p, all, this_, added := Sweep(p, v, all, this_, added);
      if !progress {
        Stuck(p, all, added);
        if added[0].left.None? && added[|added| - 1].right.None? && |added| == |v.fields| {
          p, all, this_ := AppendAll(p, v, all, this_, added);
          added := [];
        } else {
          assert false;
        }
      }
    }
  }

  /** Nothing in common with the version before: the whole list goes to the end. */
  method AppendAll(ghost p0: Placement, v: Version, all0: seq<Field>, this0: seq<Field>, added0: seq<Pending>)
    returns (ghost p: Placement, all: seq<Field>, this_: seq<Field>)
    requires PlaceState(p0, all0, this0, added0) && p0.v == v
    requires p0.placed == [] && forall k :: 0 <= k < |added0| ==> Ats(added0)[k] == k
    ensures PlaceState(p, all, this_, []) && p == p0.(placed := p.placed)
    ensures Grows(all0, all, v.layer)
  {
    p, all, this_ := p0, all0, this0;
    var added := added0;
    for k := 0 to |added0|
      invariant PlaceState(p, all, this_, added) && p == p0.(placed := p.placed)
      invariant |added| == |added0| - k && forall m :: 0 <= m < |added| ==> added[m].at == k + m
      invariant Below(p.placed, k)
      invariant Grows(all0, all, v.layer)
    {
      p, all, this_, added := AppendOne(p, v, all, this_, added, k);
    }
  }

  ghost predicate Below(s: seq<nat>, n: nat) {
    forall m :: 0 <= m < |s| ==> s[m] < n
  }

  method AppendOne(ghost p: Placement, v: Version, all: seq<Field>, this_: seq<Field>, added: seq<Pending>,
                   ghost k: nat)
    returns (ghost p': Placement, all': seq<Field>, this': seq<Field>, added': seq<Pending>)
    requires PlaceState(p, all, this_, added) && p.v == v && added != [] && added[0].at == k && Below(p.placed, k)
    ensures PlaceState(p', all', this', added') && p' == p.(placed := p'.placed) && Below(p'.placed, k + 1)
    ensures added' == Without(added, 0)
    ensures Grows(all, all', v.layer)
  {
    AppendFits(p, Slots(all), Ats(added), k);
    p', all', this', added' := InsertField(p, v, all, this_, added, 0, |all|);
    assert p'.placed == p.placed + [k];
  }

  // ----- one version after the other

  /** Entries of the version before that did not make it into `v` end right below it. */
  method RetireLeftovers(prevFields: seq<Field>, ghost all: seq<Field>, ghost prev: int, v: Version)
    requires Distinct(all) && prev < v.minLayer <= v.layer
    requires forall f :: f in prevFields ==> f in all && (f.maxLayer == prev || f.maxLayer == v.layer)
    requires forall f :: f in all && f.maxLayer == prev ==> f in prevFields
    modifies set f | f in prevFields
    ensures Slots(all) == Retired(old(Slots(all)), prev, v)
    ensures forall f :: f in all && old(f.maxLayer) == v.layer ==> f.maxLayer == v.layer
    ensures forall f :: f in all && f.maxLayer == v.layer ==> old(f.maxLayer) == v.layer
  {
    for k := 0 to |prevFields|
      invariant forall f :: f in all ==>
                  (f.maxLayer == old(f.maxLayer)) || (old(f.maxLayer) == prev && f.maxLayer == v.minLayer - 1)
      invariant forall m :: 0 <= m < k ==> prevFields[m].maxLayer in {v.layer, v.minLayer - 1}
    {
      var oldField := prevFields[k];
      if oldField.maxLayer != v.layer {
        oldField.maxLayer := v.minLayer - 1;
      }
    }
    forall i | 0 <= i < |all| ensures Slots(all)[i] == Retire(old(Slots(all)[i]), prev, v) {
      assert all[i] in all;
    }
  }

  ghost predicate SameSpecs(fs: seq<Field>, specs: seq<FieldSpec>) {
    forall k :: 0 <= k < |fs| && k < |specs| ==> fs[k].spec == specs[k]
  }

  /** The generator's own check: the entries that end with a version against its fields, one by one, as far as the
      shorter of the two goes. */
  method CheckFields(toCheck: seq<Field>, fields: seq<FieldSpec>) returns (ok: bool)
    ensures ok <==> SameSpecs(toCheck, fields)
  {
    var n := if |toCheck| < |fields| then |toCheck| else |fields|;
    for k := 0 to n
      invariant forall m :: 0 <= m < k ==> toCheck[m].spec == fields[m]
    {
      if toCheck[k].spec != fields[k] {
        return false;
      }
    }
    return true;
  }

  lemma CheckPasses(all: seq<Field>, v: Version)
    requires Specs(Filter(Slots(all), EndsAt(v.layer))) == v.fields
    ensures |Alive(all, v.layer)| == |v.fields| && SameSpecs(Alive(all, v.layer), v.fields)
  {
    AliveWhere(all, v.layer);
    FilterWhere(Slots(all), EndsAt(v.layer));
    forall k | 0 <= k < |v.fields| ensures Alive(all, v.layer)[k].spec == v.fields[k] {
      assert Filter(Slots(all), EndsAt(v.layer))[k].spec == Specs(Filter(Slots(all), EndsAt(v.layer)))[k];
    }
  }

  function Alive(all: seq<Field>, c: int): seq<Field>
    reads all
  {
    if all == [] then []
    else
      var n := |all| - 1;
      Alive(all[..n], c) + (if all[n].maxLayer == c then [all[n]] else [])
  }

  lemma {:induction false} AliveWhere(all: seq<Field>, c: int)
    ensures var r, w := Alive(all, c), Where(Slots(all), EndsAt(c));
            |r| == |w| && forall k :: 0 <= k < |r| ==> r[k] == all[w[k]]
  {
    if all != [] {
      var n := |all| - 1;
      assert Slots(all)[..n] == Slots(all[..n]);
      AliveWhere(all[..n], c);
    }
  }

  ghost predicate MergeState(vs: seq<Version>, i: nat, all: seq<Field>, prevFields: seq<Field>)
    reads all
    requires i < |vs|
  {
    && Merged(Slots(all), vs, i)
    && Distinct(all)
    && AliveList(prevFields, all, vs[i].layer)
  }

  /** Extends, places and retires: the state before `RetireLeftovers` is left to its caller. */
  method PlaceVersion(ghost before: seq<FieldSpec>, prev: int, v: Version, all0: seq<Field>)
    returns (ghost p: Placement, all: seq<Field>, this_: seq<Field>)
    requires Distinct(all0) && prev < v.minLayer <= v.layer && UniqueNames(v.fields)
    requires forall s :: s in Slots(all0) ==> s.lo <= prev && s.hi <= prev
    requires Specs(Filter(Slots(all0), EndsAt(prev))) == before
    modifies all0
    ensures PlaceState(p, all, this_, []) && p == Placement(old(Slots(all0)), before, prev, v, p.placed)
    ensures Grows(all0, all, v.layer)
    ensures forall f :: f in all0 ==> f.maxLayer == old(f.maxLayer) || f.maxLayer == v.layer
  {
    ghost var ss0 := Slots(all0);
    var added := ListAdded(v.fields);
    ghost var placed: seq<nat>;
    this_, added, placed := KeepUnchanged(all0, prev, v, added);
    p := Placement(ss0, before, prev, v, placed);
    assert Consistent(p, Slots(all0), Ats(added));
    p, all, this_ := PlaceAdded(p, v, all0, this_, added);
  }

  method MergeVersion(ghost vs: seq<Version>, ghost i: nat, prev: int, v: Version, all0: seq<Field>,
                      prevFields: seq<Field>)
    returns (all: seq<Field>, this_: seq<Field>)
    requires SortedFamily(vs) && 0 < i < |vs| && v == vs[i] && prev == vs[i - 1].layer
    requires MergeState(vs, i - 1, all0, prevFields)
    modifies set f | f in all0
    ensures MergeState(vs, i, all, this_)
    ensures Grows(all0, all, v.layer)
  {
    ghost var p: Placement;
    assert prev < v.minLayer <= v.layer;
    p, all, this_ := PlaceVersion(vs[i - 1].fields, prev, v, all0);
    ghost var ss := Slots(all);
    StepIsMerged(vs, i, p.ss0, ss, p.placed);
    RetireLeftovers(prevFields, all, prev, v);
    CheckPasses(all, v);
    var ok := CheckFields(Alive(all, v.layer), v.fields);
    if !ok {
      assert false;
    }
  }

  method OldestEntries(v: Version) returns (all: seq<Field>)
    ensures |all| == |v.fields| && Distinct(all)
    ensures forall k :: 0 <= k < |all| ==> Slots(all)[k] == Slot(v.fields[k], v.layer, v.layer)
    ensures forall f :: f in all ==> fresh(f) && f.maxLayer == v.layer
  {
    all := [];
    for k := 0 to |v.fields|
      invariant |all| == k && Distinct(all) && forall f :: f in all ==> fresh(f) && f.maxLayer == v.layer
      invariant forall m :: 0 <= m < k ==> Slots(all)[m] == Slot(v.fields[m], v.layer, v.layer)
    {
      var f := new Field(v.fields[k], v.layer, v.layer);
      all := all + [f];
    }
  }

  /** All versions, oldest first. A constructor with a single version needs no merged list. */
  method MergeVersions(vs: seq<Version>) returns (all: seq<Field>)
    requires SortedFamily(vs)
    ensures |vs| == 1 ==> all == []
    ensures |vs| > 1 ==> Merged(Slots(all), vs, |vs| - 1)
    ensures Distinct(all) && forall f :: f in all ==> fresh(f)
  {
    all := OldestEntries(vs[0]);
    OldestIsMerged(vs, Slots(all));
    var prevFields := all;
    for i := 1 to |vs|
      invariant MergeState(vs, i - 1, all, prevFields)
      invariant forall f :: f in all ==> fresh(f)
    {
      all, prevFields := MergeVersion(vs, i, vs[i - 1].layer, vs[i], all, prevFields);
    }
    if |vs| == 1 {
      all := [];
    }
  }
}
