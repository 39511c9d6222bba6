/** Which fields of an object have to be searched for values that depend on the reader: a memoised recursion
    over the graph of constructors and the types of their fields, which may have cycles. */
module ContextFields {
  import opened Containers

  /** `fields` holds the type of each field, the element type for a vector. */
  datatype Comb = Comb(inTypes: bool, fields: seq<string>)

  datatype Graph = Graph(combs: seq<Comb>, members: map<string, seq<nat>>, core: set<string>, need: set<string>)
  {
    ghost predicate Valid() {
      forall t, i :: t in members && 0 <= i < |members[t]| ==> members[t][i] < |combs|
    }
  }

  /** The lists attached so far; a constructor whose list is still being built is in it too. */
  type Memo = map<nat, seq<nat>>

  /** A field whose type needs context whatever its constructors hold. */
  predicate Direct(g: Graph, t: string) {
    t !in g.core && if t in g.members then t in g.need else t == "Object"
  }

  predicate Follows(g: Graph, t: string) {
    t !in g.core && t in g.members
  }

  /** Field `k` of constructor `c` reaches a context-needing type through at most `n` more fields. */
  ghost predicate ReachesIn(g: Graph, c: nat, k: nat, n: nat)
    decreases n, 0
  {
    && c < |g.combs| && g.combs[c].inTypes && k < |g.combs[c].fields|
    && var t := g.combs[c].fields[k];
       || Direct(g, t)
       || (n > 0 && Follows(g, t) && exists i :: 0 <= i < |g.members[t]| && LiveIn(g, g.members[t][i], n - 1))
  }

  ghost predicate LiveIn(g: Graph, c: nat, n: nat)
    decreases n, 1
  {
    exists k: nat :: ReachesIn(g, c, k, n)
  }

  ghost predicate Reaches(g: Graph, c: nat, k: nat) {
    exists n: nat :: ReachesIn(g, c, k, n)
  }

  ghost predicate Live(g: Graph, c: nat) {
    exists k: nat :: Reaches(g, c, k)
  }

  // ----- what the recursion computes

  function Fresh(g: Graph, memo: Memo): set<nat> {
    set c: nat | c < |g.combs| && c !in memo
  }

  lemma FreshShrinks(g: Graph, memo: Memo, more: Memo)
    requires memo.Keys <= more.Keys
    ensures |Fresh(g, more)| <= |Fresh(g, memo)|
    ensures forall c :: c in Fresh(g, memo) && c in more ==> |Fresh(g, more)| < |Fresh(g, memo)|
  {
    SubsetCard(Fresh(g, more), Fresh(g, memo));
    forall c | c in Fresh(g, memo) && c in more ensures |Fresh(g, more)| < |Fresh(g, memo)| {
      SubsetCard(Fresh(g, more), Fresh(g, memo) - {c});
    }
  }

  lemma {:induction false} SubsetCard(a: set<nat>, b: set<nat>)
    requires a <= b
    ensures |a| <= |b|
  {
    if a != {} {
      var x :| x in a;
      SubsetCard(a - {x}, b - {x});
    }
  }

  /** The memo after the list of `c` was asked for. */
  function Resolve(g: Graph, memo: Memo, c: nat): (r: Memo)
    requires g.Valid() && c < |g.combs|
    ensures memo.Keys <= r.Keys && c in r
    ensures forall d :: d in memo ==> r[d] == memo[d]
    ensures |Fresh(g, r)| <= |Fresh(g, memo)|
    decreases |Fresh(g, memo)|, 0, 0
  {
    if c in memo then memo
    else
      var started := memo[c := []];
      FreshShrinks(g, memo, started);
      assert c in Fresh(g, memo);
      if g.combs[c].inTypes then Scan(g, started, c, 0) else started
  }

  /** The fields of `c` from the `k`-th on. */
  function Scan(g: Graph, memo: Memo, c: nat, k: nat): (r: Memo)
    requires g.Valid() && c < |g.combs| && c in memo && k <= |g.combs[c].fields|
    ensures memo.Keys <= r.Keys
    ensures forall d :: d in memo && d != c ==> r[d] == memo[d]
    ensures |Fresh(g, r)| <= |Fresh(g, memo)|
    decreases |Fresh(g, memo)|, 2, |g.combs[c].fields| - k
  {
    if k == |g.combs[c].fields| then memo
    else
      var t := g.combs[c].fields[k];
      var (live, next) := if Follows(g, t) then AnyLive(g, memo, g.members[t], 0, false) else (false, memo);
      var listed := if Direct(g, t) || live then next[c := next[c] + [k]] else next;
      FreshShrinks(g, next, listed);
      Scan(g, listed, c, k + 1)
  }

  /** Asks constructors in turn until one has a list that is not empty. */
  function AnyLive(g: Graph, memo: Memo, cs: seq<nat>, i: nat, live: bool): (r: (bool, Memo))
    requires g.Valid() && i <= |cs| && forall j :: 0 <= j < |cs| ==> cs[j] < |g.combs|
    ensures memo.Keys <= r.1.Keys
    ensures forall d :: d in memo ==> r.1[d] == memo[d]
    ensures |Fresh(g, r.1)| <= |Fresh(g, memo)|
    decreases |Fresh(g, memo)|, 1, |cs| - i
  {
    if i == |cs| || live then (live, memo)
    else
      var next := Resolve(g, memo, cs[i]);
      AnyLive(g, next, cs, i + 1, next[cs[i]] != [])
  }

  // ----- every list is sound and in order, on every graph

  ghost predicate Ascending(ks: seq<nat>, bound: nat) {
    && (forall i, j :: 0 <= i < j < |ks| ==> ks[i] < ks[j])
    && (forall i :: 0 <= i < |ks| ==> ks[i] < bound)
  }

  ghost predicate SoundAt(g: Graph, memo: Memo, c: nat)
    requires c in memo
  {
    && c < |g.combs|
    && Ascending(memo[c], |g.combs[c].fields|)
    && forall k :: k in memo[c] ==> Reaches(g, c, k)
  }

  ghost predicate Sound(g: Graph, memo: Memo) {
    forall c :: c in memo ==> SoundAt(g, memo, c)
  }

  lemma {:induction false} ResolveSound(g: Graph, memo: Memo, c: nat)
    requires g.Valid() && c < |g.combs| && Sound(g, memo)
    ensures Sound(g, Resolve(g, memo, c))
    decreases |Fresh(g, memo)|, 0, 0
  {
    if c !in memo {
      var started := memo[c := []];
      FreshShrinks(g, memo, started);
      assert c in Fresh(g, memo);
      assert forall d :: d in memo && d != c ==> started[d] == memo[d] && SoundAt(g, memo, d);
      if g.combs[c].inTypes {
        ScanSound(g, started, c, 0);
      }
    }
  }

  lemma ListIsSound(g: Graph, memo: Memo, c: nat, k: nat)
    requires Sound(g, memo) && c in memo && Reaches(g, c, k)
    requires Ascending(memo[c], k) && k < |g.combs[c].fields|
    ensures Sound(g, memo[c := memo[c] + [k]]) && Ascending(memo[c] + [k], k + 1)
  {
    var next := memo[c := memo[c] + [k]];
    forall d | d in next ensures SoundAt(g, next, d) {
      assert SoundAt(g, memo, d);
    }
  }

  lemma {:induction false} ScanSound(g: Graph, memo: Memo, c: nat, k: nat)
    requires g.Valid() && c < |g.combs| && c in memo && k <= |g.combs[c].fields| && g.combs[c].inTypes
    requires Sound(g, memo) && Ascending(memo[c], k)
    ensures Sound(g, Scan(g, memo, c, k))
    decreases |Fresh(g, memo)|, 2, |g.combs[c].fields| - k
  {
    if k < |g.combs[c].fields| {
      var t := g.combs[c].fields[k];
      var (live, next) := if Follows(g, t) then AnyLive(g, memo, g.members[t], 0, false) else (false, memo);
      if Follows(g, t) {
        AnyLiveSound(g, memo, g.members[t], 0, false);
      }
      assert next[c] == memo[c];
      var listed := if Direct(g, t) || live then next[c := next[c] + [k]] else next;
      FreshShrinks(g, next, listed);
      if Direct(g, t) || live {
        FieldReaches(g, c, k, live);
        ListIsSound(g, next, c, k);
      }
      ScanSound(g, listed, c, k + 1);
    }
  }

  lemma FieldReaches(g: Graph, c: nat, k: nat, live: bool)
    requires c < |g.combs| && g.combs[c].inTypes && k < |g.combs[c].fields|
    requires var t := g.combs[c].fields[k];
      Direct(g, t) || (live && Follows(g, t) && exists i :: 0 <= i < |g.members[t]| && Live(g, g.members[t][i]))
    ensures Reaches(g, c, k)
  {
    var t := g.combs[c].fields[k];
    if Direct(g, t) {
      assert ReachesIn(g, c, k, 0);
    } else {
      var i :| 0 <= i < |g.members[t]| && Live(g, g.members[t][i]);
      var j: nat :| Reaches(g, g.members[t][i], j);
      var n: nat :| ReachesIn(g, g.members[t][i], j, n);
      assert LiveIn(g, g.members[t][i], n);
      assert ReachesIn(g, c, k, n + 1);
    }
  }

  lemma {:induction false} AnyLiveSound(g: Graph, memo: Memo, cs: seq<nat>, i: nat, live: bool)
    requires g.Valid() && i <= |cs| && forall j :: 0 <= j < |cs| ==> cs[j] < |g.combs|
    requires Sound(g, memo) && (live ==> exists j :: 0 <= j < |cs| && Live(g, cs[j]))
    ensures Sound(g, AnyLive(g, memo, cs, i, live).1)
    ensures AnyLive(g, memo, cs, i, live).0 ==> exists j :: 0 <= j < |cs| && Live(g, cs[j])
    decreases |Fresh(g, memo)|, 1, |cs| - i
  {
    if i < |cs| && !live {
      ResolveSound(g, memo, cs[i]);
      var next := Resolve(g, memo, cs[i]);
      if next[cs[i]] != [] {
        assert SoundAt(g, next, cs[i]) && next[cs[i]][0] in next[cs[i]];
        assert Live(g, cs[i]);
      }
      AnyLiveSound(g, next, cs, i + 1, next[cs[i]] != []);
    }
  }

  // ----- where no cycle is in reach the lists miss nothing

  ghost predicate Edge(g: Graph, c: nat, d: nat) {
    && c < |g.combs| && g.combs[c].inTypes
    && exists k ::
         && 0 <= k < |g.combs[c].fields| && Follows(g, g.combs[c].fields[k])
         && d in g.members[g.combs[c].fields[k]]
  }

  /** `d` is `n` edges away from `c`. */
  ghost predicate LeadsIn(g: Graph, c: nat, d: nat, n: nat)
    decreases n
  {
    if n == 0 then c == d else exists e: nat :: LeadsIn(g, c, e, n - 1) && Edge(g, e, d)
  }

  ghost predicate Leads(g: Graph, c: nat, d: nat) {
    exists n: nat :: LeadsIn(g, c, d, n)
  }

  /** `rank` falls along every edge in reach of `c`, so no cycle is in reach of it. */
  ghost predicate FallsFrom(g: Graph, c: nat, rank: nat -> nat) {
    forall d: nat, e: nat :: Leads(g, c, d) && Edge(g, d, e) ==> rank(e) < rank(d)
  }

  /** No edge leaves `part`, and `rank` falls along every edge in it. */
  ghost predicate Ranked(g: Graph, part: set<nat>, rank: nat -> nat) {
    forall c: nat, d: nat :: c in part && Edge(g, c, d) ==> d in part && rank(d) < rank(c)
  }

  ghost function Onward(g: Graph, c: nat): set<nat> {
    set d: nat | d < |g.combs| && Leads(g, c, d)
  }

  lemma OnwardIsRanked(g: Graph, c: nat, rank: nat -> nat)
    requires g.Valid() && c < |g.combs| && FallsFrom(g, c, rank)
    ensures c in Onward(g, c) && Ranked(g, Onward(g, c), rank)
  {
    assert LeadsIn(g, c, c, 0);
    forall d: nat, e: nat | d in Onward(g, c) && Edge(g, d, e) ensures e in Onward(g, c) && rank(e) < rank(d) {
      var n: nat :| LeadsIn(g, c, d, n);
      assert LeadsIn(g, c, e, n + 1);
    }
  }

  ghost predicate FullTo(g: Graph, memo: Memo, c: nat, bound: nat)
    requires c in memo
  {
    forall k: nat :: k < bound && Reaches(g, c, k) ==> k in memo[c]
  }

  ghost predicate FullAt(g: Graph, memo: Memo, c: nat)
    requires c in memo
  {
    c < |g.combs| && FullTo(g, memo, c, |g.combs[c].fields|)
  }

  /** In `part` only the lists of `busy` constructors are still in the making. */
  ghost predicate FullExcept(g: Graph, part: set<nat>, memo: Memo, busy: set<nat>) {
    forall c :: c in memo && c in part && c !in busy ==> FullAt(g, memo, c)
  }

  /** Asking `c` meets no busy constructor of `part` again. */
  ghost predicate Free(part: set<nat>, busy: set<nat>, rank: nat -> nat, c: nat) {
    if c in part then forall b :: b in busy ==> rank(c) < rank(b) else busy == {}
  }

  function Joined(part: set<nat>, busy: set<nat>, c: nat): set<nat> {
    if c in part then busy + {c} else busy
  }

  lemma MembersAreFree(g: Graph, part: set<nat>, busy: set<nat>, rank: nat -> nat, c: nat, k: nat)
    requires c < |g.combs| && g.combs[c].inTypes && k < |g.combs[c].fields| && Follows(g, g.combs[c].fields[k])
    requires Ranked(g, part, rank) && Free(part, busy, rank, c)
    ensures forall d :: d in g.members[g.combs[c].fields[k]] ==> Free(part, Joined(part, busy, c), rank, d)
    ensures c in part ==> forall d :: d in g.members[g.combs[c].fields[k]] ==> d in part
  {
    forall d | d in g.members[g.combs[c].fields[k]] ensures Edge(g, c, d) {
    }
  }

  lemma {:induction false} ResolveFull(g: Graph, part: set<nat>, memo: Memo, c: nat, rank: nat -> nat, busy: set<nat>)
    requires g.Valid() && c < |g.combs| && Ranked(g, part, rank) && Free(part, busy, rank, c)
    requires FullExcept(g, part, memo, busy)
    ensures FullExcept(g, part, Resolve(g, memo, c), busy)
    decreases |Fresh(g, memo)|, 0, 0
  {
    if c !in memo {
      var started := memo[c := []];
      FreshShrinks(g, memo, started);
      assert c in Fresh(g, memo);
      forall d | d in started && d in part && d !in busy && d != c ensures FullAt(g, started, d) {
        assert FullAt(g, memo, d);
      }
      if g.combs[c].inTypes {
        ScanFull(g, part, started, c, 0, rank, busy);
      }
    }
  }

  lemma {:induction false} ScanFull(
    g: Graph, part: set<nat>, memo: Memo, c: nat, k: nat, rank: nat -> nat, busy: set<nat>)
    requires g.Valid() && c < |g.combs| && c in memo && k <= |g.combs[c].fields| && g.combs[c].inTypes
    requires Ranked(g, part, rank) && Free(part, busy, rank, c)
    requires (c in part ==> FullTo(g, memo, c, k)) && FullExcept(g, part, memo, Joined(part, busy, c))
    ensures FullExcept(g, part, Scan(g, memo, c, k), busy)
    decreases |Fresh(g, memo)|, 2, |g.combs[c].fields| - k
  {
    if k < |g.combs[c].fields| {
      var t := g.combs[c].fields[k];
      var (live, next) := if Follows(g, t) then AnyLive(g, memo, g.members[t], 0, false) else (false, memo);
      var listed := if Direct(g, t) || live then next[c := next[c] + [k]] else next;
      FreshShrinks(g, next, listed);
      FieldFull(g, part, memo, c, k, rank, busy);
      ScanFull(g, part, listed, c, k + 1, rank, busy);
    }
  }

  lemma {:induction false} FieldFull(
    g: Graph, part: set<nat>, memo: Memo, c: nat, k: nat, rank: nat -> nat, busy: set<nat>)
    requires g.Valid() && c < |g.combs| && c in memo && k < |g.combs[c].fields| && g.combs[c].inTypes
    requires Ranked(g, part, rank) && Free(part, busy, rank, c)
    requires FullExcept(g, part, memo, Joined(part, busy, c))
    ensures
      var t := g.combs[c].fields[k];
      var (live, next) := if Follows(g, t) then AnyLive(g, memo, g.members[t], 0, false) else (false, memo);
      var listed := if Direct(g, t) || live then next[c := next[c] + [k]] else next;
      && FullExcept(g, part, listed, Joined(part, busy, c))
      && (c in part && Reaches(g, c, k) ==> k in listed[c])
    decreases |Fresh(g, memo)|, 2, 0
  {
    var t := g.combs[c].fields[k];
    var (live, next) := if Follows(g, t) then AnyLive(g, memo, g.members[t], 0, false) else (false, memo);
    var listed := if Direct(g, t) || live then next[c := next[c] + [k]] else next;
    if Follows(g, t) {
      MembersAreFree(g, part, busy, rank, c, k);
      AnyLiveFull(g, part, memo, g.members[t], 0, rank, Joined(part, busy, c));
    }
    if c in part {
      FieldIsCaught(g, part, c, k, live);
    }
    ListingKeeps(g, part, next, c, k, listed, Joined(part, busy, c));
  }

  /** A field that reaches context is direct or leads to a constructor in reach that does. */
  lemma FieldIsCaught(g: Graph, part: set<nat>, c: nat, k: nat, live: bool)
    requires c < |g.combs| && k < |g.combs[c].fields|
    requires var t := g.combs[c].fields[k]; Follows(g, t) ==>
      && (forall d :: d in g.members[t] ==> d in part)
      && ((exists j :: 0 <= j < |g.members[t]| && g.members[t][j] in part && Live(g, g.members[t][j])) ==> live)
    ensures Reaches(g, c, k) ==> Direct(g, g.combs[c].fields[k]) || live
  {
    if Reaches(g, c, k) && !Direct(g, g.combs[c].fields[k]) {
      FieldFollows(g, c, k);
    }
  }

  lemma ListingKeeps(g: Graph, part: set<nat>, next: Memo, c: nat, k: nat, listed: Memo, busy: set<nat>)
    requires c in next && FullExcept(g, part, next, busy) && (c in part ==> c in busy)
    requires listed == next || listed == next[c := next[c] + [k]]
    ensures FullExcept(g, part, listed, busy)
  {
    forall d | d in listed && d in part && d !in busy ensures FullAt(g, listed, d) {
      assert FullAt(g, next, d);
    }
  }

  lemma FieldFollows(g: Graph, c: nat, k: nat)
    requires Reaches(g, c, k) && !Direct(g, g.combs[c].fields[k])
    ensures var t := g.combs[c].fields[k];
      Follows(g, t) && exists i :: 0 <= i < |g.members[t]| && Live(g, g.members[t][i])
  {
    var t := g.combs[c].fields[k];
    var n: nat :| ReachesIn(g, c, k, n);
    var i :| 0 <= i < |g.members[t]| && LiveIn(g, g.members[t][i], n - 1);
    var j: nat :| ReachesIn(g, g.members[t][i], j, n - 1);
    assert Reaches(g, g.members[t][i], j);
    assert Live(g, g.members[t][i]);
  }

  lemma {:induction false} AnyLiveFull(
    g: Graph, part: set<nat>, memo: Memo, cs: seq<nat>, i: nat, rank: nat -> nat, busy: set<nat>)
    requires g.Valid() && i <= |cs| && forall j :: 0 <= j < |cs| ==> cs[j] < |g.combs|
    requires forall d :: d in cs ==> Free(part, busy, rank, d)
    requires Ranked(g, part, rank) && FullExcept(g, part, memo, busy)
    ensures var (live, next) := AnyLive(g, memo, cs, i, false);
      && FullExcept(g, part, next, busy)
      && ((exists j :: i <= j < |cs| && cs[j] in part && Live(g, cs[j])) ==> live)
    decreases |Fresh(g, memo)|, 1, |cs| - i
  {
    if i < |cs| {
      var next := Resolve(g, memo, cs[i]);
      ResolveFull(g, part, memo, cs[i], rank, busy);
      if next[cs[i]] == [] {
        if cs[i] in part {
          assert cs[i] !in busy;
          assert FullAt(g, next, cs[i]);
          assert !Live(g, cs[i]);
        }
        AnyLiveFull(g, part, next, cs, i + 1, rank, busy);
      }
    }
  }

  // ----- which answer a constructor gets, on any graph and after any others were asked

  /** Through at most `n` constructors that have no list yet, a field of type `t` comes to one that needs context
      itself or to a constructor whose list is not empty. */
  ghost predicate FieldWakesIn(g: Graph, memo: Memo, t: string, n: nat)
    decreases n, 0
  {
    || Direct(g, t)
    || (n > 0 && Follows(g, t) && exists i :: 0 <= i < |g.members[t]| && AnsweredIn(g, memo, g.members[t][i], n - 1))
  }

  ghost predicate AnsweredIn(g: Graph, memo: Memo, c: nat, n: nat)
    decreases n, 2
  {
    if c in memo then memo[c] != [] else WakesIn(g, memo, c, n)
  }

  ghost predicate WakesIn(g: Graph, memo: Memo, c: nat, n: nat)
    decreases n, 1
  {
    && c < |g.combs| && c !in memo && g.combs[c].inTypes
    && exists k :: 0 <= k < |g.combs[c].fields| && FieldWakesIn(g, memo, g.combs[c].fields[k], n)
  }

  ghost predicate Wakes(g: Graph, memo: Memo, c: nat) {
    exists n: nat :: WakesIn(g, memo, c, n)
  }

  ghost predicate Answered(g: Graph, memo: Memo, c: nat) {
    if c in memo then memo[c] != [] else Wakes(g, memo, c)
  }

  ghost predicate FieldWakes(g: Graph, memo: Memo, t: string) {
    Direct(g, t) || (Follows(g, t) && exists i :: 0 <= i < |g.members[t]| && Answered(g, memo, g.members[t][i]))
  }

  // A list that is empty: nothing wakes it.

  /** Everything from `c` on was asked for since `memo` and needs nothing. */
  ghost predicate Idle(g: Graph, memo: Memo, next: Memo) {
    forall d :: d in next && d !in memo ==> IdleAt(g, next, d)
  }

  ghost predicate IdleAt(g: Graph, next: Memo, d: nat)
    requires d in next
  {
    && d < |g.combs| && next[d] == []
    && (g.combs[d].inTypes ==> forall k :: 0 <= k < |g.combs[d].fields| ==> Passive(g, next, g.combs[d].fields[k]))
  }

  /** A field of this type needs nothing itself, and the lists of its constructors are empty. */
  ghost predicate Passive(g: Graph, next: Memo, t: string) {
    && !Direct(g, t)
    && (Follows(g, t) ==> forall i :: 0 <= i < |g.members[t]| ==> EmptyAt(next, g.members[t][i]))
  }

  ghost predicate EmptyAt(next: Memo, d: nat) {
    d in next && next[d] == []
  }

  lemma IdleChain(g: Graph, memo: Memo, next: Memo, r: Memo)
    requires Idle(g, memo, next) && Idle(g, next, r)
    requires forall d :: EmptyAt(next, d) ==> EmptyAt(r, d)
    ensures Idle(g, memo, r)
  {
    forall d | d in r && d !in memo ensures IdleAt(g, r, d) {
      if d in next {
        assert IdleAt(g, next, d) && EmptyAt(next, d);
        forall k | 0 <= k < |g.combs[d].fields| && g.combs[d].inTypes ensures Passive(g, r, g.combs[d].fields[k]) {
          assert Passive(g, next, g.combs[d].fields[k]);
        }
      }
    }
  }

  lemma {:induction false} ResolveIdle(g: Graph, memo: Memo, c: nat)
    requires g.Valid() && c < |g.combs|
    ensures var r := Resolve(g, memo, c); r[c] == [] ==> Idle(g, memo, r)
    decreases |Fresh(g, memo)|, 0, 0
  {
    if c !in memo {
      var started := memo[c := []];
      FreshShrinks(g, memo, started);
      assert c in Fresh(g, memo);
      if g.combs[c].inTypes && Scan(g, started, c, 0)[c] == [] {
        ScanIdle(g, started, c, 0);
      }
    }
  }

  /** A list only grows while its constructor is scanned. */
  lemma {:induction false} ScanGrows(g: Graph, memo: Memo, c: nat, k: nat)
    requires g.Valid() && c < |g.combs| && c in memo && k <= |g.combs[c].fields|
    ensures |Scan(g, memo, c, k)[c]| >= |memo[c]|
    decreases |Fresh(g, memo)|, 2, |g.combs[c].fields| - k
  {
    if k < |g.combs[c].fields| {
      var t := g.combs[c].fields[k];
      var (live, next) := if Follows(g, t) then AnyLive(g, memo, g.members[t], 0, false) else (false, memo);
      var listed := if Direct(g, t) || live then next[c := next[c] + [k]] else next;
      FreshShrinks(g, next, listed);
      ScanGrows(g, listed, c, k + 1);
    }
  }

  lemma {:induction false} ScanIdle(g: Graph, memo: Memo, c: nat, k: nat)
    requires g.Valid() && c < |g.combs| && c in memo && k <= |g.combs[c].fields|
    requires Scan(g, memo, c, k)[c] == []
    ensures var r := Scan(g, memo, c, k);
      Idle(g, memo, r) && forall j :: k <= j < |g.combs[c].fields| ==> Passive(g, r, g.combs[c].fields[j])
    decreases |Fresh(g, memo)|, 2, |g.combs[c].fields| - k
  {
    if k < |g.combs[c].fields| {
      var t := g.combs[c].fields[k];
      var (live, next) := if Follows(g, t) then AnyLive(g, memo, g.members[t], 0, false) else (false, memo);
      var listed := if Direct(g, t) || live then next[c := next[c] + [k]] else next;
      FreshShrinks(g, next, listed);
      ScanGrows(g, listed, c, k + 1);
      assert listed == next;
      if Follows(g, t) {
        AnyLiveIdle(g, memo, g.members[t], 0);
      }
      assert Passive(g, next, t);
      ScanIdle(g, next, c, k + 1);
      ScanJoins(g, memo, next, Scan(g, next, c, k + 1), c, k);
    }
  }

  lemma ScanJoins(g: Graph, memo: Memo, next: Memo, r: Memo, c: nat, k: nat)
    requires c < |g.combs| && k < |g.combs[c].fields| && c in memo
    requires memo.Keys <= next.Keys <= r.Keys && r[c] == [] && forall d :: d in next && d != c ==> r[d] == next[d]
    requires Idle(g, memo, next) && Idle(g, next, r) && Passive(g, next, g.combs[c].fields[k])
    requires forall j :: k < j < |g.combs[c].fields| ==> Passive(g, r, g.combs[c].fields[j])
    ensures Idle(g, memo, r) && forall j :: k <= j < |g.combs[c].fields| ==> Passive(g, r, g.combs[c].fields[j])
  {
    IdleChain(g, memo, next, r);
    assert Passive(g, r, g.combs[c].fields[k]);
  }

  lemma {:induction false} AnyLiveIdle(g: Graph, memo: Memo, cs: seq<nat>, i: nat)
    requires g.Valid() && i <= |cs| && forall j :: 0 <= j < |cs| ==> cs[j] < |g.combs|
    ensures var (live, next) := AnyLive(g, memo, cs, i, false);
      !live ==> Idle(g, memo, next) && forall j :: i <= j < |cs| ==> EmptyAt(next, cs[j])
    decreases |Fresh(g, memo)|, 1, |cs| - i
  {
    if i < |cs| {
      var next := Resolve(g, memo, cs[i]);
      ResolveIdle(g, memo, cs[i]);
      if next[cs[i]] == [] {
        AnyLiveIdle(g, next, cs, i + 1);
        var (live, r) := AnyLive(g, next, cs, i + 1, false);
        if !live {
          IdleChain(g, memo, next, r);
        }
      }
    }
  }

  lemma {:induction false} IdleNeverWakes(g: Graph, memo: Memo, r: Memo, c: nat, n: nat)
    requires Idle(g, memo, r) && c in r && forall d :: d in memo ==> d in r && r[d] == memo[d]
    ensures !WakesIn(g, memo, c, n)
    decreases n
  {
    if WakesIn(g, memo, c, n) {
      assert IdleAt(g, r, c);
      var k :| 0 <= k < |g.combs[c].fields| && FieldWakesIn(g, memo, g.combs[c].fields[k], n);
      var t := g.combs[c].fields[k];
      assert Passive(g, r, t);
      var i :| 0 <= i < |g.members[t]| && AnsweredIn(g, memo, g.members[t][i], n - 1);
      assert EmptyAt(r, g.members[t][i]);
      IdleNeverWakes(g, memo, r, g.members[t][i], n - 1);
    }
  }

  // A list that is not empty: something wakes it.

  /** Of the lists attached since `memo`, those that are not empty are woken. */
  ghost predicate WokenSince(g: Graph, memo: Memo, r: Memo) {
    && (forall d :: d in memo ==> d in r && r[d] == memo[d])
    && forall d :: d in r && d !in memo && r[d] != [] ==> Wakes(g, memo, d)
  }

  lemma StepsToAnswer(g: Graph, memo: Memo, c: nat) returns (n: nat)
    requires Answered(g, memo, c)
    ensures AnsweredIn(g, memo, c, n)
  {
    if c in memo {
      n := 0;
    } else {
      n :| WakesIn(g, memo, c, n);
    }
  }

  lemma ListedIsWoken(g: Graph, memo: Memo, next: Memo, c: nat, k: nat)
    requires WokenSince(g, memo, next) && c in next && c !in memo && c < |g.combs| && g.combs[c].inTypes
    requires k < |g.combs[c].fields| && FieldWakes(g, memo, g.combs[c].fields[k])
    ensures WokenSince(g, memo, next[c := next[c] + [k]])
  {
    var t := g.combs[c].fields[k];
    if Direct(g, t) {
      assert FieldWakesIn(g, memo, t, 0);
      assert WakesIn(g, memo, c, 0);
    } else {
      var i :| 0 <= i < |g.members[t]| && Answered(g, memo, g.members[t][i]);
      var n := StepsToAnswer(g, memo, g.members[t][i]);
      assert FieldWakesIn(g, memo, t, n + 1);
      assert WakesIn(g, memo, c, n + 1);
    }
  }

  lemma {:induction false} ResolveWokenSince(g: Graph, memo: Memo, now: Memo, c: nat)
    requires g.Valid() && c < |g.combs| && WokenSince(g, memo, now)
    ensures WokenSince(g, memo, Resolve(g, now, c))
    decreases |Fresh(g, now)|, 0, 0
  {
    if c !in now {
      var started := now[c := []];
      FreshShrinks(g, now, started);
      assert c in Fresh(g, now);
      if g.combs[c].inTypes {
        ScanWokenSince(g, memo, started, c, 0);
      }
    }
  }

  lemma {:induction false} ScanWokenSince(g: Graph, memo: Memo, now: Memo, c: nat, k: nat)
    requires g.Valid() && c < |g.combs| && c in now && c !in memo && k <= |g.combs[c].fields| && g.combs[c].inTypes
    requires WokenSince(g, memo, now)
    ensures WokenSince(g, memo, Scan(g, now, c, k))
    decreases |Fresh(g, now)|, 2, |g.combs[c].fields| - k
  {
    if k < |g.combs[c].fields| {
      var t := g.combs[c].fields[k];
      var (live, next) := if Follows(g, t) then AnyLive(g, now, g.members[t], 0, false) else (false, now);
      var listed := if Direct(g, t) || live then next[c := next[c] + [k]] else next;
      FreshShrinks(g, next, listed);
      if Follows(g, t) {
        AnyLiveWokenSince(g, memo, now, g.members[t], 0, false);
      }
      if Direct(g, t) || live {
        ListedIsWoken(g, memo, next, c, k);
      }
      ScanWokenSince(g, memo, listed, c, k + 1);
    }
  }

  lemma {:induction false} AnyLiveWokenSince(g: Graph, memo: Memo, now: Memo, cs: seq<nat>, i: nat, live: bool)
    requires g.Valid() && i <= |cs| && forall j :: 0 <= j < |cs| ==> cs[j] < |g.combs|
    requires WokenSince(g, memo, now) && (live ==> exists j :: 0 <= j < |cs| && Answered(g, memo, cs[j]))
    ensures WokenSince(g, memo, AnyLive(g, now, cs, i, live).1)
    ensures AnyLive(g, now, cs, i, live).0 ==> exists j :: 0 <= j < |cs| && Answered(g, memo, cs[j])
    decreases |Fresh(g, now)|, 1, |cs| - i
  {
    if i < |cs| && !live {
      ResolveWokenSince(g, memo, now, cs[i]);
      var next := Resolve(g, now, cs[i]);
      if next[cs[i]] != [] {
        assert Answered(g, memo, cs[i]);
      }
      AnyLiveWokenSince(g, memo, next, cs, i + 1, next[cs[i]] != []);
    }
  }

  /** Whatever lists there are already, finished or in the making, cycles or not: a constructor without one gets a
      list that is not empty exactly when it is woken through others without one. */
  lemma AnswerDecides(g: Graph, memo: Memo, c: nat)
    requires g.Valid() && c < |g.combs| && c !in memo
    ensures Resolve(g, memo, c)[c] != [] <==> Wakes(g, memo, c)
  {
    var r := Resolve(g, memo, c);
    ResolveWokenSince(g, memo, memo, c);
    if r[c] == [] {
      ResolveIdle(g, memo, c);
      forall n: nat ensures !WakesIn(g, memo, c, n) {
        IdleNeverWakes(g, memo, r, c, n);
      }
    }
  }

  lemma {:induction false} ScanAppends(g: Graph, memo: Memo, c: nat, k: nat, j: nat)
    requires g.Valid() && c < |g.combs| && c in memo && k <= |g.combs[c].fields| && j < k
    ensures j in Scan(g, memo, c, k)[c] <==> j in memo[c]
    decreases |Fresh(g, memo)|, 2, |g.combs[c].fields| - k
  {
    if k < |g.combs[c].fields| {
      var t := g.combs[c].fields[k];
      var (live, next) := if Follows(g, t) then AnyLive(g, memo, g.members[t], 0, false) else (false, memo);
      var listed := if Direct(g, t) || live then next[c := next[c] + [k]] else next;
      FreshShrinks(g, next, listed);
      ScanAppends(g, listed, c, k + 1, j);
    }
  }

  lemma LiveIsAnswered(g: Graph, memo: Memo, cs: seq<nat>)
    requires g.Valid() && forall j :: 0 <= j < |cs| ==> cs[j] < |g.combs|
    ensures AnyLive(g, memo, cs, 0, false).0 <==> exists j :: 0 <= j < |cs| && Answered(g, memo, cs[j])
  {
    var (live, next) := AnyLive(g, memo, cs, 0, false);
    AnyLiveWokenSince(g, memo, memo, cs, 0, false);
    if !live {
      AnyLiveIdle(g, memo, cs, 0);
      forall j | 0 <= j < |cs| ensures !Answered(g, memo, cs[j]) {
        assert EmptyAt(next, cs[j]);
        forall n: nat ensures !WakesIn(g, memo, cs[j], n) {
          IdleNeverWakes(g, memo, next, cs[j], n);
        }
      }
    }
  }

  /** A field gets into the list exactly when it is woken by what is there as its turn comes. On a cycle it may reach
      context and not be woken: all it leads to have lists that are still empty. */
  lemma FieldIsListedExactly(g: Graph, memo: Memo, c: nat, k: nat)
    requires g.Valid() && c < |g.combs| && c in memo && k < |g.combs[c].fields| && k !in memo[c]
    ensures k in Scan(g, memo, c, k)[c] <==> FieldWakes(g, memo, g.combs[c].fields[k])
  {
    var t := g.combs[c].fields[k];
    var (live, next) := if Follows(g, t) then AnyLive(g, memo, g.members[t], 0, false) else (false, memo);
    var listed := if Direct(g, t) || live then next[c := next[c] + [k]] else next;
    if Follows(g, t) {
      LiveIsAnswered(g, memo, g.members[t]);
    }
    ScanAppends(g, listed, c, k + 1, k);
  }

  /** What the type of a field alone decides: a core type is never searched; one that needs context always is; and of
      the types that are not known, `Object` only. */
  ghost predicate ListedByType(g: Graph, t: string, listed: bool) {
    && (t in g.core ==> !listed)
    && (t !in g.core && t in g.members && t in g.need ==> listed)
    && (t !in g.core && t !in g.members ==> (listed <==> t == "Object"))
  }

  lemma {:induction false} ScanByType(g: Graph, memo: Memo, c: nat, j: nat, k: nat)
    requires g.Valid() && c < |g.combs| && c in memo && j <= k < |g.combs[c].fields| && k !in memo[c]
    ensures ListedByType(g, g.combs[c].fields[k], k in Scan(g, memo, c, j)[c])
    decreases k - j
  {
    var t := g.combs[c].fields[j];
    var (live, next) := if Follows(g, t) then AnyLive(g, memo, g.members[t], 0, false) else (false, memo);
    var listed := if Direct(g, t) || live then next[c := next[c] + [j]] else next;
    assert Scan(g, memo, c, j) == Scan(g, listed, c, j + 1);
    if j < k {
      ScanByType(g, listed, c, j + 1, k);
    } else {
      ScanAppends(g, listed, c, k + 1, k);
    }
  }

  lemma TypeDecides(g: Graph, memo: Memo, c: nat, k: nat)
    requires g.Valid() && c < |g.combs| && c !in memo && g.combs[c].inTypes && k < |g.combs[c].fields|
    ensures ListedByType(g, g.combs[c].fields[k], k in Resolve(g, memo, c)[c])
  {
    ScanByType(g, memo[c := []], c, 0, k);
  }

  lemma {:induction false} WakingIsLive(g: Graph, c: nat, n: nat)
    requires g.Valid()
    ensures WakesIn(g, map[], c, n) <==> LiveIn(g, c, n)
    decreases n
  {
    if n > 0 {
      var m := n - 1;
      forall d: nat ensures WakesIn(g, map[], d, m) <==> LiveIn(g, d, m) {
        WakingIsLive(g, d, m);
      }
    }
    forall k: nat
      ensures ReachesIn(g, c, k, n) <==>
        && c < |g.combs| && g.combs[c].inTypes && k < |g.combs[c].fields|
        && FieldWakesIn(g, map[], g.combs[c].fields[k], n)
    {
    }
  }

  /** Cycles or not, the constructor asked first has a list that is empty exactly when it needs nothing. */
  lemma FirstAnswerDecides(g: Graph, c: nat)
    requires g.Valid() && c < |g.combs|
    ensures Resolve(g, map[], c)[c] != [] <==> Live(g, c)
  {
    AnswerDecides(g, map[], c);
    if n: nat :| WakesIn(g, map[], c, n) {
      WakingIsLive(g, c, n);
      var k: nat :| ReachesIn(g, c, k, n);
      assert Reaches(g, c, k);
    }
    if k: nat :| Reaches(g, c, k) {
      var n: nat :| ReachesIn(g, c, k, n);
      WakingIsLive(g, c, n);
      assert WakesIn(g, map[], c, n);
    }
  }

  // ----- the whole analysis

  /** Code generation asks for the list of every constructor of a type in turn; functions have none. */
  function ResolveFrom(g: Graph, memo: Memo, c: nat): (r: Memo)
    requires g.Valid() && c <= |g.combs|
    ensures memo.Keys <= r.Keys && forall d :: c <= d < |g.combs| && g.combs[d].inTypes ==> d in r
    decreases |g.combs| - c
  {
    if c == |g.combs| then memo
    else ResolveFrom(g, if g.combs[c].inTypes then Resolve(g, memo, c) else memo, c + 1)
  }

  lemma {:induction false} ResolveFromSound(g: Graph, memo: Memo, c: nat)
    requires g.Valid() && c <= |g.combs| && Sound(g, memo)
    ensures Sound(g, ResolveFrom(g, memo, c))
    decreases |g.combs| - c
  {
    if c < |g.combs| {
      ResolveSound(g, memo, c);
      ResolveFromSound(g, if g.combs[c].inTypes then Resolve(g, memo, c) else memo, c + 1);
    }
  }

  lemma {:induction false} ResolveFromFull(g: Graph, part: set<nat>, memo: Memo, c: nat, rank: nat -> nat)
    requires g.Valid() && c <= |g.combs| && Ranked(g, part, rank) && FullExcept(g, part, memo, {})
    ensures FullExcept(g, part, ResolveFrom(g, memo, c), {})
    decreases |g.combs| - c
  {
    if c < |g.combs| {
      ResolveFull(g, part, memo, c, rank, {});
      ResolveFromFull(g, part, if g.combs[c].inTypes then Resolve(g, memo, c) else memo, c + 1, rank);
    }
  }

  /** On every graph each list names, in order, only fields that need context; the list of a constructor that has
      no cycle in reach names all of them, whatever cycles there are elsewhere. */
  lemma AnalysisIsExact(g: Graph)
    requires g.Valid()
    ensures Sound(g, ResolveFrom(g, map[], 0))
    ensures forall c: nat, rank :: c < |g.combs| && g.combs[c].inTypes && FallsFrom(g, c, rank) ==>
      forall k: nat :: k in ResolveFrom(g, map[], 0)[c] <==> Reaches(g, c, k)
  {
    var r := ResolveFrom(g, map[], 0);
    ResolveFromSound(g, map[], 0);
    forall c: nat, rank, k: nat | c < |g.combs| && g.combs[c].inTypes && FallsFrom(g, c, rank)
      ensures k in r[c] <==> Reaches(g, c, k)
    {
      OnwardIsRanked(g, c, rank);
      ResolveFromFull(g, Onward(g, c), map[], 0, rank);
      assert SoundAt(g, r, c) && FullAt(g, r, c);
    }
  }

  // ----- with a cycle a list may fall short

  /** Three types: a holds a b; b holds an a and a chat; a chat needs context. */
  function Loop(): Graph {
    Graph([Comb(true, ["B"]), Comb(true, ["A", "Chat"]), Comb(true, [])],
          map["A" := [0], "B" := [1], "Chat" := [2]], {}, {"Chat"})
  }

  lemma LoopFacts()
    ensures var g := Loop();
      && g.Valid() && |g.combs| == 3 && (forall c :: 0 <= c < 3 ==> g.combs[c].inTypes)
      && g.combs[0].fields == ["B"] && g.combs[1].fields == ["A", "Chat"] && g.combs[2].fields == []
      && Follows(g, "A") && Follows(g, "B") && Follows(g, "Chat")
      && !Direct(g, "A") && !Direct(g, "B") && Direct(g, "Chat")
      && g.members["A"] == [0] && g.members["B"] == [1] && g.members["Chat"] == [2]
  {
    assert "A"[0] != "B"[0] && |"Chat"| == 4;
  }

  lemma AskOne(g: Graph, memo: Memo, c: nat)
    requires g.Valid() && c < |g.combs|
    ensures AnyLive(g, memo, [c], 0, false) == (Resolve(g, memo, c)[c] != [], Resolve(g, memo, c))
  {
    var next := Resolve(g, memo, c);
    assert AnyLive(g, next, [c], 1, next[c] != []) == (next[c] != [], next);
  }

  lemma ScanStep(g: Graph, memo: Memo, c: nat, k: nat)
    requires g.Valid() && c < |g.combs| && c in memo && k < |g.combs[c].fields|
    requires Follows(g, g.combs[c].fields[k]) && |g.members[g.combs[c].fields[k]]| == 1
    ensures
      var t := g.combs[c].fields[k];
      var next := Resolve(g, memo, g.members[t][0]);
      Scan(g, memo, c, k)
      == Scan(g, if Direct(g, t) || next[g.members[t][0]] != [] then next[c := next[c] + [k]] else next, c, k + 1)
  {
    var t := g.combs[c].fields[k];
    assert g.members[t] == [g.members[t][0]];
    AskOne(g, memo, g.members[t][0]);
  }

  /** While the first constructor waits for the second, the second sees its list still empty. */
  lemma LoopSecond()
    ensures Loop().Valid() && Resolve(Loop(), map[0 := []], 1) == map[0 := [], 1 := [1], 2 := []]
  {
    LoopFacts();
    var g := Loop();
    var m1: Memo := map[0 := [], 1 := []];
    var m2: Memo := map[0 := [], 1 := [], 2 := []];
    var m3: Memo := map[0 := [], 1 := [1], 2 := []];
    assert m1[2 := []] == m2;
    assert Scan(g, m2, 2, 0) == m2;
    assert 2 !in m1;
    assert g.combs[2].inTypes;
    assert Resolve(g, m1, 2) == Scan(g, m1[2 := []], 2, 0);
    assert Resolve(g, m1, 2) == m2;
    assert m2[1] + [1] == [1];
    assert m2[1 := m2[1] + [1]] == m3;
    assert Scan(g, m3, 1, 2) == m3;
    ScanStep(g, m1, 1, 1);
    ScanStep(g, m1, 1, 0);
    assert map[0 := []][1 := []] == m1;
  }

  lemma LoopReaches()
    ensures Reaches(Loop(), 1, 0)
  {
    LoopFacts();
    var g := Loop();
    assert ReachesIn(g, 1, 1, 0);
    assert LiveIn(g, g.members["B"][0], 0);
    assert ReachesIn(g, 0, 0, 1);
    assert LiveIn(g, g.members["A"][0], 1);
    assert ReachesIn(g, 1, 0, 2);
  }

  /** The field of b that holds an a reaches a chat, yet b's list leaves it out; the list of a, on the same cycle,
      leaves out nothing. */
  lemma CycleLosesAField()
    ensures Loop().Valid() && Reaches(Loop(), 1, 0) && ResolveFrom(Loop(), map[], 0)[1] == [1]
    ensures ResolveFrom(Loop(), map[], 0)[0] == [0] && |Loop().combs[0].fields| == 1
  {
    LoopFacts();
    LoopSecond();
    LoopReaches();
    var g := Loop();
    var m0: Memo := map[0 := []];
    var m3: Memo := map[0 := [], 1 := [1], 2 := []];
    var m4: Memo := map[0 := [0], 1 := [1], 2 := []];
    assert Scan(g, m4, 0, 1) == m4;
    ScanStep(g, m0, 0, 0);
    assert m3[0] + [0] == [0];
    assert m3[0 := m3[0] + [0]] == m4;
    var none: Memo := map[];
    assert none[0 := []] == m0;
    assert Resolve(g, map[], 0) == m4;
    assert ResolveFrom(g, m4, 3) == m4;
    assert ResolveFrom(g, m4, 2) == m4;
    assert ResolveFrom(g, m4, 1) == m4;
  }

  // ----- the recursion over objects that carry their own lists

  class Combinator {
    const comb: Comb
    var fieldsForCheck: Option<seq<nat>>

    constructor (comb: Comb)
      ensures this.comb == comb && fieldsForCheck == None
    {
      this.comb := comb;
      fieldsForCheck := None;
    }
  }

  ghost predicate Linked(cs: seq<Combinator>, g: Graph) {
    && g.Valid() && |cs| == |g.combs|
    && (forall i :: 0 <= i < |cs| ==> cs[i].comb == g.combs[i])
    && (forall i, j :: 0 <= i < j < |cs| ==> cs[i] != cs[j])
  }

  function Attached(cs: seq<Combinator>): Memo
    reads cs
  {
    map i: nat | i < |cs| && cs[i].fieldsForCheck.Some? :: cs[i].fieldsForCheck.value
  }

  method Attach(cs: seq<Combinator>, g: Graph, c: nat, ks: seq<nat>)
    requires Linked(cs, g) && c < |cs|
    modifies cs[c]
    ensures Attached(cs) == old(Attached(cs))[c := ks]
  {
    cs[c].fieldsForCheck := Some(ks);
  }

  method ResolveFieldsForCheck(cs: seq<Combinator>, g: Graph, c: nat) returns (ks: seq<nat>)
    requires Linked(cs, g) && c < |cs|
    modifies set i | 0 <= i < |cs| :: cs[i]
    ensures Attached(cs) == Resolve(g, old(Attached(cs)), c)
    ensures ks == Attached(cs)[c]
    decreases |Fresh(g, Attached(cs))|
  {
    ghost var before := Attached(cs);
    if cs[c].fieldsForCheck.Some? {
      return cs[c].fieldsForCheck.value;
    }
    Attach(cs, g, c, []);
    ghost var started := before[c := []];
    FreshShrinks(g, before, started);
    assert c in Fresh(g, before);
    if !cs[c].comb.inTypes {
      return [];
    }
    var fields := cs[c].comb.fields;
    for k := 0 to |fields|
      invariant c in Attached(cs) && |Fresh(g, Attached(cs))| <= |Fresh(g, started)|
      invariant Scan(g, Attached(cs), c, k) == Scan(g, started, c, 0)
    {
      if fields[k] in g.core {
        continue;
      }
      if fields[k] !in g.members {
        if fields[k] == "Object" {
          AttachMore(cs, g, c, k);
        }
        continue;
      }
      ghost var here := Attached(cs);
      var asked, live := g.members[fields[k]], false;
      for i := 0 to |asked|
        invariant c in Attached(cs) && |Fresh(g, Attached(cs))| <= |Fresh(g, started)|
        invariant AnyLive(g, Attached(cs), asked, i, live) == AnyLive(g, here, asked, 0, false)
      {
        if !live {
          var list := ResolveFieldsForCheck(cs, g, asked[i]);
          live := list != [];
        }
      }
      if fields[k] in g.need || live {
        AttachMore(cs, g, c, k);
      }
    }
    return cs[c].fieldsForCheck.value;
  }

  method AttachMore(cs: seq<Combinator>, g: Graph, c: nat, k: nat)
    requires Linked(cs, g) && c < |cs| && c in Attached(cs)
    modifies cs[c]
    ensures Attached(cs) == old(Attached(cs)[c := Attached(cs)[c] + [k]])
    ensures |Fresh(g, Attached(cs))| <= |Fresh(g, old(Attached(cs)))|
  {
    cs[c].fieldsForCheck := Some(cs[c].fieldsForCheck.value + [k]);
    FreshShrinks(g, old(Attached(cs)), Attached(cs));
  }

  method AnalyzeAll(cs: seq<Combinator>, g: Graph)
    requires Linked(cs, g) && Attached(cs) == map[]
    modifies set i | 0 <= i < |cs| :: cs[i]
    ensures Attached(cs) == ResolveFrom(g, map[], 0)
  {
    for c := 0 to |cs|
      invariant ResolveFrom(g, Attached(cs), c) == ResolveFrom(g, map[], 0)
    {
      if cs[c].comb.inTypes {
        var _ := ResolveFieldsForCheck(cs, g, c);
      }
    }
  }
}
