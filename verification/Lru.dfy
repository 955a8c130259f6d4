/**
 The recency-ordered list that storage_memory.go keeps in container/list: index 0 is the
 front (most recently used), the last index is the back, where eviction takes place.

 Everything here is a value; MemoryCache and DiskCache prove that their in-place
 operations compute these functions, and the lemmas say what the functions mean.
 */
module Lru {
  import opened Basics

  datatype Item<K, V> = Item(key: K, value: V, cost: int)

  ghost predicate HasKey<K, V>(l: seq<Item<K, V>>, k: K) {
    exists i :: 0 <= i < |l| && l[i].key == k
  }

  ghost predicate Distinct<K, V>(l: seq<Item<K, V>>) {
    forall i, j :: 0 <= i < j < |l| ==> l[i].key != l[j].key
  }

  ghost predicate NonNegative<K, V>(l: seq<Item<K, V>>) {
    forall i :: 0 <= i < |l| ==> 0 <= l[i].cost
  }

  /** The sum of the costs, taken from the back. */
  function Cost<K, V>(l: seq<Item<K, V>>): int {
    if l == [] then 0 else Cost(l[..|l| - 1]) + l[|l| - 1].cost
  }

  function IndexOf<K(==), V>(l: seq<Item<K, V>>, k: K): (r: Option<nat>)
    ensures r.Some? ==> r.value < |l| && l[r.value].key == k
    ensures r.None? <==> !HasKey(l, k)
  {
    if l == [] then None
    else if l[0].key == k then Some(0)
    else
      var r := IndexOf(l[1..], k);
      assert forall i :: 0 < i < |l| ==> l[i] == l[1..][i - 1];
      if r.Some? then Some(r.value + 1) else None
  }

  function Lookup<K(==), V>(l: seq<Item<K, V>>, k: K): Option<V> {
    match IndexOf(l, k)
    case None => None
    case Some(i) => Some(l[i].value)
  }

  /** The list with the element of key k unlinked. */
  function Without<K(==), V>(l: seq<Item<K, V>>, k: K): seq<Item<K, V>> {
    if l == [] then []
    else if l[0].key == k then l[1..]
    else [l[0]] + Without(l[1..], k)
  }

  function Touch<K(==), V>(l: seq<Item<K, V>>, k: K): seq<Item<K, V>> {
    match IndexOf(l, k)
    case None => l
    case Some(i) => [l[i]] + Without(l, k)
  }

  /** Eviction by cost, one element at a time from the back. */
  function Fit<K, V>(l: seq<Item<K, V>>, cap: int): seq<Item<K, V>> {
    if l != [] && Cost(l) > cap then Fit(l[..|l| - 1], cap) else l
  }

  /** Eviction by cost when a limit is configured (zero or less means none is). */
  function FitIf<K, V>(l: seq<Item<K, V>>, cap: int): seq<Item<K, V>> {
    if cap > 0 then Fit(l, cap) else l
  }

  /** Eviction by count: room is made for one more element. */
  function Room<K, V>(l: seq<Item<K, V>>, count: int): seq<Item<K, V>> {
    if 0 < count <= |l| then l[..count - 1] else l
  }

  /** What MemoryCache.Put leaves behind, for a resident key and for a new one. */
  function AfterPut<K(==), V>(l: seq<Item<K, V>>, count: int, cap: int, item: Item<K, V>): seq<Item<K, V>> {
    if IndexOf(l, item.key).Some? then
      FitIf([item] + Without(l, item.key), cap)
    else
      [item] + FitIf(Room(l, count), cap)
  }

  lemma {:induction false} WithoutAt<K, V>(l: seq<Item<K, V>>, i: nat)
    requires Distinct(l) && i < |l|
    ensures Without(l, l[i].key) == l[..i] + l[i + 1..]
    ensures IndexOf(l, l[i].key) == Some(i)
    decreases i
  {
    if i > 0 {
      WithoutAt(l[1..], i - 1);
      assert l[..i] == [l[0]] + l[1..][..i - 1];
    }
  }

  lemma {:induction false} WithoutAbsent<K, V>(l: seq<Item<K, V>>, k: K)
    requires !HasKey(l, k)
    ensures Without(l, k) == l
  {
    if l != [] {
      assert forall i :: 0 <= i < |l[1..]| ==> l[1..][i] == l[i + 1];
      WithoutAbsent(l[1..], k);
    }
  }

  lemma {:induction false} CostConcat<K, V>(a: seq<Item<K, V>>, b: seq<Item<K, V>>)
    ensures Cost(a + b) == Cost(a) + Cost(b)
    decreases |b|
  {
    if b == [] {
      assert a + b == a;
    } else {
      CostConcat(a, b[..|b| - 1]);
      assert (a + b)[..|a + b| - 1] == a + b[..|b| - 1];
    }
  }

  lemma CostCons<K, V>(x: Item<K, V>, b: seq<Item<K, V>>)
    ensures Cost([x] + b) == x.cost + Cost(b)
  {
    CostConcat([x], b);
    assert [x][..0] == [];
  }

  lemma CostSplit<K, V>(l: seq<Item<K, V>>, i: nat)
    requires i < |l|
    ensures Cost(l[..i] + l[i + 1..]) == Cost(l) - l[i].cost
  {
    SplitAt(l, i);
    CostGap(l[..i], l[i], l[i + 1..]);
  }

  lemma CostGap<K, V>(a: seq<Item<K, V>>, x: Item<K, V>, b: seq<Item<K, V>>)
    ensures Cost(a + b) == Cost(a + ([x] + b)) - x.cost
  {
    CostConcat(a, [x] + b);
    CostCons(x, b);
    CostConcat(a, b);
  }

  lemma {:induction false} CostNonNegative<K, V>(l: seq<Item<K, V>>)
    requires NonNegative(l)
    ensures 0 <= Cost(l)
    ensures forall i :: 0 <= i < |l| ==> l[i].cost <= Cost(l)
  {
    if l != [] {
      CostNonNegative(l[..|l| - 1]);
    }
  }

  /** Eviction by cost removes the shortest tail that makes the rest fit, and the whole list when nothing fits. */
  ghost predicate ShortestTail<K, V>(l: seq<Item<K, V>>, cap: int, kept: nat) {
    && kept <= |l|
    && (kept == 0 || Cost(l[..kept]) <= cap)
    && forall m :: kept < m <= |l| ==> Cost(l[..m]) > cap
  }

  lemma FrontCost<K, V>(l: seq<Item<K, V>>, f: seq<Item<K, V>>)
    requires f <= l && NonNegative(l)
    ensures Cost(f) <= Cost(l)
  {
    assert l == f + l[|f|..];
    CostConcat(f, l[|f|..]);
    CostNonNegative(l[|f|..]);
  }

  lemma {:induction false} FitIsShortestTail<K, V>(l: seq<Item<K, V>>, cap: int)
    ensures |Fit(l, cap)| <= |l| && Fit(l, cap) == l[..|Fit(l, cap)|]
    ensures ShortestTail(l, cap, |Fit(l, cap)|)
  {
    if l != [] && Cost(l) > cap {
      var front := l[..|l| - 1];
      FitIsShortestTail(front, cap);
      assert forall m :: 0 <= m <= |front| ==> front[..m] == l[..m];
      assert l[..|l|] == l;
    } else {
      assert l[..|l|] == l;
    }
  }

  /** There is only one such tail, so Fit is determined by ShortestTail. */
  lemma ShortestTailUnique<K, V>(l: seq<Item<K, V>>, cap: int, kept: nat)
    requires ShortestTail(l, cap, kept)
    ensures Fit(l, cap) == l[..kept]
  {
    FitIsShortestTail(l, cap);
    var n := |Fit(l, cap)|;
    assert !(n < kept) && !(kept < n);
  }

  /** Whatever eviction keeps is the front of the list. */
  lemma EvictionKeepsFront<K, V>(l: seq<Item<K, V>>, count: int, cap: int)
    ensures FitIf(Room(l, count), cap) <= l
    ensures |FitIf(Room(l, count), cap)| <= |Room(l, count)|
  {
    FitIsShortestTail(Room(l, count), cap);
  }

  /**
   Exactly who survives an eviction: an element keeps its place if and only if the count leaves
   one for it and it fits together with everything in front of it.
   */
  lemma EvictionKeepsExactly<K, V>(l: seq<Item<K, V>>, count: int, cap: int, i: nat)
    requires NonNegative(l) && i < |l|
    ensures i < |Room(l, count)| <==> (count > 0 ==> i + 1 < count)
    ensures i < |Fit(l, cap)| <==> Cost(l[..i + 1]) <= cap
    ensures i < |FitIf(Room(l, count), cap)| <==>
            (count > 0 ==> i + 1 < count) && (cap > 0 ==> Cost(l[..i + 1]) <= cap)
  {
    FitKeepsExactly(l, cap, i);
    var r := Room(l, count);
    if i < |r| {
      assert r[..i + 1] == l[..i + 1] && forall j :: 0 <= j < |r| ==> r[j] == l[j];
      FitKeepsExactly(r, cap, i);
    } else {
      FitIsShortestTail(r, cap);
    }
  }

  lemma FitKeepsExactly<K, V>(l: seq<Item<K, V>>, cap: int, i: nat)
    requires NonNegative(l) && i < |l|
    ensures i < |Fit(l, cap)| <==> Cost(l[..i + 1]) <= cap
  {
    FitIsShortestTail(l, cap);
    var n := |Fit(l, cap)|;
    if i < n {
      assert forall j :: 0 <= j < n ==> l[..n][j] == l[j];
      assert l[..i + 1] <= l[..n];
      FrontCost(l[..n], l[..i + 1]);
    }
  }

  /** What a front of the list still answers for the element at i. */
  lemma LookupInFront<K, V>(l: seq<Item<K, V>>, f: seq<Item<K, V>>, i: nat)
    requires Distinct(l) && f <= l && i < |l|
    ensures Lookup(l, l[i].key) == Some(l[i].value)
    ensures Lookup(f, l[i].key) == if i < |f| then Some(l[i].value) else None
  {
    WithoutAt(l, i);
    if i < |f| {
      assert f[i] == l[i];
    }
    assert forall j :: 0 <= j < |f| ==> f[j] == l[j];
  }

  lemma GapKeepsDistinct<K, V>(l: seq<Item<K, V>>, i: nat, r: seq<Item<K, V>>)
    requires Distinct(l) && i < |l| && r == l[..i] + l[i + 1..]
    ensures Distinct(r) && !HasKey(r, l[i].key) && (NonNegative(l) ==> NonNegative(r))
  {
    assert forall j :: 0 <= j < i ==> r[j] == l[j];
    assert forall j :: i <= j < |r| ==> r[j] == l[j + 1];
  }

  lemma ConsKeepsDistinct<K, V>(x: Item<K, V>, r: seq<Item<K, V>>)
    requires Distinct(r) && !HasKey(r, x.key)
    ensures Distinct([x] + r) && (NonNegative(r) && 0 <= x.cost ==> NonNegative([x] + r))
  {
    var t := [x] + r;
    assert forall j :: 0 < j < |t| ==> t[j] == r[j - 1];
  }

  lemma PrefixKeepsDistinct<K, V>(l: seq<Item<K, V>>, f: seq<Item<K, V>>)
    requires Distinct(l) && f <= l
    ensures Distinct(f) && (NonNegative(l) ==> NonNegative(f))
    ensures forall k :: HasKey(f, k) ==> HasKey(l, k)
  {
    assert forall i :: 0 <= i < |f| ==> f[i] == l[i];
  }

  lemma RemovalKeepsDistinct<K, V>(l: seq<Item<K, V>>, k: K)
    requires Distinct(l)
    ensures Distinct(Without(l, k)) && !HasKey(Without(l, k), k) && Distinct(Touch(l, k))
    ensures NonNegative(l) ==> NonNegative(Without(l, k)) && NonNegative(Touch(l, k))
    ensures |Without(l, k)| <= |l| == |Touch(l, k)|
  {
    match IndexOf(l, k)
    case None =>
      WithoutAbsent(l, k);
    case Some(i) =>
      WithoutAt(l, i);
      var r := l[..i] + l[i + 1..];
      GapKeepsDistinct(l, i, r);
      ConsKeepsDistinct(l[i], r);
  }

  lemma RemovalCost<K, V>(l: seq<Item<K, V>>, k: K)
    requires Distinct(l)
    ensures Cost(Touch(l, k)) == Cost(l)
    ensures match IndexOf(l, k) {
              case None => Without(l, k) == l
              case Some(i) => Cost(Without(l, k)) == Cost(l) - l[i].cost
            }
  {
    match IndexOf(l, k)
    case None =>
      WithoutAbsent(l, k);
    case Some(i) =>
      WithoutAt(l, i);
      CostSplit(l, i);
      CostCons(l[i], Without(l, k));
  }
}
