/**
 What the two caches keep over any sequence of operations, stated on the lists that the
 methods of MemoryCache and DiskCache are proved to leave behind.
 */
module CacheLaws {
  import opened Basics
  import opened Lru
  import opened DiskCaches

  /** One call on a MemoryCache. */
  datatype Op<K, V> = GetOp(key: K) | PutOp(item: Item<K, V>) | DeleteOp(key: K)

  function Step<K(==), V>(l: seq<Item<K, V>>, count: int, cap: int, op: Op<K, V>): seq<Item<K, V>> {
    match op
    case GetOp(k) => Touch(l, k)
    case PutOp(item) => AfterPut(l, count, cap, item)
    case DeleteOp(k) => Without(l, k)
  }

  function Run<K(==), V>(count: int, cap: int, ops: seq<Op<K, V>>): seq<Item<K, V>> {
    if ops == [] then [] else Step(Run(count, cap, ops[..|ops| - 1]), count, cap, ops[|ops| - 1])
  }

  lemma RunOneMore<K, V>(count: int, cap: int, before: seq<Op<K, V>>, last: Op<K, V>, ops: seq<Op<K, V>>)
    requires ops == before + [last]
    ensures Run(count, cap, ops) == Step(Run(count, cap, before), count, cap, last)
  {
    assert ops[..|ops| - 1] == before;
  }

  /** The total fits, or fits once some single resident entry is left out. */
  ghost predicate FitsButOne<K, V>(l: seq<Item<K, V>>, cap: int) {
    Cost(l) <= cap || exists i :: 0 <= i < |l| && Cost(l) - l[i].cost <= cap
  }

  ghost predicate Bounded<K, V>(l: seq<Item<K, V>>, count: int, cap: int) {
    && Distinct(l) && NonNegative(l)
    && (count > 0 ==> |l| <= count)
    && (cap > 0 ==> FitsButOne(l, cap))
  }

  lemma WithoutKeepsBounds<K, V>(l: seq<Item<K, V>>, count: int, cap: int, k: K)
    requires Bounded(l, count, cap)
    ensures Bounded(Without(l, k), count, cap) && Bounded(Touch(l, k), count, cap)
  {
    RemovalKeepsDistinct(l, k);
    RemovalCost(l, k);
    if cap > 0 && Cost(l) > cap && IndexOf(l, k).Some? {
      var i, m := IndexOf(l, k).value, var m :| 0 <= m < |l| && Cost(l) - l[m].cost <= cap; m;
      WithoutAt(l, i);
      GapFits(l, i, m, l[..i] + l[i + 1..], cap);
    }
  }

  lemma GapFits<K, V>(l: seq<Item<K, V>>, i: nat, m: nat, r: seq<Item<K, V>>, cap: int)
    requires i < |l| && m < |l| && r == l[..i] + l[i + 1..] && Cost(l) - l[m].cost <= cap
    requires 0 <= l[i].cost && Cost(r) == Cost(l) - l[i].cost && Cost([l[i]] + r) == Cost(l)
    ensures FitsButOne(r, cap) && FitsButOne([l[i]] + r, cap)
  {
    var t := [l[i]] + r;
    assert t[if m < i then m + 1 else if m == i then 0 else m] == l[m];
    if m != i {
      assert r[if m < i then m else m - 1] == l[m];
      assert Cost(r) - l[m].cost <= cap;
    }
  }

  lemma FrontKeepsBounds<K, V>(l: seq<Item<K, V>>, f: seq<Item<K, V>>, cap: int)
    requires Distinct(l) && NonNegative(l) && f <= l
    ensures Distinct(f) && NonNegative(f) && Cost(f) <= Cost(l)
    ensures cap > 0 ==> Cost(Fit(f, cap)) <= cap
  {
    FrontCost(l, f);
    FitIsShortestTail(f, cap);
    var n := |Fit(f, cap)|;
    if n == 0 {
      assert Cost(f[..0]) == 0;
    }
  }

  lemma PutKeepsBounds<K, V>(l: seq<Item<K, V>>, count: int, cap: int, item: Item<K, V>)
    requires Bounded(l, count, cap) && 0 <= item.cost
    ensures Bounded(AfterPut(l, count, cap, item), count, cap)
  {
    if IndexOf(l, item.key).Some? {
      RemovalKeepsDistinct(l, item.key);
      WithoutAt(l, IndexOf(l, item.key).value);
      ConsKeepsDistinct(item, Without(l, item.key));
      FitKeepsBounds([item] + Without(l, item.key), count, cap);
    } else {
      var e := FitIf(Room(l, count), cap);
      EvictionKeepsFront(l, count, cap);
      FrontKeepsBounds(l, Room(l, count), cap);
      FrontKeepsBounds(l, e, cap);
      CostCons(item, e);
      assert ([item] + e)[0] == item;
    }
  }

  lemma FitKeepsBounds<K, V>(q: seq<Item<K, V>>, count: int, cap: int)
    requires Distinct(q) && NonNegative(q) && (count > 0 ==> |q| <= count)
    ensures Bounded(FitIf(q, cap), count, cap)
  {
    FitIsShortestTail(q, cap);
    FrontKeepsBounds(q, q, cap);
    FrontKeepsBounds(q, FitIf(q, cap), cap);
  }

  /** Over every sequence of calls from an empty cache both limits hold, the second up to one resident entry. */
  lemma {:induction false} RunStaysBounded<K, V>(count: int, cap: int, ops: seq<Op<K, V>>)
    requires Costed(ops)
    ensures Bounded(Run(count, cap, ops), count, cap)
  {
    if ops != [] {
      var before, op := ops[..|ops| - 1], ops[|ops| - 1];
      RunStaysBounded(count, cap, before);
      var l := Run(count, cap, before);
      match op
      case GetOp(k) => WithoutKeepsBounds(l, count, cap, k);
      case PutOp(item) => PutKeepsBounds(l, count, cap, item);
      case DeleteOp(k) => WithoutKeepsBounds(l, count, cap, k);
    }
  }

  /**
   Who survives a Put: a new key always, a resident key exactly when its new cost fits on its
   own; every other key keeps its value or is gone.
   */
  lemma PutSurvival<K, V>(l: seq<Item<K, V>>, count: int, cap: int, item: Item<K, V>, other: K)
    requires Distinct(l) && NonNegative(l) && 0 <= item.cost && other != item.key
    ensures Lookup(AfterPut(l, count, cap, item), item.key) ==
            if HasKey(l, item.key) && 0 < cap < item.cost then None else Some(item.value)
    ensures var r := Lookup(AfterPut(l, count, cap, item), other); r.None? || r == Lookup(l, other)
  {
    if IndexOf(l, item.key).Some? {
      var w := Without(l, item.key);
      RemovalKeepsDistinct(l, item.key);
      OverwriteSurvival(w, cap, item, other);
      LookupWithout(l, item.key, other);
    } else {
      var e := FitIf(Room(l, count), cap);
      EvictionKeepsFront(l, count, cap);
      LookupFront(l, e, other);
      LookupTail([item] + e, other);
    }
  }

  lemma OverwriteSurvival<K, V>(w: seq<Item<K, V>>, cap: int, item: Item<K, V>, other: K)
    requires NonNegative(w) && 0 <= item.cost && other != item.key && !HasKey(w, item.key)
    ensures Lookup(FitIf([item] + w, cap), item.key) == if 0 < cap < item.cost then None else Some(item.value)
    ensures var r := Lookup(FitIf([item] + w, cap), other); r.None? || r == Lookup(w, other)
  {
    var q := [item] + w;
    FitIsShortestTail(q, cap);
    if cap > 0 && item.cost > cap {
      NothingFits(item, w, cap);
    } else if cap > 0 {
      CostCons(item, []);
      assert q[..1] == [item] + [];
    }
    LookupFront(q, FitIf(q, cap), other);
    LookupTail(q, other);
    assert q[1..] == w;
  }

  /**
   Exactly who survives a Put. A new key costs an entry its place if and only if the count is
   used up by those in front of it and the new one, or the cost limit by itself and those in front
   of it; a resident key that is put again takes no place, and only its new cost weighs.
   */
  lemma PutKeepsExactly<K, V>(l: seq<Item<K, V>>, count: int, cap: int, item: Item<K, V>, i: nat)
    requires Distinct(l) && NonNegative(l) && 0 <= item.cost && i < |l| && l[i].key != item.key
    ensures var kept :=
              if HasKey(l, item.key) then cap > 0 ==> item.cost + Cost(Without(l[..i + 1], item.key)) <= cap
              else (count > 0 ==> i + 1 < count) && (cap > 0 ==> Cost(l[..i + 1]) <= cap);
            Lookup(AfterPut(l, count, cap, item), l[i].key) == if kept then Some(l[i].value) else None
  {
    match IndexOf(l, item.key)
    case None =>
      var e := FitIf(Room(l, count), cap);
      EvictionKeepsFront(l, count, cap);
      EvictionKeepsExactly(l, count, cap, i);
      LookupInFront(l, e, i);
      LookupTail([item] + e, l[i].key);
    case Some(r) =>
      WithoutAt(l, r);
      FrontWithout(l, r, i);
      OverwriteKeepsExactly(l, r, l[..r] + l[r + 1..], cap, item, i);
  }

  lemma OverwriteKeepsExactly<K, V>(l: seq<Item<K, V>>, r: nat, w: seq<Item<K, V>>, cap: int, item: Item<K, V>, i: nat)
    requires Distinct(l) && NonNegative(l) && 0 <= item.cost && i < |l| && i != r < |l|
    requires l[r].key == item.key && w == l[..r] + l[r + 1..]
    ensures var kept := cap > 0 ==> item.cost + Cost(w[..if i < r then i + 1 else i]) <= cap;
            Lookup(FitIf([item] + w, cap), l[i].key) == if kept then Some(l[i].value) else None
  {
    GapKeepsDistinct(l, r, w);
    ConsKeepsDistinct(item, w);
    var at := if i < r then i + 1 else i;
    var q := [item] + w;
    assert q[at] == l[i];
    assert q[..at + 1] == [item] + w[..at];
    CostCons(item, w[..at]);
    FitIsShortestTail(q, cap);
    FitKeepsExactly(q, cap, at);
    LookupInFront(q, FitIf(q, cap), at);
  }

  lemma FrontWithout<K, V>(l: seq<Item<K, V>>, r: nat, i: nat)
    requires Distinct(l) && r < |l| && i < |l| && i != r
    ensures Without(l[..i + 1], l[r].key) == (l[..r] + l[r + 1..])[..if i < r then i + 1 else i]
  {
    var f := l[..i + 1];
    PrefixKeepsDistinct(l, f);
    if i < r {
      assert !HasKey(f, l[r].key);
      WithoutAbsent(f, l[r].key);
    } else {
      WithoutAt(f, r);
    }
    FrontOfGap(l, r, i);
  }

  lemma FrontOfGap<T>(l: seq<T>, r: nat, i: nat)
    requires r < |l| && i < |l| && i != r
    ensures i < r ==> l[..i + 1] == (l[..r] + l[r + 1..])[..i + 1]
    ensures r < i ==> l[..i + 1][..r] + l[..i + 1][r + 1..] == (l[..r] + l[r + 1..])[..i]
  {
  }

  /** Over every run: nobody leaves for the count below the limit, and at the limit only the back entry does. */
  lemma RunEvictsOnlyTheBack<K, V>(count: int, ops: seq<Op<K, V>>, item: Item<K, V>, i: nat)
    requires Costed(ops)
    requires 0 <= item.cost && i < |Run(count, 0, ops)| && !HasKey(Run(count, 0, ops), item.key)
    ensures var l := Run(count, 0, ops);
            Lookup(Run(count, 0, ops + [PutOp(item)]), l[i].key) ==
            if 0 < count == |l| && i == |l| - 1 then None else Lookup(l, l[i].key)
  {
    var l := Run(count, 0, ops);
    RunStaysBounded(count, 0, ops);
    RunOneMore(count, 0, ops, PutOp(item), ops + [PutOp(item)]);
    PutKeepsExactly(l, count, 0, item, i);
    LookupInFront(l, l, i);
  }

  function Named<K, V>(op: Op<K, V>): K {
    match op
    case GetOp(k) => k
    case PutOp(item) => item.key
    case DeleteOp(k) => k
  }

  /** The keys that some calls look up or store. */
  ghost function Used<K, V>(ops: seq<Op<K, V>>): set<K> {
    set i | 0 <= i < |ops| && !ops[i].DeleteOp? :: Named(ops[i])
  }

  /** The key is resident, and every key in front of it is one of those used. */
  ghost predicate Behind<K, V>(l: seq<Item<K, V>>, k: K, used: set<K>) {
    match IndexOf(l, k)
    case None => false
    case Some(p) => forall j :: 0 <= j < p ==> l[j].key in used
  }

  lemma {:induction false} FrontIsSmall<K, V>(l: seq<Item<K, V>>, p: nat, used: set<K>)
    requires Distinct(l) && p <= |l| && forall j :: 0 <= j < p ==> l[j].key in used
    ensures p <= |used|
  {
    if p > 0 {
      FrontIsSmall(l, p - 1, used - {l[p - 1].key});
    }
  }

  lemma BehindPush<K, V>(w: seq<Item<K, V>>, x: Item<K, V>, k: K, used: set<K>)
    requires Distinct(w) && Behind(w, k, used) && x.key != k
    ensures Behind([x] + w, k, used + {x.key}) && Lookup([x] + w, k) == Lookup(w, k)
  {
    LookupTail([x] + w, k);
    assert ([x] + w)[1..] == w;
    assert forall j :: 0 < j <= |w| ==> ([x] + w)[j] == w[j - 1];
  }

  lemma BehindWithout<K, V>(l: seq<Item<K, V>>, gone: K, k: K, used: set<K>)
    requires Distinct(l) && Behind(l, k, used) && gone != k
    ensures Distinct(Without(l, gone)) && Behind(Without(l, gone), k, used)
    ensures Lookup(Without(l, gone), k) == Lookup(l, k)
  {
    RemovalKeepsDistinct(l, gone);
    LookupWithout(l, gone, k);
    match IndexOf(l, gone)
    case None =>
      WithoutAbsent(l, gone);
    case Some(r) =>
      WithoutAt(l, r);
      var p := IndexOf(l, k).value;
      BehindGap(l, r, p, l[..r] + l[r + 1..], used);
  }

  lemma BehindGap<K, V>(l: seq<Item<K, V>>, r: nat, p: nat, w: seq<Item<K, V>>, used: set<K>)
    requires r < |l| && p < |l| && r != p && w == l[..r] + l[r + 1..] && Distinct(w)
    requires forall j :: 0 <= j < p ==> l[j].key in used
    ensures Behind(w, l[p].key, used)
  {
    var q := if p < r then p else p - 1;
    assert w[q] == l[p];
    WithoutAt(w, q);
    assert forall j :: 0 <= j < q ==> w[j] == l[if j < r then j else j + 1];
  }

  /** The eviction for the count spares a key that few enough others stand in front of. */
  lemma BehindRoom<K, V>(l: seq<Item<K, V>>, count: int, k: K, used: set<K>)
    requires Distinct(l) && Behind(l, k, used) && (0 < count <= |l| ==> |used| + 1 < count)
    ensures Distinct(Room(l, count)) && Behind(Room(l, count), k, used)
    ensures Lookup(Room(l, count), k) == Lookup(l, k)
  {
    var p, f := IndexOf(l, k).value, Room(l, count);
    FrontIsSmall(l, p, used);
    PrefixKeepsDistinct(l, f);
    LookupInFront(l, f, p);
    assert f[p] == l[p];
    WithoutAt(f, p);
  }

  /** A call that does not name the key moves it back by no more than the key it uses. */
  lemma StepKeepsBehind<K, V>(l: seq<Item<K, V>>, count: int, op: Op<K, V>, k: K, used: set<K>, after: set<K>)
    requires Distinct(l) && (count > 0 ==> |l| <= count) && Behind(l, k, used) && Named(op) != k
    requires after == used + (if op.DeleteOp? then {} else {Named(op)}) && (count > 0 ==> |after| < count)
    ensures Behind(Step(l, count, 0, op), k, after)
    ensures Lookup(Step(l, count, 0, op), k) == Lookup(l, k)
  {
    match op
    case GetOp(k2) =>
      if IndexOf(l, k2).Some? {
        BehindWithout(l, k2, k, used);
        BehindPush(Without(l, k2), l[IndexOf(l, k2).value], k, used);
      }
    case PutOp(item) =>
      if IndexOf(l, item.key).Some? {
        BehindWithout(l, item.key, k, used);
        BehindPush(Without(l, item.key), item, k, used);
      } else {
        NewKeySpares(l, count, item.key, k, used);
        BehindPush(Room(l, count), item, k, used);
      }
    case DeleteOp(k2) =>
      BehindWithout(l, k2, k, used);
  }

  /** A new key is one more than those in front, so that the back entry is another one. */
  lemma NewKeySpares<K, V>(l: seq<Item<K, V>>, count: int, new_: K, k: K, used: set<K>)
    requires Distinct(l) && (count > 0 ==> |l| <= count) && Behind(l, k, used) && !HasKey(l, new_)
    requires count > 0 ==> |used + {new_}| < count
    ensures Distinct(Room(l, count)) && Behind(Room(l, count), k, used)
    ensures Lookup(Room(l, count), k) == Lookup(l, k)
  {
    var p, f := IndexOf(l, k).value, Room(l, count);
    FrontIsSmall(l, p, used - {new_});
    assert used + {new_} == (used - {new_}) + {new_};
    PrefixKeepsDistinct(l, f);
    LookupInFront(l, f, p);
    assert f[p] == l[p];
    WithoutAt(f, p);
  }

  ghost predicate Spares<K, V>(ops: seq<Op<K, V>>, k: K) {
    forall i :: 0 <= i < |ops| ==> Named(ops[i]) != k
  }

  ghost predicate Costed<K, V>(ops: seq<Op<K, V>>) {
    forall i :: 0 <= i < |ops| && ops[i].PutOp? ==> 0 <= ops[i].item.cost
  }

  /**
   What least recently used means, over every run without a cost limit: an entry is there and
   unchanged after its last use as long as fewer other keys were used since than the cache holds.
   */
  lemma {:induction false} UsedKeySurvives<K, V>(count: int, first: seq<Op<K, V>>, k: K, later: seq<Op<K, V>>)
    requires Costed(first) && Costed(later) && first != [] && Named(first[|first| - 1]) == k
    requires Lookup(Run(count, 0, first), k).Some?
    requires Spares(later, k)
    requires count > 0 ==> |Used(later)| < count
    ensures Lookup(Run(count, 0, first + later), k) == Lookup(Run(count, 0, first), k)
    ensures Behind(Run(count, 0, first + later), k, Used(later))
    decreases |later|
  {
    if later == [] {
      assert first + later == first;
      UseMovesToFront(count, first);
    } else {
      var earlier, last := later[..|later| - 1], later[|later| - 1];
      OneFewer(first, k, later, earlier, last);
      UsedOneMore(later, earlier);
      UsedKeySurvives(count, first, k, earlier);
      CallKeepsBehind(count, first + earlier, last, first + later, k, Used(earlier), Used(later));
    }
  }

  lemma OneFewer<K, V>(first: seq<Op<K, V>>, k: K, later: seq<Op<K, V>>, earlier: seq<Op<K, V>>, last: Op<K, V>)
    requires Costed(first) && Costed(later) && Spares(later, k)
    requires later != [] && earlier == later[..|later| - 1] && last == later[|later| - 1]
    ensures Costed(earlier) && Costed(first + earlier) && Spares(earlier, k) && Named(last) != k
    ensures first + later == (first + earlier) + [last]
  {
    assert later == earlier + [last];
    Regroup(first, earlier, [last]);
    assert forall i :: 0 <= i < |earlier| ==> earlier[i] == later[i];
  }

  lemma CallKeepsBehind<K, V>(
    count: int, before: seq<Op<K, V>>, last: Op<K, V>, ops: seq<Op<K, V>>, k: K, used: set<K>, after: set<K>)
    requires ops == before + [last] && Costed(before) && Behind(Run(count, 0, before), k, used) && Named(last) != k
    requires after == used + (if last.DeleteOp? then {} else {Named(last)}) && (count > 0 ==> |after| < count)
    ensures Behind(Run(count, 0, ops), k, after)
    ensures Lookup(Run(count, 0, ops), k) == Lookup(Run(count, 0, before), k)
  {
    RunOneMore(count, 0, before, last, ops);
    RunStaysBounded(count, 0, before);
    StepKeepsBehind(Run(count, 0, before), count, last, k, used, after);
  }

  lemma UsedOneMore<K, V>(ops: seq<Op<K, V>>, before: seq<Op<K, V>>)
    requires ops != [] && before == ops[..|ops| - 1]
    ensures var last := ops[|ops| - 1]; Used(ops) == Used(before) + (if last.DeleteOp? then {} else {Named(last)})
    ensures |Used(before)| <= |Used(ops)|
  {
    var last := ops[|ops| - 1];
    forall k | k in Used(ops) ensures k in Used(before) || (!last.DeleteOp? && k == Named(last)) {
      var j :| 0 <= j < |ops| && !ops[j].DeleteOp? && Named(ops[j]) == k;
      assert j < |before| ==> before[j] == ops[j];
    }
    forall k | k in Used(before) ensures k in Used(ops) {
      var j :| 0 <= j < |before| && !before[j].DeleteOp? && Named(before[j]) == k;
      assert ops[j] == before[j];
    }
    SmallerSet(Used(before), Used(ops));
  }

  lemma {:induction false} SmallerSet<K>(a: set<K>, b: set<K>)
    requires a <= b
    ensures |a| <= |b|
  {
    if a != {} {
      var x :| x in a;
      SmallerSet(a - {x}, b - {x});
    }
  }

  lemma UseMovesToFront<K, V>(count: int, ops: seq<Op<K, V>>)
    requires Costed(ops) && ops != [] && Lookup(Run(count, 0, ops), Named(ops[|ops| - 1])).Some?
    ensures Behind(Run(count, 0, ops), Named(ops[|ops| - 1]), {})
  {
    var l, op := Run(count, 0, ops[..|ops| - 1]), ops[|ops| - 1];
    RunStaysBounded(count, 0, ops[..|ops| - 1]);
    if op.DeleteOp? {
      LookupWithout(l, op.key, op.key);
    }
  }

  lemma NothingFits<K, V>(item: Item<K, V>, w: seq<Item<K, V>>, cap: int)
    requires NonNegative(w) && 0 <= cap < item.cost
    ensures Fit([item] + w, cap) == []
  {
    var q := [item] + w;
    forall m | 0 < m <= |q| ensures Cost(q[..m]) > cap {
      assert q[..m] == [item] + w[..m - 1];
      CostCons(item, w[..m - 1]);
      CostNonNegative(w[..m - 1]);
    }
    ShortestTailUnique(q, cap, 0);
  }

  lemma LookupTail<K, V>(q: seq<Item<K, V>>, k: K)
    requires q != [] && q[0].key != k
    ensures Lookup(q, k) == Lookup(q[1..], k)
  {
  }

  lemma {:induction false} LookupFront<K, V>(l: seq<Item<K, V>>, f: seq<Item<K, V>>, k: K)
    requires f <= l
    ensures Lookup(f, k).None? || Lookup(f, k) == Lookup(l, k)
    decreases |f|
  {
    if f != [] && f[0].key != k {
      LookupFront(l[1..], f[1..], k);
      LookupTail(f, k);
      LookupTail(l, k);
    }
  }

  lemma {:induction false} LookupWithout<K, V>(l: seq<Item<K, V>>, k: K, other: K)
    requires Distinct(l)
    ensures other != k ==> Lookup(Without(l, k), other) == Lookup(l, other)
    ensures Lookup(Without(l, k), k).None?
  {
    if l != [] {
      if l[0].key == k {
        assert !HasKey(l[1..], k);
      } else {
        LookupWithout(l[1..], k, other);
        LookupTail(Without(l, k), k);
        if l[0].key != other {
          LookupTail(Without(l, k), other);
        }
      }
    }
  }

  lemma LookupTouch<K, V>(l: seq<Item<K, V>>, k: K, other: K)
    requires Distinct(l)
    ensures Lookup(Touch(l, k), other) == Lookup(l, other)
  {
    match IndexOf(l, k)
    case None =>
    case Some(i) =>
      WithoutAt(l, i);
      LookupWithout(l, k, other);
      if other != k {
        LookupTail(Touch(l, k), other);
      }
  }

  /** One call on a DiskCache. */
  datatype DiskOp<K> = DiskGet(key: K) | DiskPut(key: K, size: int) | DiskDelete(key: K)

  function DiskStep<K(==)>(l: Index<K>, maxCount: int, maxSize: int, maxItem: int, op: DiskOp<K>): Index<K> {
    match op
    case DiskGet(k) => Touch(l, k)
    case DiskPut(k, size) => if 0 < maxItem < size then l else AfterDiskPut(l, maxCount, maxSize, k, size)
    case DiskDelete(k) => Without(l, k)
  }

  function DiskRun<K(==)>(maxCount: int, maxSize: int, maxItem: int, ops: seq<DiskOp<K>>): Index<K> {
    if ops == [] then []
    else DiskStep(DiskRun(maxCount, maxSize, maxItem, ops[..|ops| - 1]), maxCount, maxSize, maxItem, ops[|ops| - 1])
  }

  lemma DiskRunOneMore<K>(
    maxCount: int, maxSize: int, maxItem: int, before: seq<DiskOp<K>>, last: DiskOp<K>, ops: seq<DiskOp<K>>)
    requires ops == before + [last]
    ensures DiskRun(maxCount, maxSize, maxItem, ops) ==
            DiskStep(DiskRun(maxCount, maxSize, maxItem, before), maxCount, maxSize, maxItem, last)
  {
    assert ops[..|ops| - 1] == before;
  }

  ghost predicate DiskBounded<K>(l: Index<K>, maxCount: int, maxSize: int) {
    && Distinct(l) && Sized(l)
    && (maxCount > 0 ==> |l| <= maxCount)
    && (maxSize > 0 ==> Cost(l) <= maxSize)
  }

  /**
   Over every sequence of calls, if each stored item fits the cache on its own, the number
   of items and the bytes they take stay within their positive limits.
   */
  lemma {:induction false} DiskRunStaysBounded<K>(maxCount: int, maxSize: int, maxItem: int, ops: seq<DiskOp<K>>)
    requires forall i :: 0 <= i < |ops| && ops[i].DiskPut? ==>
             0 <= ops[i].size && (maxSize > 0 ==> ops[i].size <= maxSize)
    ensures DiskBounded(DiskRun(maxCount, maxSize, maxItem, ops), maxCount, maxSize)
  {
    if ops != [] {
      var before, op := ops[..|ops| - 1], ops[|ops| - 1];
      DiskRunStaysBounded(maxCount, maxSize, maxItem, before);
      var l := DiskRun(maxCount, maxSize, maxItem, before);
      match op
      case DiskGet(k) =>
        TouchSized(l, k);
        DiskWithoutBounded(l, maxCount, maxSize, k);
      case DiskPut(k, size) =>
        if !(0 < maxItem < size) {
          DiskPutBounded(l, maxCount, maxSize, k, size);
        }
      case DiskDelete(k) =>
        DiskWithoutBounded(l, maxCount, maxSize, k);
    }
  }

  lemma DiskWithoutBounded<K>(l: Index<K>, maxCount: int, maxSize: int, k: K)
    requires DiskBounded(l, maxCount, maxSize)
    ensures DiskBounded(Without(l, k), maxCount, maxSize) && !HasKey(Without(l, k), k)
    ensures Cost(Touch(l, k)) == Cost(l) && Distinct(Touch(l, k))
  {
    RemovalKeepsDistinct(l, k);
    RemovalCost(l, k);
    WithoutSized(l, k);
  }

  lemma DiskPutBounded<K>(l: Index<K>, maxCount: int, maxSize: int, k: K, size: int)
    requires DiskBounded(l, maxCount, maxSize) && 0 <= size && (maxSize > 0 ==> size <= maxSize)
    ensures DiskBounded(AfterDiskPut(l, maxCount, maxSize, k, size), maxCount, maxSize)
  {
    var e := Evicted(l, maxCount, maxSize, size);
    EvictedFacts(l, maxCount, maxSize, size);
    PutFacts(l, maxCount, maxSize, k, size);
    PrefixKeepsDistinct(l, e);
    RemovalKeepsDistinct(e, k);
    ConsKeepsDistinct(DiskEntry(k, size), Without(e, k));
    EvictedCost(e, k, AfterDiskPut(l, maxCount, maxSize, k, size), maxSize, size);
  }

  /**
   Exactly who survives a Put on disk, and whose files: room is made before the key is looked at,
   so the entry of another key leaves even when the key put is resident and needs no place.
   */
  lemma DiskPutKeepsExactly<K, D>(
    files: map<K, D>, l: Index<K>, maxCount: int, maxSize: int, key: K, size: int, i: nat)
    requires Distinct(l) && Sized(l) && 0 <= size && i < |l| && l[i].key != key
    ensures var kept := (maxCount > 0 ==> i + 1 < maxCount) && (maxSize > 0 ==> Cost(l[..i + 1]) <= maxSize - size);
            && Lookup(AfterDiskPut(l, maxCount, maxSize, key, size), l[i].key) ==
               (if kept then Some(l[i].value) else None)
            && (l[i].key in Prune(files, l, Evicted(l, maxCount, maxSize, size)) <==> kept && l[i].key in files)
  {
    var e := Evicted(l, maxCount, maxSize, size);
    EvictedFacts(l, maxCount, maxSize, size);
    EvictedExactly(l, maxCount, maxSize, size, i);
    PrefixKeepsDistinct(l, e);
    LookupInFront(l, e, i);
    BeforeTheNew(e, DiskEntry(key, size), l[i].key);
  }

  lemma EvictedExactly<K>(l: Index<K>, maxCount: int, maxSize: int, needed: int, i: nat)
    requires Sized(l) && i < |l|
    ensures i < |Evicted(l, maxCount, maxSize, needed)| <==>
            (maxCount > 0 ==> i + 1 < maxCount) && (maxSize > 0 ==> Cost(l[..i + 1]) <= maxSize - needed)
  {
    FitIsShortestTail(l, maxSize - needed);
    FitKeepsExactly(l, maxSize - needed, i);
  }

  lemma BeforeTheNew<K, V>(e: seq<Item<K, V>>, item: Item<K, V>, other: K)
    requires Distinct(e) && other != item.key
    ensures Lookup([item] + Without(e, item.key), other) == Lookup(e, other)
  {
    LookupWithout(e, item.key, other);
    LookupTail([item] + Without(e, item.key), other);
    assert ([item] + Without(e, item.key))[1..] == Without(e, item.key);
  }

  /**
   Over every run without a size limit, whatever directories there are: at the count limit only
   the back entry leaves, and its files; below it nothing does.
   */
  lemma DiskRunEvictsOnlyTheBack<K, D>(
    maxCount: int, maxItem: int, ops: seq<DiskOp<K>>, files: map<K, D>, key: K, size: int, i: nat)
    requires DiskCosted(ops)
    requires 0 <= size && !(0 < maxItem < size)
    requires i < |DiskRun(maxCount, 0, maxItem, ops)| && DiskRun(maxCount, 0, maxItem, ops)[i].key != key
    ensures var l := DiskRun(maxCount, 0, maxItem, ops);
            var leaves := 0 < maxCount == |l| && i == |l| - 1;
            && Lookup(DiskRun(maxCount, 0, maxItem, ops + [DiskPut(key, size)]), l[i].key) ==
               (if leaves then None else Lookup(l, l[i].key))
            && (l[i].key in Prune(files, l, Evicted(l, maxCount, 0, size)) <==> !leaves && l[i].key in files)
  {
    var l := DiskRun(maxCount, 0, maxItem, ops);
    DiskRunStaysBounded(maxCount, 0, maxItem, ops);
    DiskRunOneMore(maxCount, 0, maxItem, ops, DiskPut(key, size), ops + [DiskPut(key, size)]);
    DiskPutKeepsExactly(files, l, maxCount, 0, key, size, i);
    LookupInFront(l, l, i);
  }

  /** A resident entry put again when the cache is full costs another entry its place. */
  lemma OverwriteEvictsAnother()
    ensures var ops := [DiskPut('a', 1), DiskPut('b', 1)];
            && Lookup(DiskRun(2, 0, 0, ops), 'a').Some?
            && Lookup(DiskRun(2, 0, 0, ops + [DiskPut('b', 1)]), 'a').None?
  {
    var none: Index<char> := [];
    var one, two := [DiskEntry('a', 1)], [DiskEntry('b', 1), DiskEntry('a', 1)];
    var ops := [DiskPut('a', 1), DiskPut('b', 1)];
    assert ops[..1] == [DiskPut('a', 1)] && ops[..1][..0] == [];
    assert DiskRun(2, 0, 0, ops[..1]) == one;
    assert DiskRun(2, 0, 0, ops) == two;
    DiskRunEvictsOnlyTheBack(2, 0, ops, map['a' := 0], 'b', 1, 1);
  }

  ghost function DiskUsed<K>(ops: seq<DiskOp<K>>): set<K> {
    set i | 0 <= i < |ops| && !ops[i].DiskDelete? :: ops[i].key
  }

  lemma DiskStepKeepsBehind<K>(
    l: Index<K>, maxCount: int, maxItem: int, op: DiskOp<K>, k: K, used: set<K>, after: set<K>)
    requires Distinct(l) && Behind(l, k, used) && op.key != k
    requires after == used + (if op.DiskDelete? then {} else {op.key}) && |used| <= |after|
    requires maxCount > 0 ==> |after| + 1 < maxCount
    ensures Behind(DiskStep(l, maxCount, 0, maxItem, op), k, after)
    ensures Lookup(DiskStep(l, maxCount, 0, maxItem, op), k) == Lookup(l, k)
  {
    match op
    case DiskGet(k2) =>
      if IndexOf(l, k2).Some? {
        BehindWithout(l, k2, k, used);
        BehindPush(Without(l, k2), l[IndexOf(l, k2).value], k, used);
      }
    case DiskPut(k2, size) =>
      if !(0 < maxItem < size) {
        var e := Room(l, maxCount);
        BehindRoom(l, maxCount, k, used);
        BehindWithout(e, k2, k, used);
        BehindPush(Without(e, k2), DiskEntry(k2, size), k, used);
      }
    case DiskDelete(k2) =>
      BehindWithout(l, k2, k, used);
  }

  /**
   The same for the disk, where an overwrite makes room as well: one other key fewer may be used,
   and OverwriteEvictsAnother shows that it is one fewer.
   */
  lemma {:induction false} DiskUsedKeySurvives<K>(
    maxCount: int, maxItem: int, first: seq<DiskOp<K>>, k: K, later: seq<DiskOp<K>>)
    requires DiskCosted(first) && DiskCosted(later) && first != [] && UsesOnDisk(first[|first| - 1], k, maxItem)
    requires Lookup(DiskRun(maxCount, 0, maxItem, first), k).Some?
    requires DiskSpares(later, k)
    requires maxCount > 0 ==> |DiskUsed(later)| + 1 < maxCount
    ensures Lookup(DiskRun(maxCount, 0, maxItem, first + later), k) == Lookup(DiskRun(maxCount, 0, maxItem, first), k)
    ensures Behind(DiskRun(maxCount, 0, maxItem, first + later), k, DiskUsed(later))
    decreases |later|
  {
    if later == [] {
      assert first + later == first;
      DiskUseMovesToFront(maxCount, maxItem, first, k);
    } else {
      var earlier, last := later[..|later| - 1], later[|later| - 1];
      DiskOneFewer(first, k, later, earlier, last);
      DiskUsedOneMore(later, earlier);
      DiskUsedKeySurvives(maxCount, maxItem, first, k, earlier);
      var used, after := DiskUsed(earlier), DiskUsed(later);
      DiskCallKeepsBehind(maxCount, maxItem, first + earlier, last, first + later, k, used, after);
    }
  }

  lemma DiskOneFewer<K>(
    first: seq<DiskOp<K>>, k: K, later: seq<DiskOp<K>>, earlier: seq<DiskOp<K>>, last: DiskOp<K>)
    requires DiskCosted(first) && DiskCosted(later) && DiskSpares(later, k)
    requires later != [] && earlier == later[..|later| - 1] && last == later[|later| - 1]
    ensures DiskCosted(earlier) && DiskCosted(first + earlier) && DiskSpares(earlier, k) && last.key != k
    ensures first + later == (first + earlier) + [last]
  {
    assert later == earlier + [last];
    Regroup(first, earlier, [last]);
    assert forall i :: 0 <= i < |earlier| ==> earlier[i] == later[i];
  }

  lemma DiskCallKeepsBehind<K>(
    maxCount: int, maxItem: int, before: seq<DiskOp<K>>, last: DiskOp<K>, ops: seq<DiskOp<K>>, k: K,
    used: set<K>, after: set<K>)
    requires ops == before + [last] && DiskCosted(before) && last.key != k
    requires Behind(DiskRun(maxCount, 0, maxItem, before), k, used)
    requires after == used + (if last.DiskDelete? then {} else {last.key}) && |used| <= |after|
    requires maxCount > 0 ==> |after| + 1 < maxCount
    ensures Behind(DiskRun(maxCount, 0, maxItem, ops), k, after)
    ensures Lookup(DiskRun(maxCount, 0, maxItem, ops), k) == Lookup(DiskRun(maxCount, 0, maxItem, before), k)
  {
    DiskRunOneMore(maxCount, 0, maxItem, before, last, ops);
    DiskRunStaysBounded(maxCount, 0, maxItem, before);
    DiskStepKeepsBehind(DiskRun(maxCount, 0, maxItem, before), maxCount, maxItem, last, k, used, after);
  }

  ghost predicate DiskSpares<K>(ops: seq<DiskOp<K>>, k: K) {
    forall i :: 0 <= i < |ops| ==> ops[i].key != k
  }

  /** A call that moves the key to the front: a lookup, or a Put of an item that is not too large. */
  ghost predicate UsesOnDisk<K>(op: DiskOp<K>, k: K, maxItem: int) {
    op.key == k && !op.DiskDelete? && (op.DiskPut? ==> !(0 < maxItem < op.size))
  }

  ghost predicate DiskCosted<K>(ops: seq<DiskOp<K>>) {
    forall i :: 0 <= i < |ops| && ops[i].DiskPut? ==> 0 <= ops[i].size
  }

  lemma DiskUseMovesToFront<K>(maxCount: int, maxItem: int, ops: seq<DiskOp<K>>, k: K)
    requires ops != [] && UsesOnDisk(ops[|ops| - 1], k, maxItem) && Lookup(DiskRun(maxCount, 0, maxItem, ops), k).Some?
    ensures Behind(DiskRun(maxCount, 0, maxItem, ops), k, {})
  {
    var l := DiskRun(maxCount, 0, maxItem, ops[..|ops| - 1]);
    assert DiskRun(maxCount, 0, maxItem, ops) == DiskStep(l, maxCount, 0, maxItem, ops[|ops| - 1]);
  }

  lemma DiskUsedOneMore<K>(ops: seq<DiskOp<K>>, before: seq<DiskOp<K>>)
    requires ops != [] && before == ops[..|ops| - 1]
    ensures var last := ops[|ops| - 1];
            DiskUsed(ops) == DiskUsed(before) + (if last.DiskDelete? then {} else {last.key})
    ensures |DiskUsed(before)| <= |DiskUsed(ops)|
  {
    var last := ops[|ops| - 1];
    forall k | k in DiskUsed(ops) ensures k in DiskUsed(before) || (!last.DiskDelete? && k == last.key) {
      var j :| 0 <= j < |ops| && !ops[j].DiskDelete? && ops[j].key == k;
      assert j < |before| ==> before[j] == ops[j];
    }
    forall k | k in DiskUsed(before) ensures k in DiskUsed(ops) {
      var j :| 0 <= j < |before| && !before[j].DiskDelete? && before[j].key == k;
      assert ops[j] == before[j];
    }
    SmallerSet(DiskUsed(before), DiskUsed(ops));
  }

  lemma EvictedCost<K>(e: Index<K>, k: K, p: Index<K>, maxSize: int, size: int)
    requires Sized(e) && 0 <= size && (maxSize > 0 ==> size <= maxSize) &&
             (maxSize > 0 && e != [] ==> Cost(e) <= maxSize - size)
    requires match Lookup(e, k) {
               case None => Cost(p) == Cost(e) + size
               case Some(item) => Cost(p) == Cost(e) + (size - item.size)
             }
    ensures maxSize > 0 ==> Cost(p) <= maxSize
  {
  }
}
