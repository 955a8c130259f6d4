/**
 DiskCache of storage_disk.go: an LRU index with the disk size as its cost, wrapped by a
 cache that keeps its own two counters and evicts in batches before it inserts. The files
 below the base path are a map from directory name to directory contents.
 */
module DiskCaches {
  import opened Basics
  import opened Lru
  import opened MemoryCaches

  /** An index entry: where the files are and how many bytes they take. */
  datatype DiskItem<K> = DiskItem(path: K, size: int)

  type Index<K> = seq<Item<K, DiskItem<K>>>

  /** Index entries carry their size as their cost and live in a directory named after the key. */
  ghost predicate Sized<K>(l: Index<K>) {
    forall i :: 0 <= i < |l| ==> 0 <= l[i].cost == l[i].value.size && l[i].value.path == l[i].key
  }

  function DiskEntry<K>(key: K, size: int): Item<K, DiskItem<K>> {
    Item(key, DiskItem(key, size), size)
  }

  /** The entries that survive the eviction made before an insertion. */
  function Evicted<K>(l: Index<K>, maxCount: int, maxSize: int, needed: int): Index<K> {
    Room(if maxSize > 0 then Fit(l, maxSize - needed) else l, maxCount)
  }

  /** The index after Put: exactly one entry is added and nothing but the evicted tail leaves. */
  function AfterDiskPut<K(==)>(l: Index<K>, maxCount: int, maxSize: int, key: K, size: int): Index<K> {
    [DiskEntry(key, size)] + Without(Evicted(l, maxCount, maxSize, size), key)
  }

  /** The directories that are left once every entry that left the index was removed from disk. */
  function Prune<K(==), D>(files: map<K, D>, before: Index<K>, after: Index<K>): map<K, D> {
    map k | k in files && (IndexOf(before, k).None? || IndexOf(after, k).Some?) :: files[k]
  }

  lemma EvictedFacts<K>(l: Index<K>, maxCount: int, maxSize: int, needed: int)
    requires Sized(l) && needed >= 0
    ensures Evicted(l, maxCount, maxSize, needed) <= l
    ensures maxCount > 0 ==> |Evicted(l, maxCount, maxSize, needed)| < maxCount
    ensures maxSize > 0 && Evicted(l, maxCount, maxSize, needed) != [] ==>
              Cost(Evicted(l, maxCount, maxSize, needed)) <= maxSize - needed
  {
    var f := if maxSize > 0 then Fit(l, maxSize - needed) else l;
    FitIsShortestTail(l, maxSize - needed);
    FrontCost(f, Evicted(l, maxCount, maxSize, needed));
  }

  /**
   The inner cache is configured with the same limits, and its own eviction finds nothing
   left to do: inserting into the evicted index only adds the new entry. Hence no entry can
   leave the index without going through DiskCache.Delete, which removes its files.
   */
  lemma InnerEvictionNeverFires<K>(l: Index<K>, maxCount: int, maxSize: int, key: K, size: int)
    requires Sized(l) && Distinct(l) && size >= 0
    ensures AfterPut(Evicted(l, maxCount, maxSize, size), maxCount, maxSize, DiskEntry(key, size)) ==
            AfterDiskPut(l, maxCount, maxSize, key, size)
  {
    var e, item := Evicted(l, maxCount, maxSize, size), DiskEntry(key, size);
    EvictedFacts(l, maxCount, maxSize, size);
    CostCons(item, Without(e, key));
    match IndexOf(e, key)
    case Some(i) =>
      RemovalCost(e, key);
      FitsAlready([item] + Without(e, key), maxSize);
    case None =>
      WithoutAbsent(e, key);
      FitsAlready(e, maxSize);
      assert Room(e, maxCount) == e;
  }

  lemma FitsAlready<K>(l: Index<K>, cap: int)
    requires cap > 0 ==> l == [] || Cost(l) <= cap
    ensures FitIf(l, cap) == l
  {
  }

  class DiskCache<K(==), D> {
    const lru: MemoryCache<K, DiskItem<K>>
    const maxItemCount: int
    const maxDiskSize: int
    const maxItemSize: int
    var diskUsage: int
    var diskItemCount: int
    var files: map<K, D>

    ghost predicate Valid()
      reads this, lru
    {
      && lru.Valid() && Sized(lru.ll)
      && lru.capacityCount == maxItemCount && lru.capacityCost == maxDiskSize
      && diskUsage == lru.currentCost
      && diskItemCount == |lru.ll|
    }

    constructor (maxItemCount: int, maxDiskSize: int, maxItemSize: int)
      ensures Valid() && fresh(lru) && lru.ll == [] && files == map[]
      ensures this.maxItemCount == maxItemCount && this.maxDiskSize == maxDiskSize && this.maxItemSize == maxItemSize
    {
      this.maxItemCount, this.maxDiskSize, this.maxItemSize := maxItemCount, maxDiskSize, maxItemSize;
      lru := new MemoryCache(maxItemCount, maxDiskSize);
      diskUsage, diskItemCount, files := 0, 0, map[];
    }

    method Get(key: K) returns (item: Option<DiskItem<K>>)
      requires Valid()
      modifies lru
      ensures Valid() && lru.ll == Touch(old(lru.ll), key)
      ensures item == Lookup(old(lru.ll), key)
    {
      TouchSized(lru.ll, key);
      item := lru.Get(key);
    }

    method Put(key: K, size: int) returns (ok: bool)
      requires Valid() && size >= 0
      modifies this, lru
      ensures Valid()
      ensures ok == !(0 < maxItemSize < size)
      ensures !ok ==> lru.ll == old(lru.ll) && files == old(files)
      ensures ok ==> lru.ll == AfterDiskPut(old(lru.ll), maxItemCount, maxDiskSize, key, size)
      ensures ok ==> files == Prune(old(files), old(lru.ll), Evicted(old(lru.ll), maxItemCount, maxDiskSize, size))
    {
      if maxItemSize > 0 && size > maxItemSize {
        return false;
      }
      PutFacts(lru.ll, maxItemCount, maxDiskSize, key, size);
      CheckAndEvict(size);
      Insert(key, size, AfterDiskPut(old(lru.ll), maxItemCount, maxDiskSize, key, size));
      ok := true;
    }

    /** The insertion itself, once room has been made: the counters follow the entry replaced or added. */
    method Insert(key: K, size: int, ghost p: Index<K>)
      requires Valid() && AfterPut(lru.ll, maxItemCount, maxDiskSize, DiskEntry(key, size)) == p && Sized(p)
      requires match Lookup(lru.ll, key) {
                 case None => |p| == |lru.ll| + 1 && Cost(p) == Cost(lru.ll) + size
                 case Some(item) => |p| == |lru.ll| && Cost(p) == Cost(lru.ll) + (size - item.size)
               }
      modifies this`diskUsage, this`diskItemCount, lru
      ensures Valid() && lru.ll == p
    {
      var oldItem := lru.Peek(key);
      var existed := lru.Put(key, DiskItem(key, size), size);
      if oldItem.Some? {
        diskUsage := diskUsage + (size - oldItem.value.size);
      } else {
        diskUsage := diskUsage + size;
        diskItemCount := diskItemCount + 1;
      }
    }

    method Delete(key: K)
      requires Valid()
      modifies this, lru
      ensures Valid() && lru.ll == Without(old(lru.ll), key)
      ensures files == Prune(old(files), old(lru.ll), lru.ll)
    {
      var item := lru.Peek(key);
      if item.None? {
        WithoutAbsent(lru.ll, key);
        PruneSelf(files, lru.ll);
        return;
      }
      DeleteFacts(files, lru.ll, key);
      WithoutSized(lru.ll, key);
      lru.Delete(key);
      diskUsage := diskUsage - item.value.size;
      diskItemCount := diskItemCount - 1;
      files := files - {item.value.path};
    }

    method CheckAndEvict(neededSpace: int)
      requires Valid() && neededSpace >= 0
      modifies this, lru
      ensures Valid() && lru.ll == Evicted(old(lru.ll), maxItemCount, maxDiskSize, neededSpace)
      ensures files == Prune(old(files), old(lru.ll), lru.ll)
    {
      var currentUsage := diskUsage;
      var currentCount := diskItemCount;
      ghost var l := lru.ll;
      ghost var f := if maxDiskSize > 0 then Fit(l, maxDiskSize - neededSpace) else l;
      EvictionSteps(files, l, f, maxItemCount, maxDiskSize, neededSpace);
      if maxDiskSize > 0 && currentUsage + neededSpace > maxDiskSize {
        EvictForSpace(neededSpace);
      }
      assert lru.ll == f && files == Prune(old(files), l, f);
      if maxItemCount > 0 && currentCount >= maxItemCount {
        EvictForCount();
      }
    }

    /** Batches of ten keys, yet the tail removed is the one removed by evicting one at a time. */
    method EvictForSpace(neededSpace: int)
      requires Valid()
      modifies this, lru
      ensures Valid() && lru.ll == Fit(old(lru.ll), maxDiskSize - neededSpace)
      ensures files == Prune(old(files), old(lru.ll), lru.ll)
    {
      PruneSelf(files, lru.ll);
      var targetUsage := maxDiskSize - neededSpace;
      var currentUsage := diskUsage;
      if currentUsage <= targetUsage {
        return;
      }
      var size := lru.Size();
      ghost var fit := Fit(lru.ll, targetUsage);
      while currentUsage > targetUsage && size > 0
        invariant Evicting(old(files), old(lru.ll), targetUsage, fit)
        invariant currentUsage == diskUsage && size == |lru.ll|
        decreases |lru.ll|
      {
        currentUsage := EvictBatch(targetUsage, old(files), old(lru.ll), fit);
        size := lru.Size();
      }
    }

    /** A state on the way from the index ll0 to fit, what remains of it within targetUsage. */
    ghost predicate Evicting(files0: map<K, D>, ll0: Index<K>, targetUsage: int, fit: Index<K>)
      reads this, lru
    {
      Valid() && Distinct(ll0) && lru.ll <= ll0 && files == Prune(files0, ll0, lru.ll) &&
        Fit(lru.ll, targetUsage) == fit
    }

    /** The body of the outer loop of evictForSpace: one batch, which evicts at least one entry. */
    method EvictBatch(targetUsage: int, ghost files0: map<K, D>, ghost ll0: Index<K>, ghost fit: Index<K>)
      returns (currentUsage: int)
      requires Evicting(files0, ll0, targetUsage, fit) && lru.ll != [] && diskUsage > targetUsage
      modifies this, lru
      ensures Evicting(files0, ll0, targetUsage, fit) && |lru.ll| < |old(lru.ll)| && currentUsage == diskUsage
    {
      var lruKeys := lru.GetLRUKeys(10);
      ghost var batch := lru.ll;
      currentUsage := diskUsage;
      for i := 0 to |lruKeys|
        invariant Evicting(files0, ll0, targetUsage, fit) && currentUsage == diskUsage
        invariant |lru.ll| == |batch| - i && lru.ll <= batch
        invariant i == 0 ==> currentUsage > targetUsage
      {
        if currentUsage <= targetUsage {
          break;
        }
        assert lruKeys[i] == batch[|batch| - 1 - i].key;
        EvictOne(lruKeys[i], targetUsage, files0, ll0, fit);
        currentUsage := diskUsage;
      }
    }

    /** While the usage is above the target, deleting the back entry is a step of Fit. */
    method EvictOne(key: K, ghost targetUsage: int, ghost files0: map<K, D>, ghost ll0: Index<K>, ghost fit: Index<K>)
      requires Evicting(files0, ll0, targetUsage, fit) && diskUsage > targetUsage
      requires lru.ll != [] && key == lru.ll[|lru.ll| - 1].key
      modifies this, lru
      ensures Evicting(files0, ll0, targetUsage, fit) && lru.ll == old(lru.ll)[..|old(lru.ll)| - 1]
    {
      assert Fit(lru.ll, targetUsage) == Fit(lru.ll[..|lru.ll| - 1], targetUsage);
      DeleteBack(key, files0, ll0);
    }

    method EvictForCount()
      requires Valid() && maxItemCount > 0
      modifies this, lru
      ensures Valid() && lru.ll == Room(old(lru.ll), maxItemCount)
      ensures files == Prune(old(files), old(lru.ll), lru.ll)
    {
      PruneSelf(files, lru.ll);
      var currentCount := diskItemCount;
      if currentCount < maxItemCount {
        return;
      }
      var toEvict := currentCount - maxItemCount + 1;
      var lruKeys := lru.GetLRUKeys(toEvict);
      DeleteOldest(lruKeys, toEvict);
    }

    method DeleteOldest(lruKeys: seq<K>, toEvict: int)
      requires Valid() && |lruKeys| <= |lru.ll| && |lruKeys| <= toEvict
      requires forall j :: 0 <= j < |lruKeys| ==> lruKeys[j] == lru.ll[|lru.ll| - 1 - j].key
      modifies this, lru
      ensures Valid() && lru.ll == old(lru.ll)[..|old(lru.ll)| - |lruKeys|]
      ensures files == Prune(old(files), old(lru.ll), lru.ll)
    {
      PruneSelf(files, lru.ll);
      ghost var batch := lru.ll;
      var evicted := 0;
      for i := 0 to |lruKeys|
        invariant Valid() && evicted == i && lru.ll == batch[..|batch| - i]
        invariant files == Prune(old(files), batch, lru.ll)
      {
        assert lruKeys[i] == batch[|batch| - 1 - i].key;
        DeleteBack(lruKeys[i], old(files), batch);
        evicted := evicted + 1;
        if evicted >= toEvict {
          break;
        }
      }
    }

    /** One eviction step: the key of the back entry is deleted, with its files. */
    method DeleteBack(key: K, ghost files0: map<K, D>, ghost ll0: Index<K>)
      requires Valid() && lru.ll != [] && key == lru.ll[|lru.ll| - 1].key
      requires Distinct(ll0) && lru.ll <= ll0 && files == Prune(files0, ll0, lru.ll)
      modifies this, lru
      ensures Valid() && lru.ll == old(lru.ll)[..|old(lru.ll)| - 1]
      ensures files == Prune(files0, ll0, lru.ll)
    {
      WithoutAt(lru.ll, |lru.ll| - 1);
      PruneTwice(files0, ll0, lru.ll, lru.ll[..|lru.ll| - 1]);
      Delete(key);
    }
  }

  lemma TouchSized<K>(l: Index<K>, key: K)
    requires Distinct(l) && Sized(l)
    ensures Sized(Touch(l, key)) && |Touch(l, key)| == |l|
  {
    if IndexOf(l, key).Some? {
      WithoutAt(l, IndexOf(l, key).value);
    }
  }

  /** The length and the cost of the list without the entry being replaced or deleted. */
  lemma WithoutSized<K>(l: Index<K>, key: K)
    requires Distinct(l) && Sized(l)
    ensures Sized(Without(l, key))
    ensures Lookup(l, key).Some? ==> |Without(l, key)| == |l| - 1 &&
                                     Cost(Without(l, key)) == Cost(l) - Lookup(l, key).value.size
    ensures Lookup(l, key).None? ==> Without(l, key) == l
  {
    RemovalCost(l, key);
    match IndexOf(l, key)
    case Some(i) =>
      WithoutAt(l, i);
      GapKeepsSized(l, i, l[..i] + l[i + 1..]);
    case None =>
      WithoutAbsent(l, key);
  }

  lemma GapKeepsSized<K>(l: Index<K>, i: nat, r: Index<K>)
    requires Sized(l) && i < |l| && r == l[..i] + l[i + 1..]
    ensures Sized(r) && |r| == |l| - 1
  {
    assert forall j :: 0 <= j < i ==> r[j] == l[j];
    assert forall j :: i <= j < |r| ==> r[j] == l[j + 1];
  }

  lemma PruneSelf<K, D>(files: map<K, D>, l: Index<K>)
    ensures Prune(files, l, l) == files
  {
  }

  lemma EvictionSteps<K, D>(files: map<K, D>, l: Index<K>, f: Index<K>, maxCount: int, maxSize: int, needed: int)
    requires f == if maxSize > 0 then Fit(l, maxSize - needed) else l
    ensures Prune(files, l, l) == files && |f| <= |l|
    ensures Cost(l) + needed <= maxSize ==> f == l
    ensures Prune(Prune(files, l, f), f, Room(f, maxCount)) == Prune(files, l, Room(f, maxCount))
  {
    FitIsShortestTail(l, maxSize - needed);
    PruneTwice(files, l, f, Room(f, maxCount));
  }

  /** What Put finds after evicting, and what it must leave in the counters. */
  lemma PutFacts<K>(l: Index<K>, maxCount: int, maxSize: int, key: K, size: int)
    requires Distinct(l) && Sized(l) && size >= 0
    ensures var e, p := Evicted(l, maxCount, maxSize, size), AfterDiskPut(l, maxCount, maxSize, key, size);
            && AfterPut(e, maxCount, maxSize, DiskEntry(key, size)) == p
            && Sized(p)
            && match Lookup(e, key) {
                 case None => |p| == |e| + 1 && Cost(p) == Cost(e) + size
                 case Some(item) => |p| == |e| && Cost(p) == Cost(e) + (size - item.size)
               }
  {
    var e := Evicted(l, maxCount, maxSize, size);
    EvictedFacts(l, maxCount, maxSize, size);
    InnerEvictionNeverFires(l, maxCount, maxSize, key, size);
    WithoutSized(e, key);
    CostCons(DiskEntry(key, size), Without(e, key));
  }

  lemma DeleteFacts<K, D>(files: map<K, D>, l: Index<K>, key: K)
    requires Distinct(l) && Sized(l) && HasKey(l, key)
    ensures Sized(Without(l, key))
    ensures Lookup(l, key) == Some(DiskItem(key, Lookup(l, key).value.size))
    ensures Prune(files, l, Without(l, key)) == files - {key}
  {
    var i := IndexOf(l, key).value;
    WithoutAt(l, i);
    var r := l[..i] + l[i + 1..];
    GapKeepsSized(l, i, r);
    GapKeepsDistinct(l, i, r);
    forall k | k != key && HasKey(l, k) ensures HasKey(r, k) {
      GapKeepsOthers(l, i, r, k);
    }
  }

  lemma GapKeepsOthers<K>(l: Index<K>, i: nat, r: Index<K>, k: K)
    requires i < |l| && r == l[..i] + l[i + 1..] && HasKey(l, k) && k != l[i].key
    ensures HasKey(r, k)
  {
    var j :| 0 <= j < |l| && l[j].key == k;
    assert r[if j < i then j else j - 1] == l[j];
  }

  lemma PruneTwice<K, D>(files: map<K, D>, a: Index<K>, b: Index<K>, c: Index<K>)
    requires c <= b <= a
    ensures Prune(Prune(files, a, b), b, c) == Prune(files, a, c)
  {
    forall k | HasKey(c, k) ensures HasKey(b, k) && HasKey(a, k) {
      var i :| 0 <= i < |c| && c[i].key == k;
      assert b[i].key == k && a[i].key == k;
    }
  }
}
