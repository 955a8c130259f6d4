/**
 MemoryCache of storage_memory.go. The recency list, the map into it and the running cost
 are three separate fields, as in the source; Valid() says that they agree, and every method
 states the list it leaves behind as a function of the one it found.
 */
module MemoryCaches {
  import opened Basics
  import opened Lru

  /** The list and the map hold the same entries, each key once. */
  ghost predicate Linked<K, V>(ll: seq<Item<K, V>>, cache: map<K, Item<K, V>>) {
    && Distinct(ll)
    && (forall i :: 0 <= i < |ll| ==> ll[i].key in cache && cache[ll[i].key] == ll[i])
    && (forall k :: k in cache ==> HasKey(ll, k))
  }

  lemma LinkedRemove<K, V>(ll: seq<Item<K, V>>, cache: map<K, Item<K, V>>, i: nat)
    requires Linked(ll, cache) && i < |ll|
    ensures Linked(ll[..i] + ll[i + 1..], cache - {ll[i].key})
  {
    var l', c' := ll[..i] + ll[i + 1..], cache - {ll[i].key};
    assert forall j :: 0 <= j < |l'| ==> l'[j] == ll[if j < i then j else j + 1];
    forall k | k in c' ensures HasKey(l', k) {
      var j :| 0 <= j < |ll| && ll[j].key == k;
      assert l'[if j < i then j else j - 1].key == k;
    }
  }

  lemma LinkedPush<K, V>(ll: seq<Item<K, V>>, cache: map<K, Item<K, V>>, item: Item<K, V>)
    requires Linked(ll, cache) && item.key !in cache
    ensures Linked([item] + ll, cache[item.key := item])
  {
    var l', c' := [item] + ll, cache[item.key := item];
    assert l'[0] == item;
    assert forall j :: 0 < j < |l'| ==> l'[j] == ll[j - 1];
    forall k | k in c' ensures HasKey(l', k) {
      if k != item.key {
        var j :| 0 <= j < |ll| && ll[j].key == k;
        assert l'[j + 1].key == k;
      }
    }
  }

  /** The list, the map and the counter describe the same entries. */
  ghost predicate Agree<K, V>(ll: seq<Item<K, V>>, cache: map<K, Item<K, V>>, cost: int) {
    Linked(ll, cache) && cost == Cost(ll)
  }

  lemma AgreeRemove<K, V>(ll: seq<Item<K, V>>, cache: map<K, Item<K, V>>, cost: int, k: K)
    requires Agree(ll, cache, cost) && k in cache
    ensures Agree(Without(ll, k), cache - {k}, cost - cache[k].cost)
    ensures |Without(ll, k)| == |ll| - 1
    ensures Lookup(ll, k) == Some(cache[k].value) && Touch(ll, k) == [cache[k]] + Without(ll, k)
  {
    var i :| 0 <= i < |ll| && ll[i].key == k;
    WithoutAt(ll, i);
    CostSplit(ll, i);
    LinkedRemove(ll, cache, i);
  }

  lemma AgreePush<K, V>(ll: seq<Item<K, V>>, cache: map<K, Item<K, V>>, cost: int, item: Item<K, V>)
    requires Agree(ll, cache, cost) && item.key !in cache
    ensures Agree([item] + ll, cache[item.key := item], cost + item.cost)
  {
    CostCons(item, ll);
    LinkedPush(ll, cache, item);
  }

  lemma {:induction false} AgreeSize<K, V>(ll: seq<Item<K, V>>, cache: map<K, Item<K, V>>, cost: int)
    requires Agree(ll, cache, cost)
    ensures |cache| == |ll|
    decreases |ll|
  {
    if ll == [] {
      assert cache == map[];
    } else {
      var k := ll[0].key;
      AgreeRemove(ll, cache, cost, k);
      AgreeSize(Without(ll, k), cache - {k}, cost - cache[k].cost);
      assert cache.Keys == (cache - {k}).Keys + {k};
    }
  }

  class MemoryCache<K(==), V> {
    const capacityCount: int
    const capacityCost: int
    var ll: seq<Item<K, V>>
    var cache: map<K, Item<K, V>>
    var currentCost: int

    ghost predicate Valid()
      reads this
    {
      Agree(ll, cache, currentCost)
    }

    constructor (capacityCount: int, capacityCost: int)
      ensures Valid() && ll == []
      ensures this.capacityCount == capacityCount && this.capacityCost == capacityCost
    {
      this.capacityCount, this.capacityCost := capacityCount, capacityCost;
      ll, cache, currentCost := [], map[], 0;
    }

    method Size() returns (n: nat)
      requires Valid()
      ensures n == |ll|
    {
      AgreeSize(ll, cache, currentCost);
      n := |cache|;
    }

    method Get(key: K) returns (r: Option<V>)
      requires Valid()
      modifies this`ll
      ensures Valid() && ll == Touch(old(ll), key)
      ensures r == Lookup(old(ll), key)
    {
      r := None;
      if key in cache {
        var elem := cache[key];
        MoveToFront(elem);
        r := Some(elem.value);
      }
    }

    method Peek(key: K) returns (r: Option<V>)
      requires Valid()
      ensures r == Lookup(ll, key)
    {
      if key in cache {
        AgreeRemove(ll, cache, currentCost, key);
        r := Some(cache[key].value);
      } else {
        r := None;
      }
    }

    method MoveToFront(elem: Item<K, V>)
      requires Valid() && elem.key in cache && cache[elem.key] == elem
      modifies this`ll
      ensures Valid() && ll == Touch(old(ll), elem.key) == [elem] + Without(old(ll), elem.key)
      ensures Lookup(old(ll), elem.key) == Some(elem.value)
    {
      AgreeRemove(ll, cache, currentCost, elem.key);
      AgreePush(Without(ll, elem.key), cache - {elem.key}, currentCost - elem.cost, elem);
      assert (cache - {elem.key})[elem.key := elem] == cache;
      ll := [elem] + Without(ll, elem.key);
    }

    method Put(key: K, value: V, cost: int) returns (existed: bool)
      requires Valid()
      modifies this
      ensures Valid()
      ensures ll == AfterPut(old(ll), capacityCount, capacityCost, Item(key, value, cost))
      ensures existed == Lookup(old(ll), key).Some?
    {
      if key in cache {
        var elem := cache[key];
        MoveToFront(elem);
        Overwrite(Item(key, value, cost));
        EvictByCost();
        return true;
      }
      EvictionKeepsFront(ll, capacityCount, capacityCost);
      CheckAndEvict();
      PushFront(Item(key, value, cost));
      return false;
    }

    /** The resident front element takes a new value and cost; the cost is re-counted. */
    method Overwrite(item: Item<K, V>)
      requires Valid() && ll != [] && ll[0].key == item.key
      modifies this
      ensures Valid() && ll == [item] + old(ll)[1..]
    {
      AgreeRemove(ll, cache, currentCost, item.key);
      AgreePush(ll[1..], cache - {item.key}, currentCost - cache[item.key].cost, item);
      assert (cache - {item.key})[item.key := item] == cache[item.key := item];
      currentCost := currentCost - cache[item.key].cost + item.cost;
      cache := cache[item.key := item];
      ll := [item] + ll[1..];
    }

    method PushFront(item: Item<K, V>)
      requires Valid() && item.key !in cache
      modifies this
      ensures Valid() && ll == [item] + old(ll)
    {
      AgreePush(ll, cache, currentCost, item);
      ll := [item] + ll;
      cache := cache[item.key := item];
      currentCost := currentCost + item.cost;
    }

    method Delete(key: K)
      requires Valid()
      modifies this
      ensures Valid() && ll == Without(old(ll), key)
    {
      if key in cache {
        RemoveElement(cache[key]);
      } else {
        WithoutAbsent(ll, key);
      }
    }

    method RemoveElement(e: Item<K, V>)
      requires Valid() && e.key in cache && cache[e.key] == e
      modifies this
      ensures Valid() && ll == Without(old(ll), e.key) && |ll| == |old(ll)| - 1
    {
      AgreeRemove(ll, cache, currentCost, e.key);
      ll := Without(ll, e.key);
      cache := cache - {e.key};
      currentCost := currentCost - e.cost;
    }

    /** Unlinks the back element. */
    method RemoveBack()
      requires Valid() && ll != []
      modifies this
      ensures Valid() && ll == old(ll)[..|old(ll)| - 1]
    {
      var back := ll[|ll| - 1];
      WithoutAt(ll, |ll| - 1);
      RemoveElement(back);
    }

    method EvictByCount()
      requires Valid()
      modifies this
      ensures Valid() && ll == Room(old(ll), capacityCount)
    {
      if capacityCount <= 0 {
        return;
      }
      while |ll| >= capacityCount
        invariant Valid() && |ll| <= |old(ll)| && ll == old(ll)[..|ll|]
        invariant |ll| >= capacityCount - 1 || |ll| == |old(ll)|
      {
        RemoveBack();
      }
    }

    method EvictByCost()
      requires Valid()
      modifies this
      ensures Valid() && ll == FitIf(old(ll), capacityCost)
    {
      if capacityCost <= 0 {
        return;
      }
      while currentCost > capacityCost && |ll| > 0
        invariant Valid() && Fit(ll, capacityCost) == Fit(old(ll), capacityCost)
        decreases |ll|
      {
        RemoveBack();
      }
    }

    method CheckAndEvict()
      requires Valid()
      modifies this
      ensures Valid() && ll == FitIf(Room(old(ll), capacityCount), capacityCost)
    {
      EvictByCount();
      EvictByCost();
    }

    /** Up to limit keys, oldest first. */
    method GetLRUKeys(limit: nat) returns (keys: seq<K>)
      requires Valid()
      ensures |keys| == if limit < |ll| then limit else |ll|
      ensures forall j :: 0 <= j < |keys| ==> keys[j] == ll[|ll| - 1 - j].key
    {
      keys := [];
      var e := |ll|;
      while e > 0 && |keys| < limit
        invariant 0 <= e <= |ll| && |keys| == |ll| - e <= limit
        invariant forall j :: 0 <= j < |keys| ==> keys[j] == ll[|ll| - 1 - j].key
      {
        e := e - 1;
        keys := keys + [ll[e].key];
      }
    }
  }
}
