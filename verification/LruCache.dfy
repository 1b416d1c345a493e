/** The weighted LRU cache: a map from keys to values and serials, a map from serials to keys,
and a running cost.  Every method is proved against the recency list of module `LruLists`. */
module LruCaches {
  import opened Arithmetic
  import opened LruLists
  import opened Options

  datatype CacheValue<+V> = CacheValue(aux: V, serial: nat)

  /** The two maps of the cache and the next serial, with the recency list they stand for and its serials. */
  datatype Table<K, V> = Table(cache: map<K, CacheValue<V>>, lru: map<nat, K>, nextSerial: nat,
                               order: seq<nat>, items: seq<Item<K, V>>)

  ghost predicate Increasing(order: seq<nat>, nextSerial: nat) {
    && (forall i, j | 0 <= i < j < |order| :: order[i] < order[j])
    && (forall i | 0 <= i < |order| :: order[i] < nextSerial)
  }

  ghost predicate Linked<K, V>(cache: map<K, CacheValue<V>>, lru: map<nat, K>, serial: nat, item: Item<K, V>) {
    && serial in lru && lru[serial] == item.key
    && item.key in cache && cache[item.key] == CacheValue(item.value, serial)
  }

  /** The two maps hold exactly the entries of `items`, whose serials are `order`, increasing. */
  ghost predicate Represents<K(!new), V>(cache: map<K, CacheValue<V>>, lru: map<nat, K>, nextSerial: nat,
                                         order: seq<nat>, items: seq<Item<K, V>>)
  {
    && |order| == |items|
    && Increasing(order, nextSerial)
    && (forall i | 0 <= i < |order| :: Linked(cache, lru, order[i], items[i]))
    && (forall s | s in lru :: s in order)
    && (forall k | k in cache :: cache[k].serial in lru && lru[cache[k].serial] == k)
  }

  ghost predicate Faithful<K(!new), V>(t: Table<K, V>) {
    Represents(t.cache, t.lru, t.nextSerial, t.order, t.items)
  }

  /** The fields of a cache are those of a table that represents its list, with the cost of that list. */
  ghost predicate Stands<K(!new), V>(cost: V -> nat, t: Table<K, V>, cache: map<K, CacheValue<V>>, lru: map<nat, K>,
                                     nextSerial: nat, charge: nat)
  {
    Faithful(t) && cache == t.cache && lru == t.lru && nextSerial == t.nextSerial && charge == Cost(cost, t.items)
  }

  lemma RepresentsDistinct<K(!new), V>(cache: map<K, CacheValue<V>>, lru: map<nat, K>, nextSerial: nat,
                                 order: seq<nat>, items: seq<Item<K, V>>)
    requires Represents(cache, lru, nextSerial, order, items)
    ensures Distinct(items)
    ensures forall k :: k in cache <==> Has(items, k)
  {
    forall i, j | 0 <= i < j < |items|
      ensures items[i].key != items[j].key
    {
      assert Linked(cache, lru, order[i], items[i]) && Linked(cache, lru, order[j], items[j]);
    }
    forall k
      ensures k in cache <==> Has(items, k)
    {
      if k in cache {
        var i :| 0 <= i < |order| && order[i] == cache[k].serial;
        assert Linked(cache, lru, order[i], items[i]);
      }
      if Has(items, k) {
        var i :| 0 <= i < |items| && items[i].key == k;
        assert Linked(cache, lru, order[i], items[i]);
      }
    }
  }

  /** Increasing sequences of the same serials are equal. */
  lemma {:induction false} IncreasingUnique(a: seq<nat>, b: seq<nat>, m: nat, n: nat)
    requires Increasing(a, m) && Increasing(b, n)
    requires (forall s | s in a :: s in b) && (forall s | s in b :: s in a)
    ensures a == b
    decreases |a|
  {
    assert (b != [] ==> b[0] in a) && (a != [] ==> a[0] in b);
    if a != [] && b != [] {
      var x, y := |a| - 1, |b| - 1;
      assert a[x] in b && b[y] in a;
      assert a[x] == b[y];
      var c, d := a[..x], b[..y];
      forall s
        ensures s in c <==> s in d
      {
        assert s in a <==> s in c || s == a[x];
        assert s in b <==> s in d || s == b[y];
        assert a[x] !in c && b[y] !in d;
      }
      IncreasingUnique(c, d, m, n);
    }
  }

  lemma SerialsResident<K(!new), V>(cache: map<K, CacheValue<V>>, lru: map<nat, K>, nextSerial: nat,
                                    order: seq<nat>, items: seq<Item<K, V>>, s: nat)
    requires Represents(cache, lru, nextSerial, order, items)
    ensures s in order <==> s in lru
  {
    if s in order {
      var i :| 0 <= i < |order| && order[i] == s;
      assert Linked(cache, lru, order[i], items[i]);
    }
  }

  /** The maps determine the list they represent. */
  lemma RepresentsOne<K(!new), V>(cache: map<K, CacheValue<V>>, lru: map<nat, K>, nextSerial: nat,
                                  order: seq<nat>, items: seq<Item<K, V>>, order1: seq<nat>, items1: seq<Item<K, V>>)
    requires Represents(cache, lru, nextSerial, order, items) && Represents(cache, lru, nextSerial, order1, items1)
    ensures order == order1 && items == items1
  {
    forall s
      ensures s in order <==> s in order1
    {
      SerialsResident(cache, lru, nextSerial, order, items, s);
      SerialsResident(cache, lru, nextSerial, order1, items1, s);
    }
    IncreasingUnique(order, order1, nextSerial, nextSerial);
    forall i | 0 <= i < |items|
      ensures items[i] == items1[i]
    {
      assert Linked(cache, lru, order[i], items[i]) && Linked(cache, lru, order1[i], items1[i]);
    }
  }

  function RemoveAt<T>(s: seq<T>, i: nat): (r: seq<T>)
    requires i < |s|
    ensures |r| == |s| - 1
    ensures forall j | 0 <= j < |r| :: r[j] == s[if j < i then j else j + 1]
  {
    s[..i] + s[i + 1..]
  }

  lemma OthersLinked<K(!new), V>(cache: map<K, CacheValue<V>>, lru: map<nat, K>, nextSerial: nat,
                                 order: seq<nat>, items: seq<Item<K, V>>, i: nat, j: nat)
    requires Represents(cache, lru, nextSerial, order, items) && i < |items| && j < |items| && i != j
    ensures Linked(cache - {items[i].key}, lru - {order[i]}, order[j], items[j])
  {
    assert Linked(cache, lru, order[i], items[i]) && Linked(cache, lru, order[j], items[j]);
  }

  lemma OthersOrdered(order: seq<nat>, i: nat, s: nat)
    requires i < |order| && s in order && s != order[i]
    ensures s in RemoveAt(order, i)
  {
    var j :| 0 <= j < |order| && order[j] == s;
    assert RemoveAt(order, i)[if j < i then j else j - 1] == s;
  }

  lemma RemoveIncreasing(order: seq<nat>, nextSerial: nat, i: nat)
    requires Increasing(order, nextSerial) && i < |order|
    ensures Increasing(RemoveAt(order, i), nextSerial)
  {
  }

  /** Removing an entry from both maps removes one position of the list. */
  lemma RemoveRepresents<K(!new), V>(cache: map<K, CacheValue<V>>, lru: map<nat, K>, nextSerial: nat,
                                     order: seq<nat>, items: seq<Item<K, V>>, i: nat)
    requires Represents(cache, lru, nextSerial, order, items) && i < |items|
    ensures Represents(cache - {items[i].key}, lru - {order[i]}, nextSerial, RemoveAt(order, i), RemoveAt(items, i))
  {
    var cache1, lru1 := cache - {items[i].key}, lru - {order[i]};
    var order1, items1 := RemoveAt(order, i), RemoveAt(items, i);
    RemoveIncreasing(order, nextSerial, i);
    forall j | 0 <= j < |order1|
      ensures Linked(cache1, lru1, order1[j], items1[j])
    {
      OthersLinked(cache, lru, nextSerial, order, items, i, if j < i then j else j + 1);
    }
    forall s | s in lru1
      ensures s in order1
    {
      OthersOrdered(order, i, s);
    }
    assert Linked(cache, lru, order[i], items[i]);
  }

  /** Adding an entry with the next serial adds it at the recent end. */
  lemma AppendRepresents<K(!new), V>(cache: map<K, CacheValue<V>>, lru: map<nat, K>, nextSerial: nat,
                               order: seq<nat>, items: seq<Item<K, V>>, key: K, value: V)
    requires Represents(cache, lru, nextSerial, order, items) && key !in cache
    ensures Represents(cache[key := CacheValue(value, nextSerial)], lru[nextSerial := key], nextSerial + 1,
                       order + [nextSerial], items + [Item(key, value)])
  {
    var cache1, lru1 := cache[key := CacheValue(value, nextSerial)], lru[nextSerial := key];
    forall j | 0 <= j < |order|
      ensures Linked(cache1, lru1, order[j], items[j])
    {
      assert Linked(cache, lru, order[j], items[j]);
    }
    assert (order + [nextSerial])[|order|] == nextSerial;
  }

  /** Where a resident key stands in the list. */
  lemma LinkedAt<K(!new), V>(t: Table<K, V>, key: K)
    requires Faithful(t)
    requires key in t.cache
    ensures Has(t.items, key)
    ensures var i := Find(t.items, key);
            && t.cache[key] == CacheValue(t.items[i].value, t.order[i])
            && Without(t.items, key) == RemoveAt(t.items, i)
  {
    assert Distinct(t.items) && Has(t.items, key) by {
      RepresentsDistinct(t.cache, t.lru, t.nextSerial, t.order, t.items);
    }
    var i := Find(t.items, key);
    assert Linked(t.cache, t.lru, t.order[i], t.items[i]);
    assert Without(t.items, key) == RemoveAt(t.items, i) by {
      WithoutAt(t.items, i);
    }
  }

  lemma CostWithout<K, V>(cost: V -> nat, items: seq<Item<K, V>>, i: nat)
    requires i < |items|
    ensures Cost(cost, RemoveAt(items, i)) == Cost(cost, items) - cost(items[i].value)
  {
    assert items == items[..i] + items[i..];
    assert items[i..][1..] == items[i + 1..];
    CostConcat(cost, items[..i], items[i..]);
    CostConcat(cost, items[..i], items[i + 1..]);
  }

  /** The table without a resident key. */
  lemma Unlinked<K(!new), V>(cost: V -> nat, t: Table<K, V>, charge: nat, key: K) returns (r: Table<K, V>)
    requires Stands(cost, t, t.cache, t.lru, t.nextSerial, charge) && key in t.cache
    ensures cost(t.cache[key].aux) <= charge
    ensures Stands(cost, r, t.cache - {key}, t.lru - {t.cache[key].serial}, t.nextSerial,
                   charge - cost(t.cache[key].aux))
    ensures r.items == Without(t.items, key) && |r.items| == |t.items| - 1
  {
    LinkedAt(t, key);
    var i := Find(t.items, key);
    RemoveRepresents(t.cache, t.lru, t.nextSerial, t.order, t.items, i);
    CostWithout(cost, t.items, i);
    r := Table(t.cache - {key}, t.lru - {t.order[i]}, t.nextSerial, RemoveAt(t.order, i), RemoveAt(t.items, i));
  }

  /** The table with a new key at the recent end. */
  lemma LinkedIn<K(!new), V>(cost: V -> nat, t: Table<K, V>, key: K, value: V) returns (r: Table<K, V>)
    requires Faithful(t)
    requires key !in t.cache
    ensures Faithful(r)
    ensures r.cache == t.cache[key := CacheValue(value, t.nextSerial)] && r.lru == t.lru[t.nextSerial := key]
    ensures r.nextSerial == t.nextSerial + 1 && r.items == t.items + [Item(key, value)]
    ensures Cost(cost, r.items) == Cost(cost, t.items) + cost(value)
  {
    AppendRepresents(t.cache, t.lru, t.nextSerial, t.order, t.items, key, value);
    CostConcat(cost, t.items, [Item(key, value)]);
    One(cost, Item(key, value));
    r := Table(t.cache[key := CacheValue(value, t.nextSerial)], t.lru[t.nextSerial := key], t.nextSerial + 1,
               t.order + [t.nextSerial], t.items + [Item(key, value)]);
  }

  lemma Resident<K(!new), V>(t: Table<K, V>, key: K)
    requires Faithful(t)
    ensures key in t.cache <==> Has(t.items, key)
    ensures key !in t.cache ==> Without(t.items, key) == t.items
  {
    RepresentsDistinct(t.cache, t.lru, t.nextSerial, t.order, t.items);
    if key !in t.cache {
      WithoutAbsent(t.items, key);
    }
  }

  /** The smallest serial belongs to the first entry of the list. */
  lemma FirstIsLeast<K(!new), V>(t: Table<K, V>)
    requires Faithful(t)
    requires t.items != []
    ensures t.order[0] in t.lru && t.lru[t.order[0]] == t.items[0].key && t.items[0].key in t.cache
    ensures forall s | s in t.lru :: t.order[0] <= s
    ensures Without(t.items, t.items[0].key) == t.items[1..]
  {
    assert Linked(t.cache, t.lru, t.order[0], t.items[0]);
    RepresentsDistinct(t.cache, t.lru, t.nextSerial, t.order, t.items);
    WithoutFirst(t.items);
  }

  lemma {:induction false} WithoutThenIf<K, V>(items: seq<Item<K, V>>, key: K, p: K -> bool)
    requires p(key)
    ensures WithoutIf(Without(items, key), p) == WithoutIf(items, p)
  {
    if items != [] {
      WithoutThenIf(items[1..], key, p);
      if items[0].key != key {
        assert ([items[0]] + Without(items[1..], key))[1..] == Without(items[1..], key);
      }
    }
  }

  lemma {:induction false} WithoutIfAbsent<K, V>(items: seq<Item<K, V>>, p: K -> bool)
    requires forall i | 0 <= i < |items| :: !p(items[i].key)
    ensures WithoutIf(items, p) == items
  {
    if items != [] {
      WithoutIfAbsent(items[1..], p);
    }
  }

  class CacheInner<K(==, !new), V> {
    const cost: V -> nat
    const maxCost: nat
    var cache: map<K, CacheValue<V>>
    var lru: map<nat, K>
    var nextSerial: nat
    var curCost: nat
    ghost var rep: Table<K, V>

    ghost predicate Valid()
      reads this
    {
      Stands(cost, rep, cache, lru, nextSerial, curCost)
    }

    /** The recency list that the two maps represent. */
    ghost function Items(): seq<Item<K, V>>
      reads this
    {
      rep.items
    }

    constructor (cost: V -> nat, maxCost: nat)
      ensures Valid() && Items() == [] && this.cost == cost && this.maxCost == maxCost
    {
      this.cost, this.maxCost := cost, maxCost;
      cache, lru, nextSerial, curCost := map[], map[], 0, 0;
      rep := Table(map[], map[], 0, [], []);
    }

    /** Takes a resident entry out of both maps and out of the running cost. */
    method Unlink(key: K) returns (value: V)
      requires Valid() && key in cache
      modifies this
      ensures Valid() && Items() == Without(old(Items()), key) && |Items()| == |old(Items())| - 1
      ensures cache == old(cache) - {key} && value == old(cache)[key].aux
    {
      ghost var after := Unlinked(cost, rep, curCost, key);
      value := Erase(key);
      rep := after;
    }

    /** The changes to the fields alone. */
    method Erase(key: K) returns (value: V)
      requires key in cache && cost(cache[key].aux) <= curCost
      modifies `cache, `lru, `curCost
      ensures value == old(cache)[key].aux && cache == old(cache) - {key}
      ensures lru == old(lru) - {old(cache)[key].serial} && curCost + cost(value) == old(curCost)
    {
      var removed := cache[key];
      value := removed.aux;
      lru, cache, curCost := lru - {removed.serial}, cache - {key}, curCost - cost(value);
    }

    /** Puts an entry that is not resident into both maps, as the most recent one. */
    method Link(key: K, value: V)
      requires Valid() && key !in cache
      modifies this
      ensures Valid() && Items() == old(Items()) + [Item(key, value)]
    {
      ghost var after := LinkedIn(cost, rep, key, value);
      cache, lru := cache[key := CacheValue(value, nextSerial)], lru[nextSerial := key];
      curCost, nextSerial := curCost + cost(value), nextSerial + 1;
      rep := after;
    }

    /** Looks up a key and makes it the most recent one. */
    method Get(key: K) returns (r: Option<V>)
      requires Valid()
      modifies this
      ensures Valid() && Items() == Touched(old(Items()), key)
      ensures r == if Has(old(Items()), key) then Some(old(Items())[Find(old(Items()), key)].value) else None
    {
      Resident(rep, key);
      if key in cache {
        LinkedAt(rep, key);
        var value := Unlink(key);
        Link(key, value);
        r := Some(value);
      } else {
        r := None;
      }
    }

    /** Evicts least recent entries until the cost is at most `budget`. */
    method EvictTo(budget: nat)
      requires Valid()
      modifies this
      ensures Valid() && Items() == Evict(cost, old(Items()), budget)
    {
      while curCost > budget
        invariant Valid() && Evict(cost, Items(), budget) == Evict(cost, old(Items()), budget)
        decreases |Items()|
      {
        FirstIsLeast(rep);
        var serial :| serial in lru.Keys && forall s | s in lru.Keys :: serial <= s;
        var key := lru[serial];
        var _ := Unlink(key);
      }
    }

    /** Inserts or replaces an entry, evicting first to make room for its cost. */
    method Insert(key: K, aux: V)
      requires Valid()
      modifies this
      ensures Valid() && Items() == Inserted(cost, maxCost, old(Items()), key, aux)
    {
      EvictTo(SaturatingSub(maxCost, cost(aux)));
      Resident(rep, key);
      if key in cache {
        var _ := Unlink(key);
      }
      Link(key, aux);
    }

    /** Removes a key and returns its value, if it is resident. */
    method Remove(key: K) returns (r: Option<V>)
      requires Valid()
      modifies this
      ensures Valid() && Items() == Without(old(Items()), key)
      ensures r == if Has(old(Items()), key) then Some(old(Items())[Find(old(Items()), key)].value) else None
    {
      Resident(rep, key);
      if key in cache {
        LinkedAt(rep, key);
        var value := Unlink(key);
        r := Some(value);
      } else {
        r := None;
      }
    }

    /** Removes every entry whose key matches, and counts them. */
    method RemoveMatching(p: K -> bool) returns (removed: nat)
      requires Valid()
      modifies this
      ensures Valid() && Items() == WithoutIf(old(Items()), p)
      ensures removed == |old(Items())| - |Items()|
    {
      var keys := set k | k in cache.Keys && p(k);
      removed := 0;
      while keys != {}
        invariant Valid()
        invariant WithoutIf(Items(), p) == WithoutIf(old(Items()), p)
        invariant forall k :: k in keys <==> k in cache && p(k)
        invariant removed == |old(Items())| - |Items()|
        decreases |keys|
      {
        var key :| key in keys;
        keys := keys - {key};
        WithoutThenIf(Items(), key, p);
        var _ := Unlink(key);
        removed := removed + 1;
      }
      RepresentsDistinct(cache, lru, nextSerial, rep.order, Items());
      WithoutIfAbsent(Items(), p);
    }
  }
}
