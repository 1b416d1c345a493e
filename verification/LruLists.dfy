/** Weighted least-recently-used eviction on a recency list, least recent entry first.

This is the simple form that the cache with its two maps refines.  It carries the
results about whole traces: what a larger capacity can only add to, and how much is
ever charged.
*/
module LruLists {
  import opened Arithmetic
  import opened Sequences

  datatype Item<+K, +V> = Item(key: K, value: V)

  function Cost<K, V>(cost: V -> nat, items: seq<Item<K, V>>): nat {
    if items == [] then 0 else cost(items[0].value) + Cost(cost, items[1..])
  }

  function Without<K(==), V>(items: seq<Item<K, V>>, key: K): seq<Item<K, V>> {
    if items == [] then []
    else if items[0].key == key then Without(items[1..], key)
    else [items[0]] + Without(items[1..], key)
  }

  function WithoutIf<K, V>(items: seq<Item<K, V>>, p: K -> bool): seq<Item<K, V>> {
    if items == [] then []
    else if p(items[0].key) then WithoutIf(items[1..], p)
    else [items[0]] + WithoutIf(items[1..], p)
  }

  predicate Has<K(==), V>(items: seq<Item<K, V>>, key: K) {
    exists i :: 0 <= i < |items| && items[i].key == key
  }

  /** Drops entries from the front until the budget is met. */
  function Evict<K, V>(cost: V -> nat, items: seq<Item<K, V>>, budget: nat): seq<Item<K, V>> {
    if Cost(cost, items) <= budget then items else Evict(cost, items[1..], budget)
  }

  /** Evicts to make room, then replaces the entry or adds it as the most recent one. */
  function Inserted<K(==), V>(cost: V -> nat, capacity: nat, items: seq<Item<K, V>>, key: K, value: V)
    : seq<Item<K, V>>
  {
    Without(Evict(cost, items, SaturatingSub(capacity, cost(value))), key) + [Item(key, value)]
  }

  function Find<K(==), V>(items: seq<Item<K, V>>, key: K): (i: nat)
    requires Has(items, key)
    ensures i < |items| && items[i].key == key
    ensures forall j | 0 <= j < i :: items[j].key != key
  {
    if items[0].key == key then 0
    else
      assert Has(items[1..], key) by {
        var i :| 0 <= i < |items| && items[i].key == key;
        assert items[1..][i - 1].key == key;
      }
      1 + Find(items[1..], key)
  }

  /** A lookup makes the entry the most recent one. */
  function Touched<K(==), V>(items: seq<Item<K, V>>, key: K): seq<Item<K, V>> {
    if Has(items, key) then Without(items, key) + [items[Find(items, key)]] else items
  }

  predicate Distinct<K(==), V>(items: seq<Item<K, V>>) {
    forall i, j | 0 <= i < j < |items| :: items[i].key != items[j].key
  }

  // ---------------------------------------------------------------- eviction keeps the longest suffix

  ghost predicate Suffix<T>(a: seq<T>, b: seq<T>) {
    |a| <= |b| && b[|b| - |a|..] == a
  }

  /** Eviction keeps a suffix within the budget, and every longer suffix exceeds it. */
  lemma {:induction false} EvictKeepsLongest<K, V>(cost: V -> nat, items: seq<Item<K, V>>, budget: nat)
    ensures Suffix(Evict(cost, items, budget), items)
    ensures Cost(cost, Evict(cost, items, budget)) <= budget
    ensures forall k | 0 <= k < |items| - |Evict(cost, items, budget)| :: budget < Cost(cost, items[k..])
  {
    if Cost(cost, items) > budget {
      EvictKeepsLongest(cost, items[1..], budget);
      var kept := Evict(cost, items[1..], budget);
      assert items[|items| - |kept|..] == items[1..][|items| - 1 - |kept|..];
      forall k | 0 <= k < |items| - |kept|
        ensures budget < Cost(cost, items[k..])
      {
        if k == 0 {
          assert items[0..] == items;
        } else {
          assert items[k..] == items[1..][k - 1..];
        }
      }
    }
  }

  lemma {:induction false} CostConcat<K, V>(cost: V -> nat, a: seq<Item<K, V>>, b: seq<Item<K, V>>)
    ensures Cost(cost, a + b) == Cost(cost, a) + Cost(cost, b)
  {
    if a == [] {
      assert a + b == b;
    } else {
      CostConcat(cost, a[1..], b);
      assert (a + b)[1..] == a[1..] + b;
    }
  }

  lemma {:induction false} WithoutConcat<K, V>(a: seq<Item<K, V>>, b: seq<Item<K, V>>, key: K)
    ensures Without(a + b, key) == Without(a, key) + Without(b, key)
  {
    if a == [] {
      assert a + b == b;
    } else {
      WithoutConcat(a[1..], b, key);
      assert (a + b)[1..] == a[1..] + b;
      Assoc([a[0]], Without(a[1..], key), Without(b, key));
    }
  }

  lemma {:induction false} WithoutAbsent<K, V>(items: seq<Item<K, V>>, key: K)
    requires !Has(items, key)
    ensures Without(items, key) == items
  {
    if items != [] {
      assert items[0].key != key;
      assert forall i | 0 <= i < |items[1..]| :: items[1..][i] == items[i + 1];
      WithoutAbsent(items[1..], key);
    }
  }

  lemma {:induction false} WithoutIfConcat<K, V>(a: seq<Item<K, V>>, b: seq<Item<K, V>>, p: K -> bool)
    ensures WithoutIf(a + b, p) == WithoutIf(a, p) + WithoutIf(b, p)
  {
    if a == [] {
      assert a + b == b;
    } else {
      WithoutIfConcat(a[1..], b, p);
      assert (a + b)[1..] == a[1..] + b;
      Assoc([a[0]], WithoutIf(a[1..], p), WithoutIf(b, p));
    }
  }

  lemma WithoutMiddle<K, V>(a: seq<Item<K, V>>, item: Item<K, V>, b: seq<Item<K, V>>)
    requires !Has(a, item.key) && !Has(b, item.key)
    ensures Without(a + [item] + b, item.key) == a + b
  {
    WithoutConcat(a + [item], b, item.key);
    WithoutConcat(a, [item], item.key);
    WithoutAbsent(a, item.key);
    WithoutAbsent(b, item.key);
    assert Without([item], item.key) == [];
    assert a + [] == a;
  }

  /** In a list without duplicates, removing a key removes one position. */
  lemma {:induction false} WithoutAt<K, V>(items: seq<Item<K, V>>, i: nat)
    requires Distinct(items) && i < |items|
    ensures Without(items, items[i].key) == items[..i] + items[i + 1..]
  {
    var a, b := items[..i], items[i + 1..];
    assert items == a + [items[i]] + b;
    assert forall j | 0 <= j < |b| :: b[j] == items[i + 1 + j];
    WithoutMiddle(a, items[i], b);
  }

  lemma {:induction false} WithoutFirst<K, V>(items: seq<Item<K, V>>)
    requires Distinct(items) && items != []
    ensures Without(items, items[0].key) == items[1..]
  {
    assert forall j | 0 <= j < |items[1..]| :: items[1..][j] == items[j + 1];
    WithoutAbsent(items[1..], items[0].key);
  }

  // ---------------------------------------------------------------- what the operations keep

  /** The entries from position `k` on, together with the new value, fit; or they cost nothing. */
  ghost predicate Keepable<K, V>(cost: V -> nat, capacity: nat, items: seq<Item<K, V>>, k: nat, value: V)
    requires k <= |items|
  {
    Cost(cost, items[k..]) + cost(value) <= capacity || Cost(cost, items[k..]) == 0
  }

  /** An insertion keeps the longest recency suffix that fits beside the new entry, without an older entry of the
      same key; nothing is evicted if all of it fits. */
  lemma InsertedKeepsLongest<K, V>(cost: V -> nat, capacity: nat, items: seq<Item<K, V>>, key: K, value: V)
    returns (k: nat)
    ensures k <= |items| && Keepable(cost, capacity, items, k, value)
    ensures Inserted(cost, capacity, items, key, value) == Without(items[k..], key) + [Item(key, value)]
    ensures forall j | 0 <= j < k :: !Keepable(cost, capacity, items, j, value)
    ensures Cost(cost, items) + cost(value) <= capacity ==> k == 0
  {
    var budget := SaturatingSub(capacity, cost(value));
    var kept := Evict(cost, items, budget);
    EvictKeepsLongest(cost, items, budget);
    k := |items| - |kept|;
    assert items[0..] == items;
  }

  /** A lookup moves the entry it finds to the recent end and keeps the order of the others. */
  lemma TouchedMoves<K, V>(items: seq<Item<K, V>>, key: K, i: nat)
    requires Distinct(items) && i < |items| && items[i].key == key
    ensures Touched(items, key) == items[..i] + items[i + 1..] + [items[i]]
  {
    assert Has(items, key);
    WithoutAt(items, i);
  }

  /** Positions in increasing order. */
  ghost predicate Increasing(at: seq<nat>) {
    forall i, j | 0 <= i < j < |at| :: at[i] < at[j]
  }

  /** Removal by predicate keeps exactly the entries that do not match, in their order: those at positions `at`. */
  lemma {:induction false} WithoutIfKeeps<K, V>(items: seq<Item<K, V>>, p: K -> bool) returns (at: seq<nat>)
    ensures |WithoutIf(items, p)| == |at| && Increasing(at)
    ensures forall i | 0 <= i < |at| :: at[i] < |items| && WithoutIf(items, p)[i] == items[at[i]]
    ensures forall j | 0 <= j < |items| :: j in at <==> !p(items[j].key)
  {
    at := [];
    if items != [] {
      var last := |items| - 1;
      var front := items[..last];
      at := WithoutIfKeeps(front, p);
      assert items == front + [items[last]];
      WithoutIfConcat(front, [items[last]], p);
      assert forall j | 0 <= j < last :: front[j] == items[j];
      assert [items[last]][1..] == [];
      if !p(items[last].key) {
        at := at + [last];
      }
    }
  }

  // ---------------------------------------------------------------- operations and traces

  datatype Op<!K, V> = Get(key: K) | Insert(key: K, value: V) | Remove(key: K) | RemoveIf(p: K -> bool)

  function Step<K(==), V>(cost: V -> nat, capacity: nat, items: seq<Item<K, V>>, op: Op<K, V>): seq<Item<K, V>> {
    match op
    case Get(key) => Touched(items, key)
    case Insert(key, value) => Inserted(cost, capacity, items, key, value)
    case Remove(key) => Without(items, key)
    case RemoveIf(p) => WithoutIf(items, p)
  }

  function Run<K(==), V>(cost: V -> nat, capacity: nat, items: seq<Item<K, V>>, ops: seq<Op<K, V>>): seq<Item<K, V>>
    decreases |ops|
  {
    if ops == [] then items else Run(cost, capacity, Step(cost, capacity, items, ops[0]), ops[1..])
  }

  /** A request of a client that loads what it does not find: look up and insert on a miss, insert, or remove. */
  datatype Request<!K> = Access(key: K) | Store(key: K) | Drop(key: K) | DropIf(p: K -> bool)

  /** The operation that a request amounts to; the value of a key is what `load` gives for it. */
  function Serve<K(==), V>(load: K -> V, items: seq<Item<K, V>>, request: Request<K>): Op<K, V> {
    match request
    case Access(key) => if Has(items, key) then Get(key) else Insert(key, load(key))
    case Store(key) => Insert(key, load(key))
    case Drop(key) => Remove(key)
    case DropIf(p) => RemoveIf(p)
  }

  function Hit<K(==), V>(items: seq<Item<K, V>>, request: Request<K>): nat {
    if request.Access? && Has(items, request.key) then 1 else 0
  }

  /** The recency list after a trace of requests, and the number of hits. */
  function ServeAll<K(==), V>(cost: V -> nat, load: K -> V, capacity: nat, items: seq<Item<K, V>>,
                              requests: seq<Request<K>>): (seq<Item<K, V>>, nat)
    decreases |requests|
  {
    if requests == [] then (items, 0)
    else
      var after := Step(cost, capacity, items, Serve(load, items, requests[0]));
      var (last, hits) := ServeAll(cost, load, capacity, after, requests[1..]);
      (last, Hit(items, requests[0]) + hits)
  }

  // ---------------------------------------------------------------- inclusion

  lemma SuffixTransitive<T>(a: seq<T>, b: seq<T>, c: seq<T>)
    requires Suffix(a, b) && Suffix(b, c)
    ensures Suffix(a, c)
  {
    assert c[|c| - |a|..] == c[|c| - |b|..][|b| - |a|..];
  }

  lemma SuffixSnoc<T>(a: seq<T>, b: seq<T>, x: T)
    requires Suffix(a, b)
    ensures Suffix(a + [x], b + [x])
  {
  }

  lemma SuffixWithout<K, V>(a: seq<Item<K, V>>, b: seq<Item<K, V>>, key: K)
    requires Suffix(a, b)
    ensures Suffix(Without(a, key), Without(b, key))
  {
    var front := b[..|b| - |a|];
    assert b == front + a;
    WithoutConcat(front, a, key);
  }

  lemma SuffixWithoutIf<K, V>(a: seq<Item<K, V>>, b: seq<Item<K, V>>, p: K -> bool)
    requires Suffix(a, b)
    ensures Suffix(WithoutIf(a, p), WithoutIf(b, p))
  {
    var front := b[..|b| - |a|];
    assert b == front + a;
    WithoutIfConcat(front, a, p);
  }

  /** Evicting more from less leaves a suffix of evicting less from more. */
  lemma {:induction false} EvictMonotone<K, V>(cost: V -> nat, a: seq<Item<K, V>>, b: seq<Item<K, V>>, m: nat, n: nat)
    requires Suffix(a, b) && m <= n
    ensures Suffix(Evict(cost, a, m), Evict(cost, b, n))
    decreases |b|
  {
    EvictKeepsLongest(cost, a, m);
    if Cost(cost, b) <= n {
      SuffixTransitive(Evict(cost, a, m), a, b);
    } else if |a| < |b| {
      assert b[|b| - |a|..] == b[1..][|b| - 1 - |a|..];
      EvictMonotone(cost, a, b[1..], m, n);
    } else {
      assert a == b;
      EvictMonotone(cost, a[1..], b[1..], m, n);
    }
  }

  lemma InsertedMonotone<K, V>(cost: V -> nat, a: seq<Item<K, V>>, b: seq<Item<K, V>>, m: nat, n: nat, key: K, value: V)
    requires Suffix(a, b) && m <= n
    ensures Suffix(Inserted(cost, m, a, key, value), Inserted(cost, n, b, key, value))
  {
    var small, large := SaturatingSub(m, cost(value)), SaturatingSub(n, cost(value));
    EvictMonotone(cost, a, b, small, large);
    SuffixWithout(Evict(cost, a, small), Evict(cost, b, large), key);
    SuffixSnoc(Without(Evict(cost, a, small), key), Without(Evict(cost, b, large), key), Item(key, value));
  }

  lemma HasMonotone<K, V>(a: seq<Item<K, V>>, b: seq<Item<K, V>>, key: K)
    requires Suffix(a, b) && Has(a, key)
    ensures Has(b, key)
  {
    var i :| 0 <= i < |a| && a[i].key == key;
    assert b[|b| - |a|..][i] == b[|b| - |a| + i];
  }

  /** Every resident value is the one its key loads. */
  ghost predicate Loaded<K, V>(load: K -> V, items: seq<Item<K, V>>) {
    forall i | 0 <= i < |items| :: items[i].value == load(items[i].key)
  }

  /** A request keeps the smaller cache's list a suffix of the larger's. */
  lemma ServeMonotone<K, V>(cost: V -> nat, load: K -> V, a: seq<Item<K, V>>, b: seq<Item<K, V>>, m: nat, n: nat,
                            request: Request<K>)
    requires Suffix(a, b) && m <= n && Loaded(load, b)
    ensures Suffix(Step(cost, m, a, Serve(load, a, request)), Step(cost, n, b, Serve(load, b, request)))
    ensures Hit(a, request) <= Hit(b, request)
  {
    match request
    case Store(key) =>
      InsertedMonotone(cost, a, b, m, n, key, load(key));
    case Drop(key) =>
      SuffixWithout(a, b, key);
    case DropIf(p) =>
      SuffixWithoutIf(a, b, p);
    case Access(key) =>
      if !Has(b, key) {
        if Has(a, key) {
          HasMonotone(a, b, key);
        }
        InsertedMonotone(cost, a, b, m, n, key, load(key));
      } else {
        var item := Item(key, load(key));
        assert b[Find(b, key)] == item;
        if Has(a, key) {
          assert a[Find(a, key)] == item by {
            assert b[|b| - |a|..][Find(a, key)] == b[|b| - |a| + Find(a, key)];
          }
          SuffixWithout(a, b, key);
          SuffixSnoc(Without(a, key), Without(b, key), item);
        } else {
          var kept := Evict(cost, a, SaturatingSub(m, cost(load(key))));
          EvictKeepsLongest(cost, a, SaturatingSub(m, cost(load(key))));
          SuffixTransitive(kept, a, b);
          SuffixWithout(kept, b, key);
          SuffixSnoc(Without(kept, key), Without(b, key), item);
        }
      }
  }

  lemma {:induction false} WithoutMembers<K, V>(items: seq<Item<K, V>>, key: K, p: K -> bool)
    ensures forall x | x in Without(items, key) :: x in items && x.key != key
    ensures forall x | x in WithoutIf(items, p) :: x in items && !p(x.key)
  {
    if items != [] {
      WithoutMembers(items[1..], key, p);
    }
  }

  lemma StepMembers<K, V>(cost: V -> nat, capacity: nat, items: seq<Item<K, V>>, op: Op<K, V>)
    ensures forall x | x in Step(cost, capacity, items, op) ::
              x in items || (op.Insert? && x == Item(op.key, op.value))
  {
    match op
    case Get(key) =>
      WithoutMembers(items, key, _ => false);
    case Insert(key, value) =>
      var budget := SaturatingSub(capacity, cost(value));
      EvictKeepsLongest(cost, items, budget);
      WithoutMembers(Evict(cost, items, budget), key, _ => false);
    case Remove(key) =>
      WithoutMembers(items, key, _ => false);
    case RemoveIf(p) =>
      if items != [] {
        WithoutMembers(items, items[0].key, p);
      }
  }

  /** On the same trace, a cache of smaller capacity holds a suffix of what a larger one holds, and never hits
      more often. */
  lemma {:induction false} Inclusion<K, V>(cost: V -> nat, load: K -> V, m: nat, n: nat,
                                           a: seq<Item<K, V>>, b: seq<Item<K, V>>, requests: seq<Request<K>>)
    requires m <= n && Suffix(a, b) && Loaded(load, b)
    ensures Suffix(ServeAll(cost, load, m, a, requests).0, ServeAll(cost, load, n, b, requests).0)
    ensures ServeAll(cost, load, m, a, requests).1 <= ServeAll(cost, load, n, b, requests).1
    decreases |requests|
  {
    if requests != [] {
      ServeMonotone(cost, load, a, b, m, n, requests[0]);
      var b1 := Step(cost, n, b, Serve(load, b, requests[0]));
      StepMembers(cost, n, b, Serve(load, b, requests[0]));
      forall i | 0 <= i < |b1|
        ensures b1[i].value == load(b1[i].key)
      {
        assert b1[i] in b1;
      }
      Inclusion(cost, load, m, n, Step(cost, m, a, Serve(load, a, requests[0])), b1, requests[1..]);
    }
  }

  /** A key of the suffix has the same entry in both lists. */
  lemma SameItem<K, V>(a: seq<Item<K, V>>, b: seq<Item<K, V>>, key: K)
    requires Suffix(a, b) && Distinct(b) && Has(a, key) && Has(b, key)
    ensures a[Find(a, key)] == b[Find(b, key)]
  {
    var i := |b| - |a| + Find(a, key);
    assert b[|b| - |a|..][Find(a, key)] == b[i];
    assert b[i].key == b[Find(b, key)].key;
  }

  /** A lookup that does not insert on a miss keeps inclusion exactly when it does not hit the larger cache
      alone; only then, and with something in the smaller one, the larger one has a new last entry. */
  lemma LookupAloneIff<K, V>(a: seq<Item<K, V>>, b: seq<Item<K, V>>, key: K)
    requires Suffix(a, b) && Distinct(b)
    ensures Suffix(Touched(a, key), Touched(b, key)) <==> (Has(b, key) ==> Has(a, key)) || a == []
  {
    if Has(a, key) {
      HasMonotone(a, b, key);
      SameItem(a, b, key);
      SuffixWithout(a, b, key);
      SuffixSnoc(Without(a, key), Without(b, key), a[Find(a, key)]);
    } else if Has(b, key) && a != [] {
      var touched := Touched(b, key);
      assert touched[|touched| - 1].key == key;
      assert a[|a| - 1].key != key;
    }
  }

  /** The smallest case: the larger cache has one more entry, and the lookup hits it. */
  lemma LookupAloneBreaksInclusion()
    ensures var x, y := Item(0, 'x'), Item(1, 'y');
            && Suffix([y], [x, y])
            && !Suffix(Step(_ => 1, 1, [y], Get(0)), Step(_ => 1, 2, [x, y], Get(0)))
  {
    var x, y := Item(0, 'x'), Item(1, 'y');
    var small: seq<Item<int, char>>, large := [y], [x, y];
    assert large[0].key == 0 && Has(large, 0);
    LookupAloneIff(small, large, 0);
  }

  // ---------------------------------------------------------------- capacity

  /** Number of resident entries that cost anything. */
  function Charged<K, V>(cost: V -> nat, items: seq<Item<K, V>>): nat {
    if items == [] then 0 else (if cost(items[0].value) > 0 then 1 else 0) + Charged(cost, items[1..])
  }

  lemma {:induction false} ChargedConcat<K, V>(cost: V -> nat, a: seq<Item<K, V>>, b: seq<Item<K, V>>)
    ensures Charged(cost, a + b) == Charged(cost, a) + Charged(cost, b)
  {
    if a == [] {
      assert a + b == b;
    } else {
      ChargedConcat(cost, a[1..], b);
      assert (a + b)[1..] == a[1..] + b;
    }
  }

  lemma {:induction false} ChargedZero<K, V>(cost: V -> nat, items: seq<Item<K, V>>)
    ensures Charged(cost, items) == 0 <==> Cost(cost, items) == 0
  {
    if items != [] {
      ChargedZero(cost, items[1..]);
    }
  }

  lemma {:induction false} WithoutCharges<K, V>(cost: V -> nat, items: seq<Item<K, V>>, key: K, p: K -> bool)
    ensures Cost(cost, Without(items, key)) <= Cost(cost, items)
    ensures Charged(cost, Without(items, key)) <= Charged(cost, items)
    ensures Cost(cost, WithoutIf(items, p)) <= Cost(cost, items)
    ensures Charged(cost, WithoutIf(items, p)) <= Charged(cost, items)
  {
    if items != [] {
      WithoutCharges(cost, items[1..], key, p);
      var rest, restIf := Without(items[1..], key), WithoutIf(items[1..], p);
      assert ([items[0]] + rest)[1..] == rest && ([items[0]] + restIf)[1..] == restIf;
    }
  }

  /** Within capacity, or over it because of a single entry that costs anything. */
  predicate Bounded<K, V>(cost: V -> nat, capacity: nat, items: seq<Item<K, V>>) {
    Cost(cost, items) <= capacity || Charged(cost, items) == 1
  }

  lemma SmallerBounded<K, V>(cost: V -> nat, capacity: nat, items: seq<Item<K, V>>, fewer: seq<Item<K, V>>)
    requires Bounded(cost, capacity, items)
    requires Cost(cost, fewer) <= Cost(cost, items) && Charged(cost, fewer) <= Charged(cost, items)
    ensures Bounded(cost, capacity, fewer)
  {
    ChargedZero(cost, fewer);
  }

  lemma One<K, V>(cost: V -> nat, item: Item<K, V>)
    ensures Cost(cost, [item]) == cost(item.value)
    ensures Charged(cost, [item]) == if cost(item.value) > 0 then 1 else 0
  {
    assert [item][1..] == [];
  }

  lemma TouchedCharges<K, V>(cost: V -> nat, items: seq<Item<K, V>>, key: K)
    requires Distinct(items)
    ensures Cost(cost, Touched(items, key)) == Cost(cost, items)
    ensures Charged(cost, Touched(items, key)) == Charged(cost, items)
  {
    if Has(items, key) {
      var i := Find(items, key);
      WithoutAt(items, i);
      var a, x, b := items[..i], [items[i]], items[i + 1..];
      assert items == a + (x + b);
      CostConcat(cost, a, x + b);
      CostConcat(cost, x, b);
      CostConcat(cost, a, b);
      CostConcat(cost, a + b, x);
      ChargedConcat(cost, a, x + b);
      ChargedConcat(cost, x, b);
      ChargedConcat(cost, a, b);
      ChargedConcat(cost, a + b, x);
    }
  }

  lemma InsertedBounded<K, V>(cost: V -> nat, capacity: nat, items: seq<Item<K, V>>, key: K, value: V)
    ensures Bounded(cost, capacity, Inserted(cost, capacity, items, key, value))
  {
    var budget := SaturatingSub(capacity, cost(value));
    var kept := Evict(cost, items, budget);
    EvictKeepsLongest(cost, items, budget);
    WithoutCharges(cost, kept, key, _ => false);
    ChargedZero(cost, Without(kept, key));
    One(cost, Item(key, value));
    CostConcat(cost, Without(kept, key), [Item(key, value)]);
    ChargedConcat(cost, Without(kept, key), [Item(key, value)]);
  }

  lemma DistinctCons<K, V>(items: seq<Item<K, V>>, rest: seq<Item<K, V>>)
    requires items != [] && Distinct(items) && Distinct(rest)
    requires forall x | x in rest :: x in items[1..]
    ensures Distinct([items[0]] + rest)
  {
    forall j | 0 <= j < |rest|
      ensures rest[j].key != items[0].key
    {
      assert rest[j] in items[1..];
      var k :| 0 <= k < |items[1..]| && items[1..][k] == rest[j];
      assert items[k + 1] == rest[j];
    }
  }

  lemma {:induction false} WithoutDistinct<K, V>(items: seq<Item<K, V>>, key: K, p: K -> bool)
    requires Distinct(items)
    ensures Distinct(Without(items, key)) && Distinct(WithoutIf(items, p))
  {
    if items != [] {
      WithoutDistinct(items[1..], key, p);
      WithoutMembers(items[1..], key, p);
      var rest, restIf := Without(items[1..], key), WithoutIf(items[1..], p);
      DistinctCons(items, rest);
      DistinctCons(items, restIf);
    }
  }

  lemma AppendDistinct<K, V>(items: seq<Item<K, V>>, item: Item<K, V>)
    requires Distinct(items)
    ensures Distinct(Without(items, item.key) + [item])
  {
    WithoutDistinct(items, item.key, _ => false);
    WithoutMembers(items, item.key, _ => false);
    var rest := Without(items, item.key);
    assert forall j | 0 <= j < |rest| :: rest[j] in rest;
  }

  lemma StepBounded<K, V>(cost: V -> nat, capacity: nat, items: seq<Item<K, V>>, op: Op<K, V>)
    requires Distinct(items) && Bounded(cost, capacity, items)
    ensures Distinct(Step(cost, capacity, items, op)) && Bounded(cost, capacity, Step(cost, capacity, items, op))
  {
    match op
    case Get(key) =>
      TouchedCharges(cost, items, key);
      if Has(items, key) {
        AppendDistinct(items, items[Find(items, key)]);
      }
    case Insert(key, value) =>
      InsertedBounded(cost, capacity, items, key, value);
      EvictKeepsLongest(cost, items, SaturatingSub(capacity, cost(value)));
      AppendDistinct(Evict(cost, items, SaturatingSub(capacity, cost(value))), Item(key, value));
    case Remove(key) =>
      WithoutCharges(cost, items, key, _ => false);
      WithoutDistinct(items, key, _ => false);
      SmallerBounded(cost, capacity, items, Without(items, key));
    case RemoveIf(p) =>
      if items != [] {
        WithoutCharges(cost, items, items[0].key, p);
        WithoutDistinct(items, items[0].key, p);
        SmallerBounded(cost, capacity, items, WithoutIf(items, p));
      }
  }

  /** In every run the charge is within capacity, or exactly one resident entry costs anything. */
  lemma {:induction false} RunBounded<K, V>(cost: V -> nat, capacity: nat, items: seq<Item<K, V>>, ops: seq<Op<K, V>>)
    requires Distinct(items) && Bounded(cost, capacity, items)
    ensures Distinct(Run(cost, capacity, items, ops)) && Bounded(cost, capacity, Run(cost, capacity, items, ops))
    decreases |ops|
  {
    if ops != [] {
      StepBounded(cost, capacity, items, ops[0]);
      RunBounded(cost, capacity, Step(cost, capacity, items, ops[0]), ops[1..]);
    }
  }

  lemma {:induction false} SoleChargeIsItsCost<K, V>(cost: V -> nat, items: seq<Item<K, V>>) returns (i: nat)
    requires Charged(cost, items) == 1
    ensures i < |items| && Cost(cost, items) == cost(items[i].value)
  {
    if cost(items[0].value) > 0 {
      ChargedZero(cost, items[1..]);
      i := 0;
    } else {
      var j := SoleChargeIsItsCost(cost, items[1..]);
      i := j + 1;
    }
  }

  /** Without oversized entries, a bounded list is within capacity. */
  lemma BoundedWithin<K, V>(cost: V -> nat, capacity: nat, items: seq<Item<K, V>>)
    requires Bounded(cost, capacity, items)
    requires forall x | x in items :: cost(x.value) <= capacity
    ensures Cost(cost, items) <= capacity
  {
    if Charged(cost, items) == 1 {
      var i := SoleChargeIsItsCost(cost, items);
      assert items[i] in items;
    }
  }
}
