/** How the total capacity is divided over the caches of all worker pairs, and what all of them
together are ever charged. */
module CacheBuilder {
  import opened Arithmetic
  import opened LruLists

  datatype Strategy = Lru | S3Fifo
  datatype Allocation = PerThread | SharedPerWorkerPair | Global

  /** Each worker pair has a foreground and a background thread. */
  const THREAD_TYPES: nat := 2

  /** The capacities of the caches that are created, and for each worker pair the cache of each thread type. */
  datatype Layout = Layout(capacities: seq<nat>, slots: seq<seq<nat>>)

  function Repeat<T>(n: nat, x: T): (r: seq<T>)
    ensures |r| == n && forall i | 0 <= i < n :: r[i] == x
  {
    seq(n, _ => x)
  }

  function Build(strategy: Strategy, allocation: Allocation, workerPairs: nat, total: nat): Layout {
    if workerPairs == 0 then Layout([], [])
    else
      var perThread := total / workerPairs / THREAD_TYPES;
      var perPair := total / workerPairs;
      if strategy == Lru || allocation == PerThread then
        Layout(Repeat<nat>(THREAD_TYPES * workerPairs, perThread), seq(workerPairs, p => [2 * p, 2 * p + 1]))
      else if allocation == SharedPerWorkerPair then
        Layout(Repeat<nat>(workerPairs, perPair), seq(workerPairs, p => [p, p]))
      else
        Layout([total], Repeat(workerPairs, [0, 0]))
  }

  function Sum(s: seq<nat>): nat {
    if s == [] then 0 else s[0] + Sum(s[1..])
  }

  lemma {:induction false} SumRepeat(n: nat, x: nat)
    ensures Sum(Repeat<nat>(n, x)) == n * x
  {
    if n > 0 {
      SumRepeat(n - 1, x);
      assert Repeat<nat>(n, x)[1..] == Repeat<nat>(n - 1, x);
    }
  }

  /** Dividing twice wastes less than one unit per part. */
  lemma DivideTwice(total: nat, n: nat)
    requires 0 < n
    ensures 2 * n * (total / n / 2) <= total < 2 * n * (total / n / 2) + 2 * n
    ensures n * (total / n) <= total < n * (total / n) + n
  {
    var q := total / n;
    DivModSum(total, n);
    var h := q / 2;
    assert q == 2 * h || q == 2 * h + 1;
    assert n * (2 * h) == 2 * n * h;
    if q == 2 * h + 1 {
      assert n * q == n * (2 * h) + n;
    }
  }

  /** The caches that are created share the total capacity in equal parts, less than one byte each unused. */
  lemma CapacitiesWithinTotal(strategy: Strategy, allocation: Allocation, workerPairs: nat, total: nat)
    requires 0 < workerPairs
    ensures var caches := Build(strategy, allocation, workerPairs, total).capacities;
            && Sum(caches) <= total < Sum(caches) + |caches|
            && forall i, j | 0 <= i < j < |caches| :: caches[i] == caches[j]
  {
    DivideTwice(total, workerPairs);
    if strategy == Lru || allocation == PerThread {
      SumRepeat(THREAD_TYPES * workerPairs, total / workerPairs / THREAD_TYPES);
    } else if allocation == SharedPerWorkerPair {
      SumRepeat(workerPairs, total / workerPairs);
    } else {
      assert [total][1..] == [];
    }
  }

  /** Whether thread `t` of pair `p` and thread `u` of pair `q` are to use the same cache. LRU caches have no other
      allocation than per thread. */
  predicate SameCache(strategy: Strategy, allocation: Allocation, p: nat, t: nat, q: nat, u: nat) {
    if strategy == Lru || allocation == PerThread then p == q && t == u
    else if allocation == SharedPerWorkerPair then p == q
    else true
  }

  /** Every thread of every pair gets a cache, which it shares exactly with those it is to share with. */
  lemma SlotsAssigned(strategy: Strategy, allocation: Allocation, workerPairs: nat, total: nat,
                      p: nat, q: nat, t: nat, u: nat)
    requires p < workerPairs && q < workerPairs && t < THREAD_TYPES && u < THREAD_TYPES
    ensures var b := Build(strategy, allocation, workerPairs, total);
            && |b.slots| == workerPairs && |b.slots[p]| == |b.slots[q]| == THREAD_TYPES
            && b.slots[p][t] < |b.capacities|
            && (b.slots[p][t] == b.slots[q][u] <==> SameCache(strategy, allocation, p, t, q, u))
  {
  }

  /** Every cache that is created is used. */
  lemma CachesUsed(strategy: Strategy, allocation: Allocation, workerPairs: nat, total: nat, i: nat)
    returns (p: nat, t: nat)
    requires i < |Build(strategy, allocation, workerPairs, total).capacities|
    ensures p < workerPairs && t < THREAD_TYPES
    ensures var b := Build(strategy, allocation, workerPairs, total);
            |b.slots| == workerPairs && |b.slots[p]| == THREAD_TYPES && b.slots[p][t] == i
  {
    if strategy == Lru || allocation == PerThread {
      p, t := i / 2, i % 2;
    } else {
      p, t := i, 0;
    }
  }

  // ---------------------------------------------------------------- all caches together

  /** Operations on a row of LRU caches, each directed at one of them. */
  function RunAll<K(==), V>(cost: V -> nat, capacities: seq<nat>, caches: seq<seq<Item<K, V>>>,
                            ops: seq<(nat, Op<K, V>)>): (r: seq<seq<Item<K, V>>>)
    requires |caches| == |capacities| && forall i | 0 <= i < |ops| :: ops[i].0 < |caches|
    ensures |r| == |caches|
    decreases |ops|
  {
    if ops == [] then caches
    else
      var (c, op) := ops[0];
      RunAll(cost, capacities, caches[c := Step(cost, capacities[c], caches[c], op)], ops[1..])
  }

  function Charges<K, V>(cost: V -> nat, caches: seq<seq<Item<K, V>>>): nat {
    if caches == [] then 0 else Cost(cost, caches[0]) + Charges(cost, caches[1..])
  }

  ghost predicate Sound<K, V>(cost: V -> nat, capacity: nat, items: seq<Item<K, V>>) {
    && Distinct(items) && Bounded(cost, capacity, items)
    && forall x | x in items :: cost(x.value) <= capacity
  }

  lemma {:induction false} ChargesWithin<K, V>(cost: V -> nat, capacities: seq<nat>, caches: seq<seq<Item<K, V>>>)
    requires |caches| == |capacities|
    requires forall i | 0 <= i < |caches| :: Sound(cost, capacities[i], caches[i])
    ensures Charges(cost, caches) <= Sum(capacities)
  {
    if caches != [] {
      BoundedWithin(cost, capacities[0], caches[0]);
      ChargesWithin(cost, capacities[1..], caches[1..]);
    }
  }

  lemma {:induction false} RunAllSound<K, V>(cost: V -> nat, capacities: seq<nat>, caches: seq<seq<Item<K, V>>>,
                                             ops: seq<(nat, Op<K, V>)>)
    requires |caches| == |capacities| && forall i | 0 <= i < |ops| :: ops[i].0 < |caches|
    requires forall i | 0 <= i < |caches| :: Sound(cost, capacities[i], caches[i])
    requires forall i | 0 <= i < |ops| :: ops[i].1.Insert? ==> cost(ops[i].1.value) <= capacities[ops[i].0]
    ensures var r := RunAll(cost, capacities, caches, ops);
            forall i | 0 <= i < |r| :: Sound(cost, capacities[i], r[i])
    decreases |ops|
  {
    if ops != [] {
      var (c, op) := ops[0];
      StepBounded(cost, capacities[c], caches[c], op);
      StepMembers(cost, capacities[c], caches[c], op);
      RunAllSound(cost, capacities, caches[c := Step(cost, capacities[c], caches[c], op)], ops[1..]);
    }
  }

  /** Whatever is done to the LRU caches of a layout, as long as no entry is larger than its cache,
      all of them together are never charged more than the total capacity. */
  lemma ChargedWithinTotal<K, V>(cost: V -> nat, allocation: Allocation, workerPairs: nat, total: nat,
                                 ops: seq<(nat, Op<K, V>)>)
    requires var capacities := Build(Lru, allocation, workerPairs, total).capacities;
             forall i | 0 <= i < |ops| ::
               && ops[i].0 < |capacities|
               && (ops[i].1.Insert? ==> cost(ops[i].1.value) <= capacities[ops[i].0])
    ensures var capacities := Build(Lru, allocation, workerPairs, total).capacities;
            Charges(cost, RunAll(cost, capacities, Repeat(|capacities|, []), ops)) <= total
  {
    var capacities := Build(Lru, allocation, workerPairs, total).capacities;
    var empty: seq<seq<Item<K, V>>> := Repeat(|capacities|, []);
    RunAllSound(cost, capacities, empty, ops);
    ChargesWithin(cost, capacities, RunAll(cost, capacities, empty, ops));
    if workerPairs > 0 {
      CapacitiesWithinTotal(Lru, allocation, workerPairs, total);
    }
  }
}
