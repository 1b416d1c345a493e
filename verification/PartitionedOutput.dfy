/** The output of all partitions of a batch: when all its deletions come first, and what is certain when the
partitions are traversed in parallel. */
module PartitionedOutput {
  import opened Cursors
  import opened Sequences

  // ---------------------------------------------------------------- deletions of the whole batch first

  /** No deletion comes after an insertion, whatever the keys are. */
  ghost predicate AllDeletesFirst<V>(visits: seq<Visit<V>>) {
    forall a, b | 0 <= a < b < |visits| :: !(visits[a].weight > 0 && visits[b].weight < 0)
  }

  /** Some visit is a deletion, or an insertion. */
  ghost predicate Occurs<V>(visits: seq<Visit<V>>, second: bool) {
    exists a :: 0 <= a < |visits| && Wanted(second, visits[a].weight)
  }

  ghost predicate SomeValue<V>(vals: seq<Entry<V>>, second: bool) {
    exists v :: 0 <= v < |vals| && Wanted(second, vals[v].weight)
  }

  /** Some value of the keys is deleted, or inserted. */
  ghost predicate SomeWanted<V>(groups: Batch<V>, second: bool) {
    exists k :: 0 <= k < |groups| && SomeValue(groups[k].vals, second)
  }

  lemma OccursConcat<V>(a: seq<Visit<V>>, b: seq<Visit<V>>, second: bool)
    ensures Occurs(a + b, second) <==> Occurs(a, second) || Occurs(b, second)
  {
    var both: seq<Visit<V>> := a + b;
    if Occurs(a, second) {
      var i :| 0 <= i < |a| && Wanted(second, a[i].weight);
      assert both[i] == a[i];
    }
    if Occurs(b, second) {
      var i :| 0 <= i < |b| && Wanted(second, b[i].weight);
      assert both[|a| + i] == b[i];
    }
    if Occurs(both, second) {
      var i :| 0 <= i < |both| && Wanted(second, both[i].weight);
      assert i < |a| ==> both[i] == a[i];
      assert i >= |a| ==> both[i] == b[i - |a|];
    }
  }

  lemma DeletesFirstConcat<V>(a: seq<Visit<V>>, b: seq<Visit<V>>)
    ensures AllDeletesFirst(a + b)
       <==> AllDeletesFirst(a) && AllDeletesFirst(b) && !(Occurs(a, true) && Occurs(b, false))
  {
    var both: seq<Visit<V>> := a + b;
    if AllDeletesFirst(both) {
      assert forall i | 0 <= i < |a| :: both[i] == a[i];
      assert forall i | 0 <= i < |b| :: both[|a| + i] == b[i];
    }
  }

  /** A pass visits something exactly when some value is wanted. */
  lemma {:induction false} KeyVisitsSome<V>(key: Key, vals: seq<Entry<V>>, second: bool)
    ensures KeyVisits(key, vals, second) != [] <==> SomeValue(vals, second)
  {
    if vals != [] {
      KeyVisitsSome(key, vals[1..], second);
      if SomeValue(vals[1..], second) {
        var v :| 0 <= v < |vals[1..]| && Wanted(second, vals[1..][v].weight);
        assert vals[v + 1] == vals[1..][v];
      }
      if SomeValue(vals, second) && !Wanted(second, vals[0].weight) {
        var v :| 0 <= v < |vals| && Wanted(second, vals[v].weight);
        assert vals[1..][v - 1] == vals[v];
      }
    }
  }

  lemma {:induction false} PassSome<V>(groups: Batch<V>, second: bool)
    ensures Pass(groups, second) != [] <==> SomeWanted(groups, second)
  {
    if groups != [] {
      KeyVisitsSome(groups[0].key, groups[0].vals, second);
      PassSome(groups[1..], second);
      if SomeWanted(groups[1..], second) {
        var k :| 0 <= k < |groups[1..]| && SomeValue(groups[1..][k].vals, second);
        assert groups[k + 1] == groups[1..][k];
      }
      if SomeWanted(groups, second) && !SomeValue(groups[0].vals, second) {
        var k :| 0 <= k < |groups| && SomeValue(groups[k].vals, second);
        assert groups[1..][k - 1] == groups[k];
      }
    }
  }

  lemma PassPolarity<V>(groups: Batch<V>, second: bool)
    ensures AllDeletesFirst(Pass(groups, second))
    ensures Occurs(Pass(groups, second), second) <==> SomeWanted(groups, second)
    ensures !Occurs(Pass(groups, second), !second)
  {
    PassWanted(groups, second);
    PassSome(groups, second);
    var visits := Pass(groups, second);
    if visits != [] {
      assert Wanted(second, visits[0].weight);
    }
  }

  /** One polarity cursor: all deletions of its range come before all insertions. */
  lemma CursorPolarity<V>(batch: Batch<V>, low: nat, high: nat)
    requires high <= |batch|
    ensures var visits := BothPasses(batch, low, high);
            && AllDeletesFirst(visits)
            && (Occurs(visits, true) <==> SomeWanted(Range(batch, low, high), true))
            && (Occurs(visits, false) <==> SomeWanted(Range(batch, low, high), false))
  {
    var range := Range(batch, low, high);
    PassPolarity(range, false);
    PassPolarity(range, true);
    DeletesFirstConcat(Pass(range, false), Pass(range, true));
    OccursConcat(Pass(range, false), Pass(range, true), true);
    OccursConcat(Pass(range, false), Pass(range, true), false);
  }

  ghost predicate SomePart<V>(parts: seq<seq<Visit<V>>>, second: bool) {
    exists i :: 0 <= i < |parts| && Occurs(parts[i], second)
  }

  lemma {:induction false} OccursInJoin<V>(parts: seq<seq<Visit<V>>>, second: bool)
    ensures Occurs(Join(parts), second) <==> SomePart(parts, second)
  {
    if parts != [] {
      OccursInJoin(parts[1..], second);
      OccursConcat(parts[0], Join(parts[1..]), second);
      if SomePart(parts[1..], second) {
        var i :| 0 <= i < |parts[1..]| && Occurs(parts[1..][i], second);
        assert parts[i + 1] == parts[1..][i];
      }
      if SomePart(parts, second) && !Occurs(parts[0], second) {
        var i :| 0 <= i < |parts| && Occurs(parts[i], second);
        assert parts[1..][i - 1] == parts[i];
      }
    }
  }

  /** No part with an insertion precedes one with a deletion. */
  ghost predicate PartsInOrder<V>(parts: seq<seq<Visit<V>>>) {
    forall i, j | 0 <= i < j < |parts| :: !(Occurs(parts[i], true) && Occurs(parts[j], false))
  }

  lemma {:induction false} JoinPolarity<V>(parts: seq<seq<Visit<V>>>)
    requires forall i | 0 <= i < |parts| :: AllDeletesFirst(parts[i])
    ensures AllDeletesFirst(Join(parts)) <==> PartsInOrder(parts)
  {
    if parts != [] {
      var rest := parts[1..];
      assert forall i | 0 <= i < |rest| :: rest[i] == parts[i + 1];
      JoinPolarity(rest);
      OccursInJoin(rest, false);
      DeletesFirstConcat(parts[0], Join(rest));
      if PartsInOrder(rest) && !(Occurs(parts[0], true) && SomePart(rest, false)) {
        forall i, j | 0 <= i < j < |parts|
          ensures !(Occurs(parts[i], true) && Occurs(parts[j], false))
        {
          assert parts[j] == rest[j - 1];
          assert i > 0 ==> parts[i] == rest[i - 1];
        }
      }
    }
  }

  /** The keys of partition `i`. */
  function PartitionKeys<V>(batch: Batch<V>, bounds: seq<Key>, i: nat): Batch<V> {
    Range(batch, CutAt(batch, bounds, i), CutAt(batch, bounds, i + 1))
  }

  /** The output of all partitions has all deletions of the batch first exactly when no partition with an
      insertion precedes one with a deletion. */
  lemma BatchDeletesFirstIff<V>(batch: Batch<V>, bounds: seq<Key>, miss: Key -> nat)
    requires Sorted(batch) && BoundsOf(batch, bounds)
    ensures AllDeletesFirst(AllVisits(batch, bounds, miss))
       <==> forall i, j | 0 <= i < j <= |bounds| ::
              !(SomeWanted(PartitionKeys(batch, bounds, i), true) && SomeWanted(PartitionKeys(batch, bounds, j), false))
  {
    var parts := Outputs(batch, bounds, miss);
    forall i | 0 <= i < |parts|
      ensures AllDeletesFirst(parts[i])
      ensures Occurs(parts[i], true) <==> SomeWanted(PartitionKeys(batch, bounds, i), true)
      ensures Occurs(parts[i], false) <==> SomeWanted(PartitionKeys(batch, bounds, i), false)
    {
      PartitionCovers(batch, bounds, i, miss);
      CursorPolarity(batch, CutAt(batch, bounds, i), CutAt(batch, bounds, i + 1));
    }
    JoinPolarity(parts);
  }

  /** The smallest case: the first partition inserts and the second one deletes. */
  lemma BatchDeletesLate(miss: Key -> nat)
    ensures var batch := [Group(0, [Entry('a', 1)]), Group(1, [Entry('b', -1)])];
            && Sorted(batch) && BoundsOf(batch, [1])
            && !AllDeletesFirst(AllVisits(batch, [1], miss))
  {
    var batch, bounds: seq<Key> := [Group(0, [Entry('a', 1)]), Group(1, [Entry('b', -1)])], [1];
    assert batch[1].key == bounds[0];
    BatchDeletesFirstIff(batch, bounds, miss);
    assert CutAt(batch, bounds, 1) == 1 && CutAt(batch, bounds, 2) == 2;
    var first, second := PartitionKeys(batch, bounds, 0), PartitionKeys(batch, bounds, 1);
    assert first[0].vals[0].weight == 1 && second[0].vals[0].weight == -1;
    assert SomeValue(first[0].vals, true) && SomeValue(second[0].vals, false);
    assert SomeWanted(first, true) && SomeWanted(second, false);
  }

  // ---------------------------------------------------------------- partitions in parallel

  /** The visits of several traversals, one at a time, in the order of a schedule; a traversal that has ended
      is passed over. */
  function Merged<V>(parts: seq<seq<Visit<V>>>, schedule: seq<nat>): seq<Visit<V>>
    decreases |schedule|
  {
    if schedule == [] then []
    else
      var i := schedule[0];
      if i < |parts| && parts[i] != [] then [parts[i][0]] + Merged(parts[i := parts[i][1..]], schedule[1..])
      else Merged(parts, schedule[1..])
  }

  /** What the traversals have not visited after a schedule. */
  function Leftover<V>(parts: seq<seq<Visit<V>>>, schedule: seq<nat>): (left: seq<seq<Visit<V>>>)
    ensures |left| == |parts|
    decreases |schedule|
  {
    if schedule == [] then parts
    else
      var i := schedule[0];
      Leftover(if i < |parts| && parts[i] != [] then parts[i := parts[i][1..]] else parts, schedule[1..])
  }

  /** All traversals run to their ends. */
  ghost predicate Completes<V>(parts: seq<seq<Visit<V>>>, schedule: seq<nat>) {
    forall i | 0 <= i < |parts| :: Leftover(parts, schedule)[i] == []
  }

  lemma {:induction false} JoinEmpty<V>(parts: seq<seq<Visit<V>>>)
    requires forall i | 0 <= i < |parts| :: parts[i] == []
    ensures Join(parts) == []
  {
    if parts != [] {
      JoinEmpty(parts[1..]);
    }
  }

  lemma JoinTakesFirst<V>(first: seq<Visit<V>>, rest: seq<Visit<V>>)
    requires first != []
    ensures multiset(first + rest) == multiset{first[0]} + multiset(first[1..] + rest)
  {
    MultisetConcat(first, rest);
    MultisetConcat(first[1..], rest);
    assert first == [first[0]] + first[1..];
  }

  lemma JoinTakesLater<V>(first: seq<Visit<V>>, a: seq<Visit<V>>, b: seq<Visit<V>>, v: Visit<V>)
    requires multiset(a) == multiset{v} + multiset(b)
    ensures multiset(first + a) == multiset{v} + multiset(first + b)
  {
    MultisetConcat(first, a);
    MultisetConcat(first, b);
  }

  /** Taking the first visit of one part takes it out of the whole. */
  lemma {:induction false} JoinTakes<V>(parts: seq<seq<Visit<V>>>, i: nat)
    requires i < |parts| && parts[i] != []
    ensures multiset(Join(parts)) == multiset{parts[i][0]} + multiset(Join(parts[i := parts[i][1..]]))
  {
    var less := parts[i := parts[i][1..]];
    if i == 0 {
      assert less[1..] == parts[1..];
      JoinTakesFirst(parts[0], Join(parts[1..]));
    } else {
      JoinTakes(parts[1..], i - 1);
      assert less[1..] == parts[1..][i - 1 := parts[i][1..]];
      JoinTakesLater(parts[0], Join(parts[1..]), Join(less[1..]), parts[i][0]);
    }
  }

  lemma {:induction false} MergedSplits<V>(parts: seq<seq<Visit<V>>>, schedule: seq<nat>)
    ensures multiset(Merged(parts, schedule)) + multiset(Join(Leftover(parts, schedule))) == multiset(Join(parts))
    decreases |schedule|
  {
    if schedule != [] {
      var i := schedule[0];
      if i < |parts| && parts[i] != [] {
        var less := parts[i := parts[i][1..]];
        MergedSplits(less, schedule[1..]);
        JoinTakes(parts, i);
        MultisetConcat([parts[i][0]], Merged(less, schedule[1..]));
      } else {
        MergedSplits(parts, schedule[1..]);
      }
    }
  }

  ghost predicate InSomePart<V>(parts: seq<seq<Visit<V>>>, visit: Visit<V>) {
    exists i :: 0 <= i < |parts| && visit in parts[i]
  }

  lemma {:induction false} MergedMembers<V>(parts: seq<seq<Visit<V>>>, schedule: seq<nat>, visit: Visit<V>)
    requires visit in Merged(parts, schedule)
    ensures InSomePart(parts, visit)
    decreases |schedule|
  {
    var i := schedule[0];
    if i < |parts| && parts[i] != [] {
      if visit == parts[i][0] {
        assert visit in parts[i];
      } else {
        var less := parts[i := parts[i][1..]];
        MergedMembers(less, schedule[1..], visit);
        var j :| 0 <= j < |less| && visit in less[j];
        assert visit in parts[j];
      }
    } else {
      MergedMembers(parts, schedule[1..], visit);
    }
  }

  /** For every key, deletions come first in each part, and no two parts share a key. */
  ghost predicate Separate<V>(parts: seq<seq<Visit<V>>>) {
    && (forall i | 0 <= i < |parts| :: DeletesFirst(parts[i]))
    && (forall i, j, a, b | 0 <= i < j < |parts| && 0 <= a < |parts[i]| && 0 <= b < |parts[j]| ::
          parts[i][a].key != parts[j][b].key)
  }

  lemma SeparateLess<V>(parts: seq<seq<Visit<V>>>, i: nat)
    requires Separate(parts) && i < |parts| && parts[i] != []
    ensures Separate(parts[i := parts[i][1..]])
  {
    var less := parts[i := parts[i][1..]];
    assert forall a | 0 <= a < |less[i]| :: less[i][a] == parts[i][a + 1];
  }

  /** What one part visits next never follows, for its key, a visit it must precede. */
  lemma NextInOrder<V>(parts: seq<seq<Visit<V>>>, i: nat, visit: Visit<V>)
    requires Separate(parts) && i < |parts| && parts[i] != []
    requires InSomePart(parts[i := parts[i][1..]], visit) && visit.key == parts[i][0].key
    ensures parts[i][0].weight > 0 ==> visit.weight >= 0
  {
    var less := parts[i := parts[i][1..]];
    var j :| 0 <= j < |less| && visit in less[j];
    var b :| 0 <= b < |less[j]| && less[j][b] == visit;
    if j == i {
      assert parts[i][b + 1] == visit;
    }
  }

  lemma {:induction false} MergedInOrder<V>(parts: seq<seq<Visit<V>>>, schedule: seq<nat>)
    requires Separate(parts)
    ensures DeletesFirst(Merged(parts, schedule))
    decreases |schedule|
  {
    if schedule != [] {
      var i := schedule[0];
      if i < |parts| && parts[i] != [] {
        var less := parts[i := parts[i][1..]];
        var rest := Merged(less, schedule[1..]);
        SeparateLess(parts, i);
        MergedInOrder(less, schedule[1..]);
        forall b | 0 <= b < |rest| && rest[b].key == parts[i][0].key
          ensures parts[i][0].weight > 0 ==> rest[b].weight >= 0
        {
          MergedMembers(less, schedule[1..], rest[b]);
          NextInOrder(parts, i, rest[b]);
        }
      } else {
        MergedInOrder(parts, schedule[1..]);
      }
    }
  }

  /** The outputs of the partitions of a batch share no key. */
  lemma OutputsSeparate<V>(batch: Batch<V>, bounds: seq<Key>, miss: Key -> nat)
    requires Sorted(batch) && BoundsOf(batch, bounds)
    ensures Separate(Outputs(batch, bounds, miss))
  {
    var parts, cuts := Outputs(batch, bounds, miss), CutList(batch, bounds);
    CutListCuts(batch, bounds);
    forall i | 0 <= i < |parts|
      ensures DeletesFirst(parts[i]) && KeysWithin(batch, parts[i], cuts[i], cuts[i + 1])
    {
      PartitionCovers(batch, bounds, i, miss);
      PassesInOrder(batch, cuts[i], cuts[i + 1]);
    }
    forall i, j, a, b | 0 <= i < j < |parts| && 0 <= a < |parts[i]| && 0 <= b < |parts[j]|
      ensures parts[i][a].key != parts[j][b].key
    {
      assert KeyWithin(batch, parts[i][a].key, cuts[i], cuts[i + 1]);
      assert KeyWithin(batch, parts[j][b].key, cuts[j], cuts[j + 1]);
      assert cuts[i + 1] <= cuts[j];
    }
  }

  /** However traversals of all partitions in parallel interleave, every record of nonzero weight is visited
      exactly once, and for each key every deletion before every insertion. */
  lemma ParallelTraversal<V>(batch: Batch<V>, bounds: seq<Key>, miss: Key -> nat, schedule: seq<nat>)
    requires Sorted(batch) && BoundsOf(batch, bounds)
    requires Completes(Outputs(batch, bounds, miss), schedule)
    ensures var visits := Merged(Outputs(batch, bounds, miss), schedule);
            multiset(visits) == multiset(Records(batch)) && DeletesFirst(visits)
  {
    var parts := Outputs(batch, bounds, miss);
    PartitionedTraversal(batch, bounds, miss);
    MergedSplits(parts, schedule);
    JoinEmpty(Leftover(parts, schedule));
    OutputsSeparate(batch, bounds, miss);
    MergedInOrder(parts, schedule);
  }
}
