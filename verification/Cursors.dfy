/** Output cursors over a batch of weighted records.

A batch is a sequence of groups with increasing keys; each group holds values with
weights.  A split cursor shows one key range of a batch; a cursor with polarity runs over
another cursor twice, over the deletions first and then over the insertions.
*/
module Cursors {
  import opened Options
  import opened Sequences

  type Key = int

  datatype Entry<+V> = Entry(value: V, weight: int)
  datatype Group<+V> = Group(key: Key, vals: seq<Entry<V>>)
  datatype Visit<+V> = Visit(key: Key, value: V, weight: int)

  type Batch<V> = seq<Group<V>>

  predicate Sorted<V>(batch: Batch<V>) {
    forall i, j | 0 <= i < j < |batch| :: batch[i].key < batch[j].key
  }

  /** The position of the first key at or after `key`, not before position `from`. */
  function SeekFrom<V>(batch: Batch<V>, from: nat, key: Key): (k: nat)
    requires from <= |batch|
    ensures from <= k <= |batch|
    ensures forall i | from <= i < k :: batch[i].key < key
    ensures k < |batch| ==> key <= batch[k].key
    decreases |batch| - from
  {
    if from == |batch| || key <= batch[from].key then from else SeekFrom(batch, from + 1, key)
  }

  // ---------------------------------------------------------------- cursors as objects

  /** The plain cursor over a batch. */
  class BatchCursor<V> {
    const batch: Batch<V>
    var keyIndex: nat
    var valIndex: nat

    constructor (batch: Batch<V>)
      ensures this.batch == batch && keyIndex == 0 && valIndex == 0
    {
      this.batch := batch;
      keyIndex, valIndex := 0, 0;
    }

    predicate KeyValid()
      reads this
    {
      keyIndex < |batch|
    }

    predicate ValValid()
      reads this
    {
      KeyValid() && valIndex < |batch[keyIndex].vals|
    }

    function Weight(): int
      requires ValValid()
      reads this
    {
      batch[keyIndex].vals[valIndex].weight
    }

    method StepKey()
      modifies this
      ensures keyIndex == (if old(keyIndex) < |batch| then old(keyIndex) + 1 else old(keyIndex)) && valIndex == 0
    {
      if keyIndex < |batch| {
        keyIndex := keyIndex + 1;
      }
      valIndex := 0;
    }

    method StepVal()
      requires ValValid()
      modifies this
      ensures keyIndex == old(keyIndex) && valIndex == old(valIndex) + 1
    {
      valIndex := valIndex + 1;
    }

    method RewindKeys()
      modifies this
      ensures keyIndex == 0 && valIndex == 0
    {
      keyIndex, valIndex := 0, 0;
    }

    /** Advances to the first key at or after `key`; no effect if the cursor is past it. */
    method SeekKey(key: Key)
      requires keyIndex <= |batch|
      modifies this
      ensures keyIndex == SeekFrom(batch, old(keyIndex), key) && valIndex == 0
    {
      while keyIndex < |batch| && batch[keyIndex].key < key
        invariant keyIndex <= |batch|
        invariant SeekFrom(batch, keyIndex, key) == SeekFrom(batch, old(keyIndex), key)
      {
        keyIndex := keyIndex + 1;
      }
      valIndex := 0;
    }
  }

  // ---------------------------------------------------------------- partitions

  /** A partition: its first key, and the key where the next one starts. */
  datatype Partition = Partition(startKey: Key, endKey: Option<Key>)

  /** An exact seek: the position of the key, or wherever the implementation leaves the cursor. */
  function SeekExact<V>(batch: Batch<V>, key: Key, miss: Key -> nat): nat {
    var k := SeekFrom(batch, 0, key);
    if k < |batch| && batch[k].key == key then k else miss(key)
  }

  /** The partition `index` of a batch cut at `bounds`; `miss` is where an exact seek for an absent key lands. */
  function FromBounds<V>(batch: Batch<V>, bounds: seq<Key>, index: nat, miss: Key -> nat): Option<Partition> {
    var startBound := if index == 0 then None else if index <= |bounds| then Some(bounds[index - 1]) else None;
    var endBound := if index < |bounds| then Some(bounds[index]) else None;
    var at := if startBound.Some? then SeekExact(batch, startBound.value, miss) else 0;
    if at < |batch| then Some(Partition(batch[at].key, endBound)) else None
  }

  /** Where the keys of a partition start and end. */
  function Low<V>(batch: Batch<V>, p: Partition): nat {
    SeekFrom(batch, 0, p.startKey)
  }

  function High<V>(batch: Batch<V>, p: Partition): nat {
    if p.endKey.Some? then SeekFrom(batch, 0, p.endKey.value) else |batch|
  }

  /** A cursor over one partition. */
  class SplitCursor<V> {
    const cursor: BatchCursor<V>
    const partition: Partition

    ghost predicate Valid()
      reads cursor
    {
      && Sorted(cursor.batch)
      && Low(cursor.batch, partition) <= cursor.keyIndex <= |cursor.batch|
    }

    constructor (batch: Batch<V>, partition: Partition)
      requires Sorted(batch)
      ensures fresh(cursor) && cursor.batch == batch && this.partition == partition
      ensures Valid() && cursor.keyIndex == Low(batch, partition) && cursor.valIndex == 0
    {
      this.partition := partition;
      var c := new BatchCursor(batch);
      c.SeekKey(partition.startKey);
      this.cursor := c;
    }

    predicate Finished()
      reads cursor
    {
      partition.endKey.Some? && cursor.KeyValid() && partition.endKey.value <= cursor.batch[cursor.keyIndex].key
    }

    predicate KeyValid()
      reads cursor
    {
      cursor.KeyValid() && !Finished()
    }

    /** A key is shown exactly while it lies before the start of the next partition. */
    lemma KeyValidInRange()
      requires Valid()
      ensures KeyValid() <==> cursor.keyIndex < High(cursor.batch, partition)
    {
    }

    method RewindKeys()
      requires Valid()
      modifies cursor
      ensures Valid() && cursor.keyIndex == Low(cursor.batch, partition) && cursor.valIndex == 0
    {
      cursor.RewindKeys();
      cursor.SeekKey(partition.startKey);
    }
  }

  // ---------------------------------------------------------------- polarity

  /** The first pass wants deletions, the second one insertions. */
  predicate Wanted(second: bool, weight: int) {
    if second then weight > 0 else weight < 0
  }

  /** The first wanted value at or after position `from`. */
  function SkipTo<V>(vals: seq<Entry<V>>, from: nat, second: bool): (v: nat)
    requires from <= |vals|
    ensures from <= v <= |vals|
    ensures forall i | from <= i < v :: !Wanted(second, vals[i].weight)
    ensures v < |vals| ==> Wanted(second, vals[v].weight)
    decreases |vals| - from
  {
    if from == |vals| || Wanted(second, vals[from].weight) then from else SkipTo(vals, from + 1, second)
  }

  /** The wanted values of one key, from a list of its values. */
  function KeyVisits<V>(key: Key, vals: seq<Entry<V>>, second: bool): seq<Visit<V>> {
    if vals == [] then []
    else
      var rest := KeyVisits(key, vals[1..], second);
      if Wanted(second, vals[0].weight) then [Visit(key, vals[0].value, vals[0].weight)] + rest else rest
  }

  /** What one pass visits, from a list of keys. */
  function Pass<V>(groups: Batch<V>, second: bool): seq<Visit<V>> {
    if groups == [] then [] else KeyVisits(groups[0].key, groups[0].vals, second) + Pass(groups[1..], second)
  }

  /** The keys from position `low` up to position `high`. */
  function Range<V>(batch: Batch<V>, low: nat, high: nat): Batch<V>
    requires high <= |batch|
  {
    if low < high then batch[low..high] else []
  }

  /** What a pass visits from value `v` of key `k` on, up to key `high`. */
  function Visits<V>(batch: Batch<V>, k: nat, v: nat, high: nat, second: bool): seq<Visit<V>>
    requires k < high <= |batch| && v <= |batch[k].vals|
  {
    KeyVisits(batch[k].key, batch[k].vals[v..], second) + Pass(Range(batch, k + 1, high), second)
  }

  lemma {:induction false} SkipKeepsVisits<V>(key: Key, vals: seq<Entry<V>>, v: nat, second: bool)
    requires v <= |vals|
    ensures KeyVisits(key, vals[v..], second) == KeyVisits(key, vals[SkipTo(vals, v, second)..], second)
    decreases |vals| - v
  {
    if v < |vals| && !Wanted(second, vals[v].weight) {
      assert vals[v..][1..] == vals[v + 1..];
      SkipKeepsVisits(key, vals, v + 1, second);
    }
  }

  /** A pass starts at the first wanted value of its first key. */
  lemma PassStarts<V>(batch: Batch<V>, k: nat, high: nat, second: bool)
    requires k < high <= |batch|
    ensures Visits(batch, k, SkipTo(batch[k].vals, 0, second), high, second) == Pass(Range(batch, k, high), second)
  {
    var vals, range := batch[k].vals, batch[k..high];
    assert range[1..] == Range(batch, k + 1, high);
    assert vals[0..] == vals;
    SkipKeepsVisits(batch[k].key, vals, 0, second);
  }

  /** Both passes over a key range. */
  function BothPasses<V>(batch: Batch<V>, low: nat, high: nat): seq<Visit<V>>
    requires high <= |batch|
  {
    Pass(Range(batch, low, high), false) + Pass(Range(batch, low, high), true)
  }

  /** Where a polarity cursor stands. */
  datatype Position = Position(key: nat, val: nat, second: bool)

  /** The start of a key in a pass. */
  function FirstOf<V>(batch: Batch<V>, k: nat, high: nat, second: bool): Position
    requires high <= |batch|
  {
    Position(k, if k < high then SkipTo(batch[k].vals, 0, second) else 0, second)
  }

  /** The next key; after the last one the second pass starts, from the first key again. */
  function NextKey<V>(batch: Batch<V>, low: nat, high: nat, at: Position): Position
    requires at.key < high <= |batch|
  {
    if at.key + 1 == high && !at.second then FirstOf(batch, low, high, true)
    else FirstOf(batch, at.key + 1, high, at.second)
  }

  function NextVal<V>(batch: Batch<V>, at: Position): Position
    requires at.key < |batch| && at.val < |batch[at.key].vals|
  {
    at.(val := SkipTo(batch[at.key].vals, at.val + 1, at.second))
  }

  /** The position is past the range, or at a wanted value or behind the last value of a key. */
  predicate Standing<V>(batch: Batch<V>, high: nat, at: Position)
    requires high <= |batch|
  {
    at.key < high ==>
      && at.val <= |batch[at.key].vals|
      && (at.val < |batch[at.key].vals| ==> Wanted(at.second, batch[at.key].vals[at.val].weight))
  }

  /** What is still to be visited from a position on. */
  function Rest<V>(batch: Batch<V>, low: nat, high: nat, at: Position): seq<Visit<V>>
    requires high <= |batch| && Standing(batch, high, at)
  {
    if at.key >= high then []
    else Visits(batch, at.key, at.val, high, at.second) + if at.second then [] else Pass(Range(batch, low, high), true)
  }

  class CursorWithPolarity<V> {
    const cursor: SplitCursor<V>
    var secondPass: bool

    /** The batch and the key range that the underlying cursor shows. */
    ghost function Groups(): Batch<V> {
      cursor.cursor.batch
    }

    ghost function First(): nat {
      Low(Groups(), cursor.partition)
    }

    ghost function End(): (k: nat)
      ensures k <= |Groups()|
    {
      High(Groups(), cursor.partition)
    }

    ghost function At(): Position
      reads this, cursor.cursor
    {
      Position(cursor.cursor.keyIndex, cursor.cursor.valIndex, secondPass)
    }

    ghost predicate Valid()
      reads this, cursor.cursor
    {
      cursor.Valid() && Standing(Groups(), End(), At())
    }

    constructor (cursor: SplitCursor<V>)
      requires cursor.Valid()
      requires cursor.cursor.keyIndex == Low(cursor.cursor.batch, cursor.partition) && cursor.cursor.valIndex == 0
      modifies cursor.cursor
      ensures Valid() && this.cursor == cursor
      ensures At() == FirstOf(Groups(), First(), End(), false)
    {
      this.cursor := cursor;
      secondPass := false;
      new;
      cursor.KeyValidInRange();
      if cursor.KeyValid() {
        AdvanceVal();
      }
    }

    method AdvanceVal()
      requires cursor.Valid() && At().key < End() && At().val <= |Groups()[At().key].vals|
      modifies cursor.cursor
      ensures Valid()
      ensures At() == old(At()).(val := SkipTo(Groups()[old(At()).key].vals, old(At()).val, secondPass))
      decreases |Groups()[At().key].vals| - At().val, 1
    {
      ghost var at, vals := At(), Groups()[At().key].vals;
      while cursor.cursor.ValValid() && !Wanted(secondPass, cursor.cursor.Weight())
        invariant At() == at.(val := At().val) && at.val <= At().val <= |vals|
        invariant SkipTo(vals, At().val, secondPass) == SkipTo(vals, at.val, secondPass)
        decreases |vals| - At().val
      {
        StepVal();
      }
    }

    method StepVal()
      requires cursor.Valid() && At().key < End() && At().val < |Groups()[At().key].vals|
      modifies cursor.cursor
      ensures Valid() && At() == NextVal(Groups(), old(At()))
      decreases |Groups()[At().key].vals| - At().val, 0
    {
      cursor.cursor.StepVal();
      AdvanceVal();
    }

    method StepKey()
      requires Valid() && At().key < End()
      modifies this, cursor.cursor
      ensures Valid() && At() == NextKey(Groups(), First(), End(), old(At()))
    {
      cursor.cursor.StepKey();
      cursor.KeyValidInRange();
      if !cursor.KeyValid() && !secondPass {
        cursor.RewindKeys();
        secondPass := true;
      }
      cursor.KeyValidInRange();
      if cursor.KeyValid() {
        AdvanceVal();
      }
    }
  }

  /** A new cursor has both passes before it. */
  lemma StartRest<V>(batch: Batch<V>, low: nat, high: nat)
    requires high <= |batch|
    ensures Rest(batch, low, high, FirstOf(batch, low, high, false)) == BothPasses(batch, low, high)
  {
    if low < high {
      PassStarts(batch, low, high, false);
    }
  }

  function VisitAt<V>(batch: Batch<V>, at: Position): Visit<V>
    requires at.key < |batch| && at.val < |batch[at.key].vals|
  {
    var group := batch[at.key];
    Visit(group.key, group.vals[at.val].value, group.vals[at.val].weight)
  }

  lemma KeyVisitsStep<V>(key: Key, vals: seq<Entry<V>>, v: nat, second: bool)
    requires v < |vals| && Wanted(second, vals[v].weight)
    ensures KeyVisits(key, vals[v..], second)
         == [Visit(key, vals[v].value, vals[v].weight)] + KeyVisits(key, vals[SkipTo(vals, v + 1, second)..], second)
  {
    assert vals[v..][1..] == vals[v + 1..];
    SkipKeepsVisits(key, vals, v + 1, second);
  }

  /** Visiting a wanted value takes its visit off the front of what is still to come. */
  lemma NextValKeepsRest<V>(batch: Batch<V>, low: nat, high: nat, at: Position)
    requires at.key < high <= |batch| && Standing(batch, high, at) && at.val < |batch[at.key].vals|
    ensures Rest(batch, low, high, at) == [VisitAt(batch, at)] + Rest(batch, low, high, NextVal(batch, at))
  {
    var key, vals, second, next := batch[at.key].key, batch[at.key].vals, at.second, NextVal(batch, at).val;
    var others := Pass(Range(batch, at.key + 1, high), second);
    KeyVisitsStep(key, vals, at.val, second);
    Assoc([VisitAt(batch, at)], KeyVisits(key, vals[next..], second), others);
    assert Visits(batch, at.key, at.val, high, second)
        == [VisitAt(batch, at)] + Visits(batch, at.key, next, high, second);
    if second {
      Assoc([VisitAt(batch, at)], Visits(batch, at.key, next, high, second), []);
    } else {
      Assoc([VisitAt(batch, at)], Visits(batch, at.key, next, high, second), Pass(Range(batch, low, high), true));
    }
  }

  /** Behind its last value, a key has nothing left to visit. */
  lemma VisitsEnd<V>(batch: Batch<V>, k: nat, high: nat, second: bool)
    requires k < high <= |batch|
    ensures var left := Visits(batch, k, |batch[k].vals|, high, second);
            if k + 1 < high then left == Visits(batch, k + 1, SkipTo(batch[k + 1].vals, 0, second), high, second)
            else left == []
  {
    var none := KeyVisits(batch[k].key, batch[k].vals[|batch[k].vals|..], second);
    var others := Pass(Range(batch, k + 1, high), second);
    assert none == [];
    assert none + others == others;
    if k + 1 < high {
      PassStarts(batch, k + 1, high, second);
    }
  }

  lemma NextKeyInPass<V>(batch: Batch<V>, low: nat, high: nat, at: Position)
    requires low <= at.key < high <= |batch| && at.val == |batch[at.key].vals| && at.key + 1 < high
    ensures Rest(batch, low, high, FirstOf(batch, at.key + 1, high, at.second)) == Rest(batch, low, high, at)
  {
    VisitsEnd(batch, at.key, high, at.second);
    var first := FirstOf(batch, at.key + 1, high, at.second);
    var later := if at.second then [] else Pass(Range(batch, low, high), true);
    assert Rest(batch, low, high, at) == Visits(batch, at.key, at.val, high, at.second) + later;
    assert Rest(batch, low, high, first) == Visits(batch, first.key, first.val, high, at.second) + later;
  }

  lemma SecondPassStarts<V>(batch: Batch<V>, low: nat, high: nat, at: Position)
    requires low <= at.key < high <= |batch| && at.val == |batch[at.key].vals| && at.key + 1 == high && !at.second
    ensures Rest(batch, low, high, FirstOf(batch, low, high, true)) == Rest(batch, low, high, at)
  {
    VisitsEnd(batch, at.key, high, at.second);
    var again := Pass(Range(batch, low, high), true);
    PassStarts(batch, low, high, true);
    assert Rest(batch, low, high, at) == [] + again == again;
    assert Rest(batch, low, high, FirstOf(batch, low, high, true)) == again + [] == again;
  }

  lemma SecondPassEnds<V>(batch: Batch<V>, low: nat, high: nat, at: Position)
    requires at.key < high <= |batch| && at.val == |batch[at.key].vals| && at.key + 1 == high && at.second
    ensures Rest(batch, low, high, at) == []
  {
    VisitsEnd(batch, at.key, high, at.second);
  }

  /** Once the values of a key are done, moving on loses nothing, also where the second pass starts. */
  lemma NextKeyKeepsRest<V>(batch: Batch<V>, low: nat, high: nat, at: Position)
    requires low <= at.key < high <= |batch| && at.val == |batch[at.key].vals|
    ensures Rest(batch, low, high, NextKey(batch, low, high, at)) == Rest(batch, low, high, at)
  {
    var next := NextKey(batch, low, high, at);
    if at.key + 1 < high {
      assert next == FirstOf(batch, at.key + 1, high, at.second);
      NextKeyInPass(batch, low, high, at);
    } else if !at.second {
      assert next == FirstOf(batch, low, high, true);
      SecondPassStarts(batch, low, high, at);
    } else {
      assert next.key == high;
      SecondPassEnds(batch, low, high, at);
    }
  }

  /** The inner loop: all wanted values of the current key. */
  method VisitKey<V>(c: CursorWithPolarity<V>, before: seq<Visit<V>>) returns (visited: seq<Visit<V>>)
    requires c.Valid() && c.At().key < c.End()
    modifies c.cursor.cursor
    ensures c.Valid() && c.At() == old(c.At()).(val := |c.Groups()[old(c.At()).key].vals|)
    ensures visited + Rest(c.Groups(), c.First(), c.End(), c.At())
         == before + Rest(c.Groups(), c.First(), c.End(), old(c.At()))
  {
    visited := before;
    ghost var batch, low, high, at := c.Groups(), c.First(), c.End(), c.At();
    ghost var rest := Rest(batch, low, high, at);
    while c.cursor.cursor.ValValid()
      invariant c.Valid() && c.At() == at.(val := c.At().val)
      invariant rest == Rest(batch, low, high, c.At())
      invariant visited + rest == before + Rest(batch, low, high, at)
      decreases |batch[at.key].vals| - c.At().val
    {
      var group := c.cursor.cursor.batch[c.cursor.cursor.keyIndex];
      var e := group.vals[c.cursor.cursor.valIndex];
      NextValKeepsRest(batch, low, high, c.At());
      Assoc(visited, [VisitAt(batch, c.At())], Rest(batch, low, high, NextVal(batch, c.At())));
      visited := visited + [Visit(group.key, e.value, e.weight)];
      c.StepVal();
      rest := Rest(batch, low, high, c.At());
    }
  }

  /** What a client sees that visits every value of every key, calling the cursor's steps. */
  method Traverse<V>(c: CursorWithPolarity<V>) returns (visited: seq<Visit<V>>)
    requires c.Valid()
    modifies c, c.cursor.cursor
    ensures visited == Rest(c.Groups(), c.First(), c.End(), old(c.At()))
  {
    visited := [];
    ghost var batch, low, high := c.Groups(), c.First(), c.End();
    ghost var rest := Rest(batch, low, high, c.At());
    c.cursor.KeyValidInRange();
    while c.cursor.KeyValid()
      invariant c.Valid() && (c.cursor.KeyValid() <==> c.At().key < high)
      invariant rest == Rest(batch, low, high, c.At())
      invariant visited + rest == Rest(batch, low, high, old(c.At()))
      decreases !c.secondPass, high - c.At().key
    {
      visited := VisitKey(c, visited);
      NextKeyKeepsRest(batch, low, high, c.At());
      c.StepKey();
      rest := Rest(batch, low, high, c.At());
      c.cursor.KeyValidInRange();
    }
  }

  /** The output of one partition: builds its cursors and traverses them. */
  method TraversePartition<V>(batch: Batch<V>, partition: Partition) returns (visited: seq<Visit<V>>)
    requires Sorted(batch)
    ensures visited == BothPasses(batch, Low(batch, partition), High(batch, partition))
  {
    var split := new SplitCursor(batch, partition);
    var c := new CursorWithPolarity(split);
    StartRest(batch, c.First(), c.End());
    visited := Traverse(c);
  }

  // ---------------------------------------------------------------- all partitions

  /** The output of partition `index`; an empty partition has no cursor. */
  function PartitionVisits<V>(batch: Batch<V>, bounds: seq<Key>, index: nat, miss: Key -> nat): seq<Visit<V>> {
    match FromBounds(batch, bounds, index, miss)
    case None => []
    case Some(p) => BothPasses(batch, Low(batch, p), High(batch, p))
  }

  function Outputs<V>(batch: Batch<V>, bounds: seq<Key>, miss: Key -> nat): (parts: seq<seq<Visit<V>>>)
    ensures |parts| == |bounds| + 1
    ensures forall i | 0 <= i <= |bounds| :: parts[i] == PartitionVisits(batch, bounds, i, miss)
  {
    seq(|bounds| + 1, i requires 0 <= i => PartitionVisits(batch, bounds, i, miss))
  }

  /** The output of all partitions, one after the other. */
  function AllVisits<V>(batch: Batch<V>, bounds: seq<Key>, miss: Key -> nat): seq<Visit<V>> {
    Join(Outputs(batch, bounds, miss))
  }

  /** Bounds as the batch computes them: keys of the batch, in order. */
  ghost predicate BoundsOf<V>(batch: Batch<V>, bounds: seq<Key>) {
    && (forall i, j | 0 <= i < j < |bounds| :: bounds[i] <= bounds[j])
    && (forall i | 0 <= i < |bounds| :: exists k :: 0 <= k < |batch| && batch[k].key == bounds[i])
  }

  /** The position where partition `index` starts; the last one ends with the batch. */
  function CutAt<V>(batch: Batch<V>, bounds: seq<Key>, index: nat): (k: nat)
    ensures k <= |batch|
  {
    if index == 0 then 0 else if index <= |bounds| then SeekFrom(batch, 0, bounds[index - 1]) else |batch|
  }

  lemma SeekIsUnique<V>(batch: Batch<V>, key: Key, k: nat)
    requires Sorted(batch) && k < |batch| && batch[k].key == key
    ensures SeekFrom(batch, 0, key) == k
  {
  }

  lemma CutsInOrder<V>(batch: Batch<V>, a: Key, b: Key)
    requires Sorted(batch) && a <= b
    ensures SeekFrom(batch, 0, a) <= SeekFrom(batch, 0, b)
  {
  }

  /** Partition `index` covers exactly the keys between two consecutive cuts. */
  lemma PartitionCovers<V>(batch: Batch<V>, bounds: seq<Key>, index: nat, miss: Key -> nat)
    requires Sorted(batch) && BoundsOf(batch, bounds) && index <= |bounds|
    ensures CutAt(batch, bounds, index) <= CutAt(batch, bounds, index + 1)
    ensures PartitionVisits(batch, bounds, index, miss)
         == BothPasses(batch, CutAt(batch, bounds, index), CutAt(batch, bounds, index + 1))
  {
    var low, high := CutAt(batch, bounds, index), CutAt(batch, bounds, index + 1);
    if index > 0 {
      var k :| 0 <= k < |batch| && batch[k].key == bounds[index - 1];
      SeekIsUnique(batch, bounds[index - 1], k);
      if index < |bounds| {
        CutsInOrder(batch, bounds[index - 1], bounds[index]);
      }
    }
    if low < |batch| {
      SeekIsUnique(batch, batch[low].key, low);
    }
  }

  function KeyRecords<V>(key: Key, vals: seq<Entry<V>>): seq<Visit<V>> {
    if vals == [] then []
    else
      var rest := KeyRecords(key, vals[1..]);
      if vals[0].weight != 0 then [Visit(key, vals[0].value, vals[0].weight)] + rest else rest
  }

  /** The reference: every record of nonzero weight, in batch order. */
  function Records<V>(groups: Batch<V>): seq<Visit<V>> {
    if groups == [] then [] else KeyRecords(groups[0].key, groups[0].vals) + Records(groups[1..])
  }

  /** Between them, `a` and `b` have exactly the visits of `c`. */
  ghost predicate Covers<V>(a: seq<Visit<V>>, b: seq<Visit<V>>, c: seq<Visit<V>>) {
    multiset(a) + multiset(b) == multiset(c)
  }

  lemma CoversConcat<V>(a: seq<Visit<V>>, b: seq<Visit<V>>, c: seq<Visit<V>>,
                        a1: seq<Visit<V>>, b1: seq<Visit<V>>, c1: seq<Visit<V>>)
    requires Covers(a, b, c) && Covers(a1, b1, c1)
    ensures Covers(a + a1, b + b1, c + c1)
  {
  }

  lemma {:induction false} KeyPassesCover<V>(key: Key, vals: seq<Entry<V>>)
    ensures Covers(KeyVisits(key, vals, false), KeyVisits(key, vals, true), KeyRecords(key, vals))
  {
    if vals != [] {
      KeyPassesCover(key, vals[1..]);
      var a, b, c := KeyVisits(key, vals[1..], false), KeyVisits(key, vals[1..], true), KeyRecords(key, vals[1..]);
      var visit, none: seq<Visit<V>> := [Visit(key, vals[0].value, vals[0].weight)], [];
      assert none + a == a && none + b == b;
      CoversConcat(visit, none, visit, a, b, c);
      CoversConcat(none, visit, visit, a, b, c);
    }
  }

  /** The two passes together visit every record of nonzero weight once. */
  lemma {:induction false} PassesCoverRecords<V>(groups: Batch<V>)
    ensures Covers(Pass(groups, false), Pass(groups, true), Records(groups))
  {
    if groups != [] {
      var key, vals, rest := groups[0].key, groups[0].vals, groups[1..];
      KeyPassesCover(key, vals);
      PassesCoverRecords(rest);
      CoversConcat(KeyVisits(key, vals, false), KeyVisits(key, vals, true), KeyRecords(key, vals),
                   Pass(rest, false), Pass(rest, true), Records(rest));
    }
  }

  lemma {:induction false} RecordsConcat<V>(a: Batch<V>, b: Batch<V>)
    ensures Records(a + b) == Records(a) + Records(b)
  {
    if a == [] {
      assert a + b == b;
    } else {
      RecordsConcat(a[1..], b);
      assert (a + b)[1..] == a[1..] + b;
      Assoc(KeyRecords(a[0].key, a[0].vals), Records(a[1..]), Records(b));
    }
  }

  /** Positions that cut a batch into consecutive key ranges. */
  ghost predicate Cuts<V>(batch: Batch<V>, cuts: seq<nat>) {
    && cuts != []
    && (forall i, j | 0 <= i <= j < |cuts| :: cuts[i] <= cuts[j])
    && (forall i | 0 <= i < |cuts| :: cuts[i] <= |batch|)
  }

  /** Both passes over each range in turn. */
  ghost function RangeVisits<V>(batch: Batch<V>, cuts: seq<nat>): seq<Visit<V>>
    requires Cuts(batch, cuts)
  {
    if |cuts| == 1 then [] else BothPasses(batch, cuts[0], cuts[1]) + RangeVisits(batch, cuts[1..])
  }

  lemma MultisetConcat<V>(a: seq<Visit<V>>, b: seq<Visit<V>>)
    ensures multiset(a + b) == multiset(a) + multiset(b)
  {
  }

  lemma {:induction false} RangesCoverRecords<V>(batch: Batch<V>, cuts: seq<nat>)
    requires Cuts(batch, cuts)
    ensures multiset(RangeVisits(batch, cuts)) == multiset(Records(Range(batch, cuts[0], cuts[|cuts| - 1])))
  {
    if |cuts| > 1 {
      var first, rest := Range(batch, cuts[0], cuts[1]), Range(batch, cuts[1], cuts[|cuts| - 1]);
      assert Range(batch, cuts[0], cuts[|cuts| - 1]) == first + rest;
      RecordsConcat(first, rest);
      RangesCoverRecords(batch, cuts[1..]);
      PassesCoverRecords(first);
      MultisetConcat(Pass(first, false), Pass(first, true));
      MultisetConcat(BothPasses(batch, cuts[0], cuts[1]), RangeVisits(batch, cuts[1..]));
      MultisetConcat(Records(first), Records(rest));
    }
  }

  /** For every key, no deletion comes after an insertion. */
  ghost predicate DeletesFirst<V>(visits: seq<Visit<V>>) {
    forall a, b | 0 <= a < b < |visits| && visits[a].key == visits[b].key ::
      visits[a].weight > 0 ==> visits[b].weight >= 0
  }

  ghost predicate KeyWithin<V>(batch: Batch<V>, key: Key, low: nat, high: nat)
    requires high <= |batch|
  {
    exists k :: low <= k < high && batch[k].key == key
  }

  /** All visits are to keys between two positions. */
  ghost predicate KeysWithin<V>(batch: Batch<V>, visits: seq<Visit<V>>, low: nat, high: nat)
    requires high <= |batch|
  {
    forall a | 0 <= a < |visits| :: KeyWithin(batch, visits[a].key, low, high)
  }

  ghost predicate KeyOf<V>(groups: Batch<V>, key: Key) {
    exists k :: 0 <= k < |groups| && groups[k].key == key
  }

  /** A pass visits only wanted values, of the keys it is given. */
  ghost predicate WantedOf<V>(visits: seq<Visit<V>>, groups: Batch<V>, second: bool) {
    forall a | 0 <= a < |visits| :: Wanted(second, visits[a].weight) && KeyOf(groups, visits[a].key)
  }

  lemma {:induction false} KeyVisitsWanted<V>(key: Key, vals: seq<Entry<V>>, second: bool)
    ensures forall a | 0 <= a < |KeyVisits(key, vals, second)| ::
              var visit := KeyVisits(key, vals, second)[a]; Wanted(second, visit.weight) && visit.key == key
  {
    if vals != [] {
      KeyVisitsWanted(key, vals[1..], second);
    }
  }

  lemma {:induction false} PassWanted<V>(groups: Batch<V>, second: bool)
    ensures WantedOf(Pass(groups, second), groups, second)
  {
    if groups != [] {
      var now, later := KeyVisits(groups[0].key, groups[0].vals, second), Pass(groups[1..], second);
      KeyVisitsWanted(groups[0].key, groups[0].vals, second);
      PassWanted(groups[1..], second);
      var visits: seq<Visit<V>> := now + later;
      forall a | 0 <= a < |visits|
        ensures Wanted(second, visits[a].weight) && KeyOf(groups, visits[a].key)
      {
        if a >= |now| {
          assert KeyOf(groups[1..], later[a - |now|].key);
          var k :| 0 <= k < |groups[1..]| && groups[1..][k].key == later[a - |now|].key;
          assert groups[k + 1].key == later[a - |now|].key;
        }
      }
    }
  }

  lemma KeyOfRange<V>(batch: Batch<V>, low: nat, high: nat, key: Key)
    requires high <= |batch| && KeyOf(Range(batch, low, high), key)
    ensures KeyWithin(batch, key, low, high)
  {
    var k :| 0 <= k < |Range(batch, low, high)| && Range(batch, low, high)[k].key == key;
    assert batch[low + k].key == key;
  }

  lemma PassesInOrder<V>(batch: Batch<V>, low: nat, high: nat)
    requires high <= |batch|
    ensures DeletesFirst(BothPasses(batch, low, high)) && KeysWithin(batch, BothPasses(batch, low, high), low, high)
  {
    var range := Range(batch, low, high);
    var a, b := Pass(range, false), Pass(range, true);
    var visits: seq<Visit<V>> := a + b;
    PassWanted(range, false);
    PassWanted(range, true);
    forall i | 0 <= i < |visits|
      ensures KeyWithin(batch, visits[i].key, low, high)
    {
      assert KeyOf(range, if i < |a| then a[i].key else b[i - |a|].key);
      KeyOfRange(batch, low, high, visits[i].key);
    }
  }

  /** Output for later keys does not disturb the order of output for earlier ones. */
  lemma AppendInOrder<V>(batch: Batch<V>, a: seq<Visit<V>>, b: seq<Visit<V>>, low: nat, mid: nat, high: nat)
    requires Sorted(batch) && low <= mid <= high <= |batch|
    requires DeletesFirst(a) && KeysWithin(batch, a, low, mid)
    requires DeletesFirst(b) && KeysWithin(batch, b, mid, high)
    ensures DeletesFirst(a + b) && KeysWithin(batch, a + b, low, high)
  {
    forall i, j | 0 <= i < |a| && 0 <= j < |b|
      ensures a[i].key != b[j].key
    {
      assert KeyWithin(batch, a[i].key, low, mid) && KeyWithin(batch, b[j].key, mid, high);
    }
    forall i | 0 <= i < |a + b|
      ensures KeyWithin(batch, (a + b)[i].key, low, high)
    {
      if i < |a| {
        assert KeyWithin(batch, a[i].key, low, mid);
      } else {
        assert KeyWithin(batch, b[i - |a|].key, mid, high);
      }
    }
  }

  lemma {:induction false} RangesInOrder<V>(batch: Batch<V>, cuts: seq<nat>)
    requires Sorted(batch) && Cuts(batch, cuts)
    ensures DeletesFirst(RangeVisits(batch, cuts))
    ensures KeysWithin(batch, RangeVisits(batch, cuts), cuts[0], cuts[|cuts| - 1])
  {
    if |cuts| > 1 {
      var now, later := BothPasses(batch, cuts[0], cuts[1]), RangeVisits(batch, cuts[1..]);
      PassesInOrder(batch, cuts[0], cuts[1]);
      RangesInOrder(batch, cuts[1..]);
      AppendInOrder(batch, now, later, cuts[0], cuts[1], cuts[|cuts| - 1]);
    }
  }

  lemma RangesCoverAll<V>(batch: Batch<V>, cuts: seq<nat>)
    requires Sorted(batch) && Cuts(batch, cuts) && cuts[0] == 0 && cuts[|cuts| - 1] == |batch|
    ensures multiset(RangeVisits(batch, cuts)) == multiset(Records(batch)) && DeletesFirst(RangeVisits(batch, cuts))
  {
    RangesCoverRecords(batch, cuts);
    RangesInOrder(batch, cuts);
    assert Range(batch, 0, |batch|) == batch;
  }

  /** The cuts that a list of bounds makes, with both ends of the batch. */
  function CutList<V>(batch: Batch<V>, bounds: seq<Key>): (cuts: seq<nat>)
    ensures |cuts| == |bounds| + 2
    ensures forall i | 0 <= i < |cuts| :: cuts[i] == CutAt(batch, bounds, i)
  {
    seq(|bounds| + 2, i requires 0 <= i => CutAt(batch, bounds, i))
  }

  lemma CutListCuts<V>(batch: Batch<V>, bounds: seq<Key>)
    requires Sorted(batch) && BoundsOf(batch, bounds)
    ensures Cuts(batch, CutList(batch, bounds))
  {
    var cuts := CutList(batch, bounds);
    forall i, j | 0 <= i <= j < |cuts|
      ensures cuts[i] <= cuts[j]
    {
      if 0 < i < j <= |bounds| {
        CutsInOrder(batch, bounds[i - 1], bounds[j - 1]);
      }
    }
  }

  /** The partitions, from `i` on, are the ranges between the cuts. */
  lemma {:induction false} PartitionsAreRanges<V>(batch: Batch<V>, bounds: seq<Key>, miss: Key -> nat,
                                                  parts: seq<seq<Visit<V>>>, cuts: seq<nat>, i: nat)
    requires Sorted(batch) && BoundsOf(batch, bounds)
    requires cuts == CutList(batch, bounds) && i < |cuts| && Cuts(batch, cuts[i..])
    requires |parts| == |bounds| + 1
    requires forall k | 0 <= k < |parts| :: parts[k] == PartitionVisits(batch, bounds, k, miss)
    ensures Join(parts[i..]) == RangeVisits(batch, cuts[i..])
    decreases |cuts| - i
  {
    if i <= |bounds| {
      PartitionCovers(batch, bounds, i, miss);
      assert parts[i..][1..] == parts[i + 1..] && cuts[i..][1..] == cuts[i + 1..];
      PartitionsAreRanges(batch, bounds, miss, parts, cuts, i + 1);
    }
  }

  /** Over all partitions together, every record of nonzero weight is visited exactly once, and for each
      key every deletion is visited before every insertion. */
  lemma PartitionedTraversal<V>(batch: Batch<V>, bounds: seq<Key>, miss: Key -> nat)
    requires Sorted(batch) && BoundsOf(batch, bounds)
    ensures var visits := AllVisits(batch, bounds, miss);
            && multiset(visits) == multiset(Records(batch))
            && DeletesFirst(visits)
  {
    var parts := Outputs(batch, bounds, miss);
    var cuts := CutList(batch, bounds);
    CutListCuts(batch, bounds);
    assert parts[0..] == parts && cuts[0..] == cuts;
    PartitionsAreRanges(batch, bounds, miss, parts, cuts, 0);
    RangesCoverAll(batch, cuts);
  }

  method TraverseIndex<V>(batch: Batch<V>, bounds: seq<Key>, index: nat, miss: Key -> nat)
    returns (visited: seq<Visit<V>>)
    requires Sorted(batch)
    ensures visited == PartitionVisits(batch, bounds, index, miss)
  {
    visited := [];
    var partition := FromBounds(batch, bounds, index, miss);
    if partition.Some? {
      visited := TraversePartition(batch, partition.value);
    }
  }

  /** Traverses one partition after the other, skipping those without a cursor. */
  method TraverseAll<V>(batch: Batch<V>, bounds: seq<Key>, miss: Key -> nat) returns (visited: seq<Visit<V>>)
    requires Sorted(batch) && BoundsOf(batch, bounds)
    ensures visited == AllVisits(batch, bounds, miss)
    ensures multiset(visited) == multiset(Records(batch)) && DeletesFirst(visited)
  {
    ghost var parts := Outputs(batch, bounds, miss);
    visited := [];
    var i := 0;
    while i <= |bounds|
      invariant i <= |bounds| + 1
      invariant visited == Join(parts[..i])
    {
      JoinTake(parts, i);
      var output := TraverseIndex(batch, bounds, i, miss);
      visited := visited + output;
      i := i + 1;
    }
    assert parts[..i] == parts;
    PartitionedTraversal(batch, bounds, miss);
  }

  /** An index past the last partition is not rejected: it yields the whole batch once more. */
  lemma StrayIndexCoversAll<V>(batch: Batch<V>, bounds: seq<Key>, index: nat, miss: Key -> nat)
    requires Sorted(batch) && index > |bounds|
    ensures PartitionVisits(batch, bounds, index, miss) == BothPasses(batch, 0, |batch|)
  {
    if batch != [] {
      SeekIsUnique(batch, batch[0].key, 0);
    }
  }

  // ---------------------------------------------------------------- operations on a unique index

  datatype IndexedOperation = InsertOp | DeleteOp | UpsertOp

  datatype Violation = InsertedTimes(weight: int) | DeletedTimes(weight: int) | MultipleNew | MultipleDeleted

  datatype Classified = Unique(operation: Option<IndexedOperation>) | NotUnique(violation: Violation)

  /** How often the first `p` values are inserted, and deleted. */
  function Insertions<V>(vals: seq<Entry<V>>, p: nat): nat
    requires p <= |vals|
  {
    if p == 0 then 0
    else Insertions(vals, p - 1) + (if vals[p - 1].weight > 0 then vals[p - 1].weight else 0)
  }

  function Deletions<V>(vals: seq<Entry<V>>, p: nat): nat
    requires p <= |vals|
  {
    if p == 0 then 0
    else Deletions(vals, p - 1) + (if vals[p - 1].weight < 0 then -vals[p - 1].weight else 0)
  }

  /** The first `p` values insert the key at most once and delete it at most once. */
  predicate UniqueUpTo<V>(vals: seq<Entry<V>>, p: nat)
    requires p <= |vals|
  {
    Insertions(vals, p) <= 1 && Deletions(vals, p) <= 1
  }

  lemma {:induction false} UniquePrefix<V>(vals: seq<Entry<V>>, p: nat, q: nat)
    requires p <= q <= |vals| && UniqueUpTo(vals, q)
    ensures UniqueUpTo(vals, p)
    decreases q - p
  {
    if p < q {
      UniquePrefix(vals, p, q - 1);
    }
  }

  /** Why value `p` breaks uniqueness: it is inserted or deleted more than once, or another one before it was. */
  ghost predicate Explains<V>(violation: Violation, vals: seq<Entry<V>>, p: nat)
    requires p < |vals|
  {
    match violation
    case InsertedTimes(w) => vals[p].weight == w > 1
    case DeletedTimes(w) => vals[p].weight == -w < -1
    case MultipleNew => vals[p].weight == 1 && exists q :: 0 <= q < p && vals[q].weight == 1
    case MultipleDeleted => vals[p].weight == -1 && exists q :: 0 <= q < p && vals[q].weight == -1
  }

  /** Classifies the updates of the key under the cursor: each key may be inserted once and deleted once.
      Otherwise the cursor is left at the first value that breaks this, and the result says how. */
  method ClassifyKey<V>(c: BatchCursor<V>) returns (r: Classified)
    requires c.KeyValid() && c.valIndex == 0
    modifies c
    ensures c.keyIndex == old(c.keyIndex) && c.valIndex <= |c.batch[c.keyIndex].vals|
    ensures var vals := c.batch[c.keyIndex].vals;
            r.Unique? ==>
              && UniqueUpTo(vals, |vals|)
              && r.operation == (if Insertions(vals, |vals|) == 1
                                 then Some(if Deletions(vals, |vals|) == 1 then UpsertOp else InsertOp)
                                 else if Deletions(vals, |vals|) == 1 then Some(DeleteOp) else None)
    ensures var vals, p := c.batch[c.keyIndex].vals, c.valIndex;
            r.NotUnique? ==>
              && p < |vals| && UniqueUpTo(vals, p) && !UniqueUpTo(vals, p + 1) && !UniqueUpTo(vals, |vals|)
              && Explains(r.violation, vals, p)
  {
    ghost var vals := c.batch[c.keyIndex].vals;
    var foundInsert, foundDelete := false, false;
    while c.ValValid()
      invariant c.keyIndex == old(c.keyIndex) && c.valIndex <= |vals|
      invariant Insertions(vals, c.valIndex) == if foundInsert then 1 else 0
      invariant Deletions(vals, c.valIndex) == if foundDelete then 1 else 0
      invariant foundInsert ==> exists q :: 0 <= q < c.valIndex && vals[q].weight == 1
      invariant foundDelete ==> exists q :: 0 <= q < c.valIndex && vals[q].weight == -1
      decreases |vals| - c.valIndex
    {
      var w := c.batch[c.keyIndex].vals[c.valIndex].weight;
      if !UniqueUpTo(vals, c.valIndex + 1) && UniqueUpTo(vals, |vals|) {
        UniquePrefix(vals, c.valIndex + 1, |vals|);
      }
      if w > 1 {
        return NotUnique(InsertedTimes(w));
      }
      if w < -1 {
        return NotUnique(DeletedTimes(-w));
      }
      if w == 1 {
        if foundInsert {
          return NotUnique(MultipleNew);
        }
        foundInsert := true;
      }
      if w == -1 {
        if foundDelete {
          return NotUnique(MultipleDeleted);
        }
        foundDelete := true;
      }
      c.StepVal();
    }
    r := Unique(
      if foundInsert then Some(if foundDelete then UpsertOp else InsertOp)
      else if foundDelete then Some(DeleteOp) else None);
  }
}
