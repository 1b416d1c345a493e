/** The queue between the parsers of a connector and the circuit.

Producers push entries; one flusher drains them in steps, under a limit on the number
of records a step may carry.  Entries can open and close a transaction.  The state and
the two ways of flushing are given as functions; the class at the end has the loops
and is proved to compute them.  Pushes that happen while a flush does not hold the
lock are a parameter of the flush: `arrivals[i]` are the entries pushed at its `i`-th
lock release.
*/
module InputQueues {
  import opened Options
  import opened Buffers
  import opened Sequences

  // ---------------------------------------------------------------- data

  /** A buffer in the queue: a leaf buffer, or the vector of buffers a preprocessing parser returns. */
  datatype InputBuffer<+R> = Leaf(leaf: Buffer<R>) | Vec(items: seq<Buffer<R>>)

  function Records<R>(b: InputBuffer<R>): seq<R> {
    match b
    case Leaf(leaf) => leaf.records
    case Vec(items) => Flatten(items)
  }

  function ByteCount<R>(b: InputBuffer<R>): nat {
    if b.Leaf? then b.leaf.bytes else Bytes(b.items)
  }

  predicate IsEmpty<R>(b: InputBuffer<R>) {
    Records(b) == [] && ByteCount(b) == 0
  }

  /** The records that `take_some` removes, and the buffer it leaves behind. */
  function TakeFrom<R>(b: InputBuffer<R>, n: nat): (seq<R>, InputBuffer<R>) {
    match b
    case Leaf(leaf) =>
      var (head, rest) := Take(leaf, n);
      (if head.Some? then head.value.records else [], Leaf(rest))
    case Vec(items) =>
      var (taken, rest) := VecTake(items, n);
      (Flatten(taken), Vec(rest))
  }

  type Label = Option<string>

  datatype Entry<+A, +R> = Entry(buffer: Option<InputBuffer<R>>, timestamp: nat,
                                 start: Option<Label>, commit: bool, aux: A)

  /** What the circuit is told. */
  datatype Event<+R> = Start(name: Label) | Record(record: R) | Commit

  /** `log` is all the circuit was told so far and `pushed` are all entries ever pushed. */
  datatype State<+A, +R> = State(queue: seq<Entry<A, R>>, inTransaction: bool,
                                 log: seq<Event<R>>, pushed: seq<Entry<A, R>>)

  type Arrivals<A, R> = seq<seq<Entry<A, R>>>

  function Now<A, R>(arrivals: Arrivals<A, R>): seq<Entry<A, R>> {
    if arrivals == [] then [] else arrivals[0]
  }

  function Later<A, R>(arrivals: Arrivals<A, R>): Arrivals<A, R> {
    if arrivals == [] then [] else arrivals[1..]
  }

  function Count<A, R>(arrivals: Arrivals<A, R>): nat {
    if arrivals == [] then 0 else |arrivals[0]| + Count(arrivals[1..])
  }

  function ToEvents<R>(records: seq<R>): (events: seq<Event<R>>)
    ensures |events| == |records|
    ensures forall i | 0 <= i < |records| :: events[i] == Record(records[i])
  {
    seq(|records|, i requires 0 <= i < |records| => Record(records[i]))
  }

  function EntryRecords<A, R>(e: Entry<A, R>): seq<R> {
    if e.buffer.Some? then Records(e.buffer.value) else []
  }

  // ---------------------------------------------------------------- the flushes

  function Push<A, R>(s: State<A, R>, es: seq<Entry<A, R>>): State<A, R> {
    s.(queue := s.queue + es, pushed := s.pushed + es)
  }

  function StartTransaction<A, R>(s: State<A, R>, name: Label): State<A, R> {
    if !s.inTransaction then s.(inTransaction := true, log := s.log + [Start(name)]) else s
  }

  function CommitTransaction<A, R>(s: State<A, R>): State<A, R> {
    if s.inTransaction then s.(inTransaction := false, log := s.log + [Commit]) else s
  }

  function StartIf<A, R>(s: State<A, R>, start: Option<Label>): State<A, R> {
    if start.Some? then StartTransaction(s, start.value) else s
  }

  /** Pops the front entry; pushes may land before the pop and right after it. */
  function Pop<A, R>(s: State<A, R>, arrivals: Arrivals<A, R>): (r: (State<A, R>, Option<Entry<A, R>>))
    ensures r.1.Some? ==> |r.0.queue| + Count(Later(Later(arrivals))) < |s.queue| + Count(arrivals)
  {
    var s1 := Push(s, Now(arrivals));
    if s1.queue == [] then (s1, None)
    else (Push(s1.(queue := s1.queue[1..]), Now(Later(arrivals))), Some(s1.queue[0]))
  }

  function Emit<A, R>(s: State<A, R>, records: seq<R>): State<A, R> {
    s.(log := s.log + ToEvents(records))
  }

  /** After one iteration of the splitting step: the state, the records that still fit, and whether it goes on. */
  datatype Iteration<+A, +R> = Iteration(state: State<A, R>, room: nat, more: bool)

  lemma TakeBound<R>(b: InputBuffer<R>, n: nat)
    ensures |TakeFrom(b, n).0| <= n
  {
    if b.Vec? {
      VecTakeConserves(b.items, n);
    }
  }

  function TakeFromEntry<A, R>(e: Entry<A, R>, room: nat): (r: (seq<R>, InputBuffer<R>))
    ensures |r.0| <= room
  {
    if e.buffer.Some? then
      TakeBound(e.buffer.value, room);
      TakeFrom(e.buffer.value, room)
    else ([], Vec([]))
  }

  /** Handles popped entry `e` with room for `room` more records; what does not fit goes back to the front. */
  function Handle<A, R>(s: State<A, R>, e: Entry<A, R>, room: nat): (it: Iteration<A, R>)
    ensures it.more ==> it.state.queue == s.queue
  {
    var (taken, rest) := TakeFromEntry(e, room);
    var s1 := Emit(StartIf(s, e.start), taken);
    if !IsEmpty(rest) then
      Iteration(s1.(queue := [e.(buffer := Some(rest), start := None)] + s1.queue), room - |taken|, false)
    else
      Iteration(if e.commit then CommitTransaction(s1) else s1, room - |taken|, !e.commit)
  }

  /** One iteration of the splitting step. */
  function Iterate<A, R>(it: Iteration<A, R>, arrivals: Arrivals<A, R>): (next: Iteration<A, R>)
    ensures next.more ==> |next.state.queue| + Count(Later(Later(arrivals))) < |it.state.queue| + Count(arrivals)
  {
    var (s1, popped) := Pop(it.state, arrivals);
    if popped.None? then Iteration(s1, it.room, false)
    else Handle(s1, popped.value, it.room)
  }

  function QueueFrom<A, R>(it: Iteration<A, R>, arrivals: Arrivals<A, R>): Iteration<A, R>
    decreases it.more, |it.state.queue| + Count(arrivals)
  {
    if !it.more || it.room == 0 then it
    else QueueFrom(Iterate(it, arrivals), Later(Later(arrivals)))
  }

  /** The step that splits buffers so as never to exceed `n` records. */
  function QueueStep<A, R>(s: State<A, R>, n: nat, arrivals: Arrivals<A, R>): Iteration<A, R> {
    QueueFrom(Iteration(s, n, true), arrivals)
  }

  /** The result of a flush of whole buffers: the entries it consumed, in order. */
  datatype Flushed<+A, +R> = Flushed(state: State<A, R>, total: nat, stopped: bool, consumed: seq<Entry<A, R>>)

  /** The whole effect of one entry: start mark, records, commit mark. */
  function Apply<A, R>(s: State<A, R>, e: Entry<A, R>): State<A, R> {
    var s1 := Emit(StartIf(s, e.start), EntryRecords(e));
    if e.commit then CommitTransaction(s1) else s1
  }

  predicate Commits<A, R>(s: State<A, R>, e: Entry<A, R>) {
    e.commit && StartIf(s, e.start).inTransaction
  }

  /** Consumes popped entry `e`. */
  function Consume<A, R>(f: Flushed<A, R>, s: State<A, R>, e: Entry<A, R>, stopAt: A -> bool): Flushed<A, R> {
    Flushed(Apply(s, e), f.total + |EntryRecords(e)|, stopAt(e.aux), f.consumed + [e])
  }

  /** The first loop of the flush with auxiliary data: whole buffers, up to the limit or a stop mark. */
  function FlushFrom<A, R>(f: Flushed<A, R>, n: nat, stopAt: A -> bool, arrivals: Arrivals<A, R>): Flushed<A, R>
    decreases |f.state.queue| + Count(arrivals)
  {
    if f.stopped || f.total >= n then f
    else
      var (s1, popped) := Pop(f.state, arrivals);
      if popped.None? then f.(state := s1)
      else
        var e := popped.value;
        var g := Consume(f, s1, e, stopAt);
        if Commits(s1, e) then g else FlushFrom(g, n, stopAt, Later(Later(arrivals)))
  }

  /** The second loop: entries with auxiliary data only, while the lock is held. */
  function AuxFrom<A, R>(f: Flushed<A, R>, stopAt: A -> bool): Flushed<A, R>
    decreases |f.state.queue|
  {
    if f.stopped || f.state.queue == [] || f.state.queue[0].buffer.Some? then f
    else
      var e := f.state.queue[0];
      var s1 := f.state.(queue := f.state.queue[1..]);
      var g := Consume(f, s1, e, stopAt);
      if Commits(s1, e) then g else AuxFrom(g, stopAt)
  }

  /** A flush with auxiliary data; `last` are the pushes before it takes the lock for its second loop. */
  function FlushUntil<A, R>(s: State<A, R>, n: nat, stopAt: A -> bool,
                            arrivals: Arrivals<A, R>, last: seq<Entry<A, R>>): Flushed<A, R> {
    var f := FlushFrom(Flushed(s, 0, false, []), n, stopAt, arrivals);
    AuxFrom(f.(state := Push(f.state, last)), stopAt)
  }

  /** The timestamps and auxiliary data of a list of entries. */
  ghost predicate AuxOf<A, R>(aux: seq<(nat, A)>, es: seq<Entry<A, R>>) {
    |aux| == |es| && forall i | 0 <= i < |es| :: aux[i] == (es[i].timestamp, es[i].aux)
  }

  // ---------------------------------------------------------------- the queue as an object

  class InputQueue<A(==), R(==)> {
    var queue: seq<Entry<A, R>>
    var transactionInProgress: bool
    /** What the consumer was told. */
    var log: seq<Event<R>>
    ghost var pushed: seq<Entry<A, R>>
    /** The fields as one value. */
    ghost var state: State<A, R>

    ghost predicate Valid()
      reads this
    {
      state == State(queue, transactionInProgress, log, pushed)
    }

    constructor ()
      ensures Valid() && state == State([], false, [], [])
    {
      queue, transactionInProgress, log, pushed := [], false, [], [];
      state := State([], false, [], []);
    }

    method PushEntries(es: seq<Entry<A, R>>)
      requires Valid()
      modifies this
      ensures Valid() && state == Push(old(state), es)
    {
      queue := queue + es;
      pushed := pushed + es;
      state := Push(state, es);
    }

    method Start(name: Label) returns (started: bool)
      requires Valid()
      modifies this
      ensures Valid() && state == StartTransaction(old(state), name)
      ensures started == !old(transactionInProgress)
    {
      started := !transactionInProgress;
      if started {
        transactionInProgress := true;
        log := log + [Event.Start(name)];
      }
      state := StartTransaction(state, name);
    }

    method Commit() returns (committed: bool)
      requires Valid()
      modifies this
      ensures Valid() && state == CommitTransaction(old(state))
      ensures committed == old(state).inTransaction
    {
      committed := transactionInProgress;
      if committed {
        transactionInProgress := false;
        log := log + [Event.Commit];
      }
      state := CommitTransaction(state);
    }

    /** Pushes records to the circuit. */
    method EmitRecords(records: seq<R>)
      requires Valid()
      modifies this
      ensures Valid() && state == Emit(old(state), records)
    {
      log := log + ToEvents(records);
      state := Emit(state, records);
    }

    /** One lock acquisition to pop the front entry, with the pushes that land around it. */
    method PopFront(arrivals: Arrivals<A, R>) returns (popped: Option<Entry<A, R>>)
      requires Valid()
      modifies this
      ensures Valid() && (state, popped) == Pop(old(state), arrivals)
    {
      PushEntries(Now(arrivals));
      if queue == [] {
        popped := None;
      } else {
        popped := Some(queue[0]);
        queue := queue[1..];
        state := state.(queue := queue);
        PushEntries(Now(Later(arrivals)));
      }
    }

    /** Flushes at most `n` records, splitting the buffer that does not fit. */
    method Queue(n: nat, arrivals: Arrivals<A, R>) returns (total: nat)
      requires Valid()
      modifies this
      ensures Valid() && state == QueueStep(old(state), n, arrivals).state
      ensures total + QueueStep(old(state), n, arrivals).room == n
    {
      total := 0;
      var coming := arrivals;
      ghost var it := Iteration(state, n, true);
      while total < n
        invariant Valid() && total + it.room == n && it == Iteration(state, it.room, true)
        invariant QueueFrom(it, coming) == QueueStep(old(state), n, arrivals)
        decreases |queue| + Count(coming)
      {
        var room := n - total;
        assert room == it.room;
        it := Iterate(it, coming);
        var popped := PopFront(coming);
        if popped.None? {
          return;
        }
        coming := Later(Later(coming));
        var flushed, more := HandleEntry(popped.value, room);
        total := total + flushed;
        if !more {
          return;
        }
      }
    }

    /** The body of the loop: one popped entry, with room for `room` more records. */
    method HandleEntry(e: Entry<A, R>, room: nat) returns (flushed: nat, more: bool)
      requires Valid()
      modifies this
      ensures Valid() && state == Handle(old(state), e, room).state
      ensures more == Handle(old(state), e, room).more
      ensures flushed + Handle(old(state), e, room).room == room
    {
      flushed, more := 0, true;
      if e.start.Some? {
        var _ := Start(e.start.value);
      }
      if e.buffer.Some? {
        var (taken, rest) := TakeFrom(e.buffer.value, room);
        flushed := |taken|;
        EmitRecords(taken);
        if !IsEmpty(rest) {
          queue := [e.(buffer := Some(rest), start := None)] + queue;
          state := state.(queue := queue);
          return flushed, false;
        }
      } else {
        assert log + ToEvents([]) == log;
      }
      if e.commit {
        var _ := Commit();
        more := false;
      }
    }

    /** Flushes whole buffers until `n` records are flushed or a stop mark is met; returns the consumed aux data. */
    method FlushWithAuxUntil(n: nat, stopAt: A -> bool, arrivals: Arrivals<A, R>, last: seq<Entry<A, R>>)
      returns (total: nat, consumedAux: seq<(nat, A)>, ghost consumed: seq<Entry<A, R>>)
      requires Valid()
      modifies this
      ensures Valid() && AuxOf(consumedAux, consumed)
      ensures var f := FlushUntil(old(state), n, stopAt, arrivals, last);
              state == f.state && total == f.total && consumed == f.consumed
    {
      var stop;
      ghost var f;
      total, stop, consumedAux, f := FlushBuffers(n, stopAt, arrivals);
      PushEntries(last);
      f := f.(state := state);
      ghost var g := AuxFrom(f, stopAt);
      while !stop && queue != [] && queue[0].buffer.None?
        invariant Valid() && f.state == state && f.total == total && f.stopped == stop
        invariant g == AuxFrom(f, stopAt)
        invariant AuxOf(consumedAux, f.consumed)
        decreases |queue|
      {
        var e := queue[0];
        queue := queue[1..];
        state := state.(queue := queue);
        f := Consume(f, state, e, stopAt);
        var committed := ApplyEntry(e);
        stop := stopAt(e.aux);
        consumedAux := consumedAux + [(e.timestamp, e.aux)];
        if committed {
          break;
        }
      }
      consumed := f.consumed;
    }

    /** The first loop of the flush: it takes the lock once per entry. */
    method FlushBuffers(n: nat, stopAt: A -> bool, arrivals: Arrivals<A, R>)
      returns (total: nat, stop: bool, consumedAux: seq<(nat, A)>, ghost f: Flushed<A, R>)
      requires Valid()
      modifies this
      ensures Valid() && AuxOf(consumedAux, f.consumed)
      ensures f == FlushFrom(Flushed(old(state), 0, false, []), n, stopAt, arrivals)
      ensures f.state == state && f.total == total && f.stopped == stop
    {
      total, stop, consumedAux := 0, false, [];
      var coming := arrivals;
      f := Flushed(state, 0, false, []);
      ghost var result := FlushFrom(f, n, stopAt, arrivals);
      while !stop && total < n
        invariant Valid() && f.state == state && f.total == total && f.stopped == stop
        invariant FlushFrom(f, n, stopAt, coming) == result
        invariant AuxOf(consumedAux, f.consumed)
        decreases |queue| + Count(coming)
      {
        var popped := PopFront(coming);
        if popped.None? {
          f := f.(state := state);
          return;
        }
        coming := Later(Later(coming));
        var e := popped.value;
        f := Consume(f, state, e, stopAt);
        var committed := ApplyEntry(e);
        total := total + |EntryRecords(e)|;
        stop := stopAt(e.aux);
        consumedAux := consumedAux + [(e.timestamp, e.aux)];
        if committed {
          return;
        }
      }
    }

    /** Tells the consumer about a popped entry: start mark, all records, commit mark. */
    method ApplyEntry(e: Entry<A, R>) returns (committed: bool)
      requires Valid()
      modifies this
      ensures Valid() && state == Apply(old(state), e)
      ensures committed == Commits(old(state), e)
    {
      if e.start.Some? {
        var _ := Start(e.start.value);
      }
      if e.buffer.Some? {
        EmitRecords(Records(e.buffer.value));
      } else {
        assert log + ToEvents([]) == log;
      }
      committed := false;
      if e.commit {
        committed := Commit();
      }
    }
  }

  // ---------------------------------------------------------------- meaning

  /** What the circuit must be told about one entry, given whether a transaction is open. */
  function EntryMeaning<A, R>(e: Entry<A, R>, open: bool): seq<Event<R>> {
    (if e.start.Some? && !open then [Start(e.start.value)] else [])
    + ToEvents(EntryRecords(e))
    + (if e.commit && (open || e.start.Some?) then [Commit] else [])
  }

  predicate OpenAfter<A, R>(e: Entry<A, R>, open: bool) {
    (open || e.start.Some?) && !e.commit
  }

  /** What the circuit must be told about a list of entries, whatever the steps are. */
  function Meaning<A, R>(es: seq<Entry<A, R>>, open: bool): seq<Event<R>> {
    if es == [] then [] else EntryMeaning(es[0], open) + Meaning(es[1..], OpenAfter(es[0], open))
  }

  predicate OpenAfterAll<A, R>(es: seq<Entry<A, R>>, open: bool) {
    if es == [] then open else OpenAfterAll(es[1..], OpenAfter(es[0], open))
  }

  lemma MeaningCons<A, R>(e: Entry<A, R>, es: seq<Entry<A, R>>, open: bool)
    ensures Meaning([e] + es, open) == EntryMeaning(e, open) + Meaning(es, OpenAfter(e, open))
    ensures OpenAfterAll([e] + es, open) == OpenAfterAll(es, OpenAfter(e, open))
  {
    assert ([e] + es)[1..] == es;
  }

  lemma {:induction false} MeaningConcat<A, R>(a: seq<Entry<A, R>>, b: seq<Entry<A, R>>, open: bool)
    ensures Meaning(a + b, open) == Meaning(a, open) + Meaning(b, OpenAfterAll(a, open))
    ensures OpenAfterAll(a + b, open) == OpenAfterAll(b, OpenAfterAll(a, open))
  {
    if a == [] {
      assert a + b == b;
    } else {
      var e, rest, open1 := a[0], a[1..], OpenAfter(a[0], open);
      MeaningConcat(rest, b, open1);
      assert a == [e] + rest;
      MeaningCons(e, rest, open);
      Assoc([e], rest, b);
      MeaningCons(e, rest + b, open);
      Assoc(EntryMeaning(e, open), Meaning(rest, open1), Meaning(b, OpenAfterAll(rest, open1)));
    }
  }

  /** Buffers that every sequence of splits takes apart without loss. */
  ghost predicate Lossless<R>(b: InputBuffer<R>) {
    b.Vec? ==> Light(b.items)
  }

  ghost predicate LosslessEntry<A, R>(e: Entry<A, R>) {
    e.buffer.Some? ==> Lossless(e.buffer.value)
  }

  ghost predicate AllLossless<A, R>(es: seq<Entry<A, R>>) {
    forall e | e in es :: LosslessEntry(e)
  }

  /** The log, continued with the meaning of what is in hand and in the queue, is the meaning of all that was pushed. */
  ghost predicate Consistent<A, R>(s: State<A, R>, hand: seq<Entry<A, R>>) {
    && s.log + Meaning(hand + s.queue, s.inTransaction) == Meaning(s.pushed, false)
    && OpenAfterAll(hand + s.queue, s.inTransaction) == OpenAfterAll(s.pushed, false)
  }

  lemma PushKeeps<A, R>(s: State<A, R>, hand: seq<Entry<A, R>>, es: seq<Entry<A, R>>)
    requires Consistent(s, hand)
    ensures Consistent(Push(s, es), hand)
  {
    var waiting := hand + s.queue;
    MeaningConcat(waiting, es, s.inTransaction);
    MeaningConcat(s.pushed, es, false);
    Assoc(hand, s.queue, es);
    Assoc(s.log, Meaning(waiting, s.inTransaction), Meaning(es, OpenAfterAll(waiting, s.inTransaction)));
  }

  /** Taking the front entry in hand keeps the invariant. */
  lemma FrontInHand<A, R>(s: State<A, R>)
    requires Consistent(s, []) && s.queue != []
    ensures Consistent(s.(queue := s.queue[1..]), [s.queue[0]])
  {
    assert [s.queue[0]] + s.queue[1..] == [] + s.queue;
  }

  lemma PopKeeps<A, R>(s: State<A, R>, arrivals: Arrivals<A, R>)
    requires Consistent(s, [])
    ensures var (s1, popped) := Pop(s, arrivals);
            Consistent(s1, if popped.Some? then [popped.value] else [])
  {
    PushKeeps(s, [], Now(arrivals));
    var s1 := Push(s, Now(arrivals));
    if s1.queue != [] {
      FrontInHand(s1);
      PushKeeps(s1.(queue := s1.queue[1..]), [s1.queue[0]], Now(Later(arrivals)));
    }
  }

  /** Moving an entry in hand to `after` by telling the circuit `told` keeps the invariant. */
  lemma TellKeeps<A, R>(s: State<A, R>, e: Entry<A, R>, t: State<A, R>, after: Entry<A, R>, told: seq<Event<R>>)
    requires Consistent(s, [e])
    requires t == State(s.queue, t.inTransaction, s.log + told, s.pushed)
    requires EntryMeaning(e, s.inTransaction) == told + EntryMeaning(after, t.inTransaction)
    requires OpenAfter(e, s.inTransaction) == OpenAfter(after, t.inTransaction)
    ensures Consistent(t, [after])
  {
    MeaningCons(e, s.queue, s.inTransaction);
    MeaningCons(after, s.queue, t.inTransaction);
    var now, later := EntryMeaning(after, t.inTransaction), Meaning(s.queue, OpenAfter(after, t.inTransaction));
    Assoc(told, now, later);
    Assoc(s.log, told, now + later);
  }

  lemma StartMeaning<A, R>(e: Entry<A, R>, open: bool)
    ensures EntryMeaning(e, open)
         == (if e.start.Some? && !open then [Start(e.start.value)] else [])
            + EntryMeaning(e.(start := None), open || e.start.Some?)
  {
    var records := ToEvents(EntryRecords(e));
    var start: seq<Event<R>> := if e.start.Some? && !open then [Start(e.start.value)] else [];
    var end: seq<Event<R>> := if e.commit && (open || e.start.Some?) then [Commit] else [];
    assert [] + records == records;
    Assoc(start, records, end);
  }

  lemma RecordsMeaning<A, R>(e: Entry<A, R>, taken: seq<R>, after: Entry<A, R>, open: bool)
    requires e.start.None? && after == e.(buffer := after.buffer)
    requires EntryRecords(e) == taken + EntryRecords(after)
    ensures EntryMeaning(e, open) == ToEvents(taken) + EntryMeaning(after, open)
  {
    var head, tail := ToEvents(taken), ToEvents(EntryRecords(after));
    var end: seq<Event<R>> := if e.commit && open then [Commit] else [];
    assert ToEvents(EntryRecords(e)) == head + tail;
    assert [] + (head + tail) == head + tail && [] + tail == tail;
    Assoc(head, tail, end);
  }

  lemma StartKeeps<A, R>(s: State<A, R>, e: Entry<A, R>)
    requires Consistent(s, [e])
    ensures Consistent(StartIf(s, e.start), [e.(start := None)])
  {
    var told: seq<Event<R>> := if e.start.Some? && !s.inTransaction then [Start(e.start.value)] else [];
    StartMeaning(e, s.inTransaction);
    TellKeeps(s, e, StartIf(s, e.start), e.(start := None), told);
  }

  lemma EmitKeeps<A, R>(s: State<A, R>, e: Entry<A, R>, taken: seq<R>, after: Entry<A, R>)
    requires Consistent(s, [e]) && e.start.None?
    requires after == e.(buffer := after.buffer) && EntryRecords(e) == taken + EntryRecords(after)
    ensures Consistent(Emit(s, taken), [after])
  {
    RecordsMeaning(e, taken, after, s.inTransaction);
    TellKeeps(s, e, Emit(s, taken), after, ToEvents(taken));
  }

  /** With start mark and records dealt with, what remains of an entry is its commit mark. */
  lemma FinishMeaning<A, R>(e: Entry<A, R>, open: bool)
    requires e.start.None? && EntryRecords(e) == []
    ensures EntryMeaning(e, open) == if e.commit && open then [Commit] else []
  {
    var none: seq<Event<R>> := ToEvents(EntryRecords(e));
    assert none == [];
  }

  lemma FinishKeeps<A, R>(s: State<A, R>, e: Entry<A, R>)
    requires Consistent(s, [e]) && e.start.None? && EntryRecords(e) == []
    ensures Consistent(if e.commit then CommitTransaction(s) else s, [])
  {
    var told: seq<Event<R>> := if e.commit && s.inTransaction then [Commit] else [];
    FinishMeaning(e, s.inTransaction);
    MeaningCons(e, s.queue, s.inTransaction);
    Assoc(s.log, told, Meaning(s.queue, OpenAfter(e, s.inTransaction)));
    assert [] + s.queue == s.queue;
    assert s.log + [] == s.log;
  }

  /** Splitting a lossless buffer loses nothing and leaves a lossless buffer. */
  lemma TakeKeeps<R>(b: InputBuffer<R>, n: nat)
    requires Lossless(b)
    ensures var (taken, rest) := TakeFrom(b, n);
            taken + Records(rest) == Records(b) && Lossless(rest)
  {
    match b
    case Leaf(leaf) =>
    case Vec(items) =>
      LightKept(items, n);
      VecTakeConserves(items, n);
  }

  ghost predicate Good<A, R>(s: State<A, R>) {
    Consistent(s, []) && AllLossless(s.queue)
  }

  ghost predicate LosslessArrivals<A, R>(arrivals: Arrivals<A, R>) {
    forall es | es in arrivals :: AllLossless(es)
  }

  /** The invariant while an entry is in hand. */
  ghost predicate GoodWith<A, R>(s: State<A, R>, e: Entry<A, R>) {
    Consistent(s, [e]) && AllLossless(s.queue) && LosslessEntry(e)
  }

  lemma PopLossless<A, R>(s: State<A, R>, arrivals: Arrivals<A, R>)
    requires AllLossless(s.queue) && LosslessArrivals(arrivals)
    ensures LosslessArrivals(Later(Later(arrivals)))
    ensures var (s1, popped) := Pop(s, arrivals);
            AllLossless(s1.queue) && (popped.Some? ==> LosslessEntry(popped.value))
  {
    assert AllLossless(Now(arrivals)) && AllLossless(Now(Later(arrivals)));
  }

  lemma PopGood<A, R>(s: State<A, R>, arrivals: Arrivals<A, R>)
    requires Good(s) && LosslessArrivals(arrivals)
    ensures LosslessArrivals(Later(Later(arrivals)))
    ensures var (s1, popped) := Pop(s, arrivals);
            if popped.Some? then GoodWith(s1, popped.value) else Good(s1)
  {
    PopKeeps(s, arrivals);
    PopLossless(s, arrivals);
  }

  lemma TakeEntryKeeps<A, R>(e: Entry<A, R>, room: nat)
    requires LosslessEntry(e)
    ensures var (taken, rest) := TakeFromEntry(e, room);
            EntryRecords(e) == taken + Records(rest) && Lossless(rest)
  {
    if e.buffer.Some? {
      TakeKeeps(e.buffer.value, room);
    }
  }

  lemma PutBackKeeps<A, R>(s: State<A, R>, e: Entry<A, R>)
    requires Consistent(s, [e])
    ensures Consistent(s.(queue := [e] + s.queue), [])
  {
    assert [] + ([e] + s.queue) == [e] + s.queue;
  }

  lemma HandleGood<A, R>(s: State<A, R>, e: Entry<A, R>, room: nat)
    requires GoodWith(s, e)
    ensures Good(Handle(s, e, room).state)
  {
    StartKeeps(s, e);
    var s1, e1 := StartIf(s, e.start), e.(start := None);
    TakeEntryKeeps(e, room);
    var (taken, rest) := TakeFromEntry(e, room);
    var s2, e2 := Emit(s1, taken), e1.(buffer := Some(rest));
    EmitKeeps(s1, e1, taken, e2);
    if IsEmpty(rest) {
      FinishKeeps(s2, e2);
    } else {
      PutBackKeeps(s2, e2);
    }
  }

  lemma IterateGood<A, R>(it: Iteration<A, R>, arrivals: Arrivals<A, R>)
    requires Good(it.state) && LosslessArrivals(arrivals)
    ensures Good(Iterate(it, arrivals).state) && LosslessArrivals(Later(Later(arrivals)))
  {
    PopGood(it.state, arrivals);
    var (s1, popped) := Pop(it.state, arrivals);
    if popped.Some? {
      HandleGood(s1, popped.value, it.room);
    }
  }

  /** Splitting steps keep the invariant, under every interleaving of pushes. */
  lemma {:induction false} QueueKeeps<A, R>(it: Iteration<A, R>, arrivals: Arrivals<A, R>)
    requires Good(it.state) && LosslessArrivals(arrivals)
    ensures Good(QueueFrom(it, arrivals).state)
    decreases it.more, |it.state.queue| + Count(arrivals)
  {
    if it.more && it.room != 0 {
      IterateGood(it, arrivals);
      QueueKeeps(Iterate(it, arrivals), Later(Later(arrivals)));
    }
  }

  lemma ApplyKeeps<A, R>(s: State<A, R>, e: Entry<A, R>)
    requires Consistent(s, [e])
    ensures Consistent(Apply(s, e), []) && Apply(s, e).queue == s.queue
  {
    StartKeeps(s, e);
    var s1, e1 := StartIf(s, e.start), e.(start := None);
    EmitKeeps(s1, e1, EntryRecords(e), e1.(buffer := None));
    FinishKeeps(Emit(s1, EntryRecords(e)), e1.(buffer := None));
  }

  /** Flushing whole buffers keeps the invariant for any buffers, under every interleaving of pushes. */
  lemma {:induction false} FlushKeeps<A, R>(f: Flushed<A, R>, n: nat, stopAt: A -> bool, arrivals: Arrivals<A, R>)
    requires Consistent(f.state, [])
    ensures Consistent(FlushFrom(f, n, stopAt, arrivals).state, [])
    decreases |f.state.queue| + Count(arrivals)
  {
    if !f.stopped && f.total < n {
      PopKeeps(f.state, arrivals);
      var (s1, popped) := Pop(f.state, arrivals);
      if popped.Some? {
        ApplyKeeps(s1, popped.value);
        if !Commits(s1, popped.value) {
          FlushKeeps(Consume(f, s1, popped.value, stopAt), n, stopAt, Later(Later(arrivals)));
        }
      }
    }
  }

  lemma {:induction false} AuxKeeps<A, R>(f: Flushed<A, R>, stopAt: A -> bool)
    requires Consistent(f.state, [])
    ensures Consistent(AuxFrom(f, stopAt).state, [])
    decreases |f.state.queue|
  {
    if !(f.stopped || f.state.queue == [] || f.state.queue[0].buffer.Some?) {
      var e := f.state.queue[0];
      var s1 := f.state.(queue := f.state.queue[1..]);
      FrontInHand(f.state);
      ApplyKeeps(s1, e);
      if !Commits(s1, e) {
        AuxKeeps(Consume(f, s1, e, stopAt), stopAt);
      }
    }
  }

  /** A flush leaves lossless buffers lossless: it does not touch what it leaves. */
  lemma {:induction false} FlushLossless<A, R>(f: Flushed<A, R>, n: nat, stopAt: A -> bool, arrivals: Arrivals<A, R>)
    requires AllLossless(f.state.queue) && LosslessArrivals(arrivals)
    ensures AllLossless(FlushFrom(f, n, stopAt, arrivals).state.queue)
    decreases |f.state.queue| + Count(arrivals)
  {
    if !f.stopped && f.total < n {
      PopLossless(f.state, arrivals);
      var (s1, popped) := Pop(f.state, arrivals);
      if popped.Some? && !Commits(s1, popped.value) {
        FlushLossless(Consume(f, s1, popped.value, stopAt), n, stopAt, Later(Later(arrivals)));
      }
    }
  }

  lemma {:induction false} AuxLossless<A, R>(f: Flushed<A, R>, stopAt: A -> bool)
    requires AllLossless(f.state.queue)
    ensures AllLossless(AuxFrom(f, stopAt).state.queue)
    decreases |f.state.queue|
  {
    if !(f.stopped || f.state.queue == [] || f.state.queue[0].buffer.Some?) {
      var e, s1 := f.state.queue[0], f.state.(queue := f.state.queue[1..]);
      if !Commits(s1, e) {
        AuxLossless(Consume(f, s1, e, stopAt), stopAt);
      }
    }
  }

  // ---------------------------------------------------------------- runs

  datatype Op<!A, R> =
    | PushOp(entry: Entry<A, R>)
    | QueueOp(limit: nat, arrivals: Arrivals<A, R>)
    | FlushOp(limit: nat, stopAt: A -> bool, arrivals: Arrivals<A, R>, last: seq<Entry<A, R>>)

  function Step<A, R>(s: State<A, R>, op: Op<A, R>): State<A, R> {
    match op
    case PushOp(e) => Push(s, [e])
    case QueueOp(n, arrivals) => QueueStep(s, n, arrivals).state
    case FlushOp(n, stopAt, arrivals, last) => FlushUntil(s, n, stopAt, arrivals, last).state
  }

  function RunFrom<A, R>(s: State<A, R>, ops: seq<Op<A, R>>): State<A, R>
    decreases |ops|
  {
    if ops == [] then s else RunFrom(Step(s, ops[0]), ops[1..])
  }

  function Initial<A, R>(): State<A, R> {
    State([], false, [], [])
  }

  function Run<A, R>(ops: seq<Op<A, R>>): State<A, R> {
    RunFrom(Initial(), ops)
  }

  /** Only splitting steps need lossless buffers: in the queue when they start, and among what arrives meanwhile. */
  ghost predicate SplitsLossless<A, R>(s: State<A, R>, ops: seq<Op<A, R>>)
    decreases |ops|
  {
    ops != [] ==>
      && (ops[0].QueueOp? ==> AllLossless(s.queue) && LosslessArrivals(ops[0].arrivals))
      && SplitsLossless(Step(s, ops[0]), ops[1..])
  }

  lemma StepKeeps<A(!new), R>(s: State<A, R>, op: Op<A, R>)
    requires Consistent(s, []) && (op.QueueOp? ==> AllLossless(s.queue) && LosslessArrivals(op.arrivals))
    ensures Consistent(Step(s, op), [])
  {
    match op
    case PushOp(e) =>
      PushKeeps(s, [], [e]);
    case QueueOp(n, arrivals) =>
      QueueKeeps(Iteration(s, n, true), arrivals);
    case FlushOp(n, stopAt, arrivals, last) =>
      var f0 := Flushed(s, 0, false, []);
      FlushKeeps(f0, n, stopAt, arrivals);
      var f := FlushFrom(f0, n, stopAt, arrivals);
      PushKeeps(f.state, [], last);
      AuxKeeps(f.(state := Push(f.state, last)), stopAt);
  }

  lemma {:induction false} RunKeeps<A(!new), R>(s: State<A, R>, ops: seq<Op<A, R>>)
    requires Consistent(s, []) && SplitsLossless(s, ops)
    ensures Consistent(RunFrom(s, ops), [])
    decreases |ops|
  {
    if ops != [] {
      StepKeeps(s, ops[0]);
      RunKeeps(Step(s, ops[0]), ops[1..]);
    }
  }

  /** In every run, the log continued with the meaning of the queue is the meaning of all pushes. */
  lemma RunMeaning<A(!new), R>(ops: seq<Op<A, R>>)
    requires SplitsLossless(Initial(), ops)
    ensures var s := Run(ops); s.log + Meaning(s.queue, s.inTransaction) == Meaning(s.pushed, false)
  {
    assert Consistent(Initial<A, R>(), []);
    RunKeeps(Initial(), ops);
    assert [] + Run(ops).queue == Run(ops).queue;
  }

  /** Two runs with the same pushes tell the circuit the same history, whatever their steps are. */
  lemma ScheduleIndependence<A(!new), R>(ops1: seq<Op<A, R>>, ops2: seq<Op<A, R>>)
    requires SplitsLossless(Initial(), ops1) && SplitsLossless(Initial(), ops2)
    requires Run(ops1).pushed == Run(ops2).pushed
    ensures Run(ops1).log <= Run(ops2).log || Run(ops2).log <= Run(ops1).log
    ensures Run(ops1).queue == [] == Run(ops2).queue ==> Run(ops1).log == Run(ops2).log
  {
    RunMeaning(ops1);
    RunMeaning(ops2);
    var h := Meaning(Run(ops1).pushed, false);
    assert Run(ops1).log == h[..|Run(ops1).log|] && Run(ops2).log == h[..|Run(ops2).log|];
  }

  /** Runs without splitting steps need nothing of the buffers. */
  lemma {:induction false} FlushOnlyRuns<A(!new), R>(s: State<A, R>, ops: seq<Op<A, R>>)
    requires forall op | op in ops :: !op.QueueOp?
    ensures SplitsLossless(s, ops)
    decreases |ops|
  {
    if ops != [] {
      FlushOnlyRuns(Step(s, ops[0]), ops[1..]);
    }
  }

  ghost predicate LosslessOp<A(!new), R>(op: Op<A, R>) {
    match op
    case PushOp(e) => LosslessEntry(e)
    case QueueOp(_, arrivals) => LosslessArrivals(arrivals)
    case FlushOp(_, _, arrivals, last) => LosslessArrivals(arrivals) && AllLossless(last)
  }

  lemma StepLossless<A(!new), R>(s: State<A, R>, op: Op<A, R>)
    requires Good(s) && LosslessOp(op)
    ensures AllLossless(Step(s, op).queue)
  {
    match op
    case PushOp(e) =>
    case QueueOp(n, arrivals) =>
      QueueKeeps(Iteration(s, n, true), arrivals);
    case FlushOp(n, stopAt, arrivals, last) =>
      var f0 := Flushed(s, 0, false, []);
      FlushLossless(f0, n, stopAt, arrivals);
      var f := FlushFrom(f0, n, stopAt, arrivals);
      AuxLossless(f.(state := Push(f.state, last)), stopAt);
  }

  /** Runs that push only lossless buffers may take any steps. */
  lemma {:induction false} LosslessRuns<A(!new), R>(s: State<A, R>, ops: seq<Op<A, R>>)
    requires Good(s) && forall op | op in ops :: LosslessOp(op)
    ensures SplitsLossless(s, ops)
    decreases |ops|
  {
    if ops != [] {
      assert LosslessOp(ops[0]);
      StepKeeps(s, ops[0]);
      StepLossless(s, ops[0]);
      LosslessRuns(Step(s, ops[0]), ops[1..]);
    }
  }

  // ---------------------------------------------------------------- discipline of one step

  function Replay<R>(open: Option<bool>, event: Event<R>): Option<bool> {
    match event
    case Record(_) => open
    case Start(_) => if open == Some(false) then Some(true) else None
    case Commit => if open == Some(true) then Some(false) else None
  }

  /** Replays the first `k` events of a log: whether a transaction is open then, or nothing if starts and commits
      do not alternate. */
  function OpenAt<R>(log: seq<Event<R>>, k: nat): Option<bool>
    requires k <= |log|
  {
    if k == 0 then Some(false) else Replay(OpenAt(log, k - 1), log[k - 1])
  }

  lemma {:induction false} OpenAtPrefix<R>(log: seq<Event<R>>, more: seq<Event<R>>, k: nat)
    requires k <= |log|
    ensures OpenAt(log + more, k) == OpenAt(log, k)
  {
    if k > 0 {
      OpenAtPrefix(log, more, k - 1);
    }
  }

  function OpenAtEnd<R>(log: seq<Event<R>>): Option<bool> {
    OpenAt(log, |log|)
  }

  lemma OpenAtEndSnoc<R>(log: seq<Event<R>>, event: Event<R>)
    ensures OpenAtEnd(log + [event]) == Replay(OpenAtEnd(log), event)
  {
    OpenAtPrefix(log, [event], |log|);
  }

  lemma {:induction false} OpenAtEndRecords<R>(log: seq<Event<R>>, records: seq<R>)
    ensures OpenAtEnd(log + ToEvents(records)) == OpenAtEnd(log)
  {
    if records == [] {
      assert log + ToEvents(records) == log;
    } else {
      var k := |records| - 1;
      OpenAtEndRecords(log, records[..k]);
      assert log + ToEvents(records) == (log + ToEvents(records[..k])) + [Record(records[k])];
      OpenAtEndSnoc(log + ToEvents(records[..k]), Record(records[k]));
    }
  }

  ghost predicate Alternating<A, R>(s: State<A, R>) {
    OpenAtEnd(s.log) == Some(s.inTransaction)
  }

  lemma MarksAlternate<A, R>(s: State<A, R>, start: Option<Label>, records: seq<R>)
    requires Alternating(s)
    ensures Alternating(StartIf(s, start)) && Alternating(CommitTransaction(s)) && Alternating(Emit(s, records))
  {
    OpenAtEndRecords(s.log, records);
    OpenAtEndSnoc(s.log, Commit);
    if start.Some? {
      OpenAtEndSnoc(s.log, Start(start.value));
    }
  }

  lemma HandleAlternates<A, R>(s: State<A, R>, e: Entry<A, R>, room: nat)
    requires Alternating(s)
    ensures Alternating(Handle(s, e, room).state)
  {
    var s1 := StartIf(s, e.start);
    var taken := TakeFromEntry(e, room).0;
    MarksAlternate(s, e.start, []);
    MarksAlternate(s1, None, taken);
    MarksAlternate(Emit(s1, taken), None, []);
  }

  lemma ApplyAlternates<A, R>(s: State<A, R>, e: Entry<A, R>)
    requires Alternating(s)
    ensures Alternating(Apply(s, e))
  {
    var s1 := StartIf(s, e.start);
    MarksAlternate(s, e.start, []);
    MarksAlternate(s1, None, EntryRecords(e));
    MarksAlternate(Emit(s1, EntryRecords(e)), None, []);
  }

  lemma {:induction false} QueueAlternates<A, R>(it: Iteration<A, R>, arrivals: Arrivals<A, R>)
    requires Alternating(it.state)
    ensures Alternating(QueueFrom(it, arrivals).state)
    decreases it.more, |it.state.queue| + Count(arrivals)
  {
    if it.more && it.room != 0 {
      var (s1, popped) := Pop(it.state, arrivals);
      if popped.Some? {
        HandleAlternates(s1, popped.value, it.room);
      }
      QueueAlternates(Iterate(it, arrivals), Later(Later(arrivals)));
    }
  }

  lemma {:induction false} FlushAlternates<A, R>(f: Flushed<A, R>, n: nat, stopAt: A -> bool, arrivals: Arrivals<A, R>)
    requires Alternating(f.state)
    ensures Alternating(FlushFrom(f, n, stopAt, arrivals).state)
    decreases |f.state.queue| + Count(arrivals)
  {
    var (s1, popped) := Pop(f.state, arrivals);
    if !f.stopped && f.total < n && popped.Some? {
      ApplyAlternates(s1, popped.value);
      if !Commits(s1, popped.value) {
        FlushAlternates(Consume(f, s1, popped.value, stopAt), n, stopAt, Later(Later(arrivals)));
      }
    }
  }

  lemma {:induction false} AuxAlternates<A, R>(f: Flushed<A, R>, stopAt: A -> bool)
    requires Alternating(f.state)
    ensures Alternating(AuxFrom(f, stopAt).state)
    decreases |f.state.queue|
  {
    if !(f.stopped || f.state.queue == [] || f.state.queue[0].buffer.Some?) {
      var e, s1 := f.state.queue[0], f.state.(queue := f.state.queue[1..]);
      ApplyAlternates(s1, e);
      if !Commits(s1, e) {
        AuxAlternates(Consume(f, s1, e, stopAt), stopAt);
      }
    }
  }

  /** Over all calls of every run, with any buffers, starts and commits strictly alternate. */
  lemma {:induction false} RunAlternates<A(!new), R>(s: State<A, R>, ops: seq<Op<A, R>>)
    requires Alternating(s)
    ensures Alternating(RunFrom(s, ops))
    decreases |ops|
  {
    if ops != [] {
      match ops[0] {
        case PushOp(e) =>
        case QueueOp(n, arrivals) =>
          QueueAlternates(Iteration(s, n, true), arrivals);
        case FlushOp(n, stopAt, arrivals, last) =>
          var f0 := Flushed(s, 0, false, []);
          FlushAlternates(f0, n, stopAt, arrivals);
          var f := FlushFrom(f0, n, stopAt, arrivals);
          AuxAlternates(f.(state := Push(f.state, last)), stopAt);
      }
      RunAlternates(Step(s, ops[0]), ops[1..]);
    }
  }

  function CountRecords<R>(log: seq<Event<R>>): nat {
    if log == [] then 0 else (if log[0].Record? then 1 else 0) + CountRecords(log[1..])
  }

  lemma {:induction false} CountConcat<R>(a: seq<Event<R>>, b: seq<Event<R>>)
    ensures CountRecords(a + b) == CountRecords(a) + CountRecords(b)
  {
    if a == [] {
      assert a + b == b;
    } else {
      CountConcat(a[1..], b);
      assert (a + b)[1..] == a[1..] + b;
    }
  }

  lemma {:induction false} CountEvents<R>(records: seq<R>)
    ensures CountRecords(ToEvents(records)) == |records|
  {
    if records != [] {
      CountEvents(records[1..]);
      assert ToEvents(records)[1..] == ToEvents(records[1..]);
    }
  }

  /** No record follows a commit. */
  ghost predicate Disciplined<R>(told: seq<Event<R>>) {
    forall i, j | 0 <= i < j < |told| :: told[i].Commit? ==> !told[j].Record?
  }

  /** Telling `told` from state `s` on yields `t`. */
  ghost predicate Told<A, R>(s: State<A, R>, t: State<A, R>, told: seq<Event<R>>) {
    t.log == s.log + told && Disciplined(told)
  }

  /** What telling the marks and records of one entry adds to the log. */
  lemma MarksTold<A, R>(s: State<A, R>, e: Entry<A, R>, records: seq<R>) returns (told: seq<Event<R>>)
    ensures var t := Emit(StartIf(s, e.start), records);
            Told(s, if e.commit then CommitTransaction(t) else t, told)
    ensures CountRecords(told) == |records|
    ensures !Commits(s, e) ==> forall i | 0 <= i < |told| :: !told[i].Commit?
    ensures records == [] ==> forall i | 0 <= i < |told| :: !told[i].Record?
  {
    var start: seq<Event<R>> := if e.start.Some? && !s.inTransaction then [Start(e.start.value)] else [];
    var end: seq<Event<R>> := if Commits(s, e) then [Commit] else [];
    var events := ToEvents(records);
    told := start + events + end;
    CountEvents(records);
    CountConcat(start, events);
    CountConcat(start + events, end);
    Assoc(s.log, start, events);
    Assoc(s.log, start + events, end);
    assert start == [] ==> s.log + start == s.log;
  }

  lemma HandleTold<A, R>(s: State<A, R>, e: Entry<A, R>, room: nat) returns (told: seq<Event<R>>)
    ensures var it := Handle(s, e, room);
            && Told(s, it.state, told)
            && it.room + CountRecords(told) == room
            && (it.more ==> forall i | 0 <= i < |told| :: !told[i].Commit?)
  {
    var (taken, rest) := TakeFromEntry(e, room);
    told := MarksTold(s, if IsEmpty(rest) then e else e.(commit := false), taken);
  }

  lemma ToldThen<A, R>(s: State<A, R>, t: State<A, R>, u: State<A, R>, a: seq<Event<R>>, b: seq<Event<R>>)
    requires Told(s, t, a) && Told(t, u, b)
    requires (forall i | 0 <= i < |a| :: !a[i].Commit?) || (forall i | 0 <= i < |b| :: !b[i].Record?)
    ensures Told(s, u, a + b)
    ensures CountRecords(a + b) == CountRecords(a) + CountRecords(b)
  {
    Assoc(s.log, a, b);
    CountConcat(a, b);
  }

  lemma IterateTold<A, R>(it: Iteration<A, R>, arrivals: Arrivals<A, R>) returns (told: seq<Event<R>>)
    ensures var next := Iterate(it, arrivals);
            && Told(it.state, next.state, told)
            && next.room + CountRecords(told) == it.room
            && (next.more ==> forall i | 0 <= i < |told| :: !told[i].Commit?)
  {
    var (s1, popped) := Pop(it.state, arrivals);
    if popped.None? {
      told := [];
    } else {
      told := HandleTold(s1, popped.value, it.room);
    }
  }

  lemma {:induction false} QueueTold<A, R>(it: Iteration<A, R>, arrivals: Arrivals<A, R>)
    returns (told: seq<Event<R>>)
    ensures Told(it.state, QueueFrom(it, arrivals).state, told)
    ensures QueueFrom(it, arrivals).room + CountRecords(told) == it.room
    ensures !it.more ==> told == []
    decreases it.more, |it.state.queue| + Count(arrivals)
  {
    told := [];
    if it.more && it.room != 0 {
      var next, later := Iterate(it, arrivals), Later(Later(arrivals));
      told := IterateTold(it, arrivals);
      var more := QueueTold(next, later);
      ToldThen(it.state, next.state, QueueFrom(next, later).state, told, more);
      told := told + more;
    }
  }

  /** A splitting step tells at most `n` records, reports how many, and tells none after a commit. */
  lemma QueueDiscipline<A, R>(s: State<A, R>, n: nat, arrivals: Arrivals<A, R>) returns (told: seq<Event<R>>)
    ensures Told(s, QueueStep(s, n, arrivals).state, told)
    ensures QueueStep(s, n, arrivals).room == n - CountRecords(told)
  {
    told := QueueTold(Iteration(s, n, true), arrivals);
  }

  function EntryCount<A, R>(es: seq<Entry<A, R>>): nat {
    if es == [] then 0 else |EntryRecords(es[0])| + EntryCount(es[1..])
  }

  lemma {:induction false} EntryCountConcat<A, R>(a: seq<Entry<A, R>>, b: seq<Entry<A, R>>)
    ensures EntryCount(a + b) == EntryCount(a) + EntryCount(b)
  {
    if a == [] {
      assert a + b == b;
    } else {
      EntryCountConcat(a[1..], b);
      assert (a + b)[1..] == a[1..] + b;
    }
  }

  /** The account of a flush that started with queue `waiting` when `k` entries had been pushed. */
  ghost predicate Accounted<A, R>(f: Flushed<A, R>, n: nat, waiting: seq<Entry<A, R>>, k: nat) {
    && k <= |f.state.pushed|
    // Every entry is either consumed, in order, or still queued.
    && f.consumed + f.state.queue == waiting + f.state.pushed[k..]
    && f.total == EntryCount(f.consumed)
    // A buffer is flushed only while the limit is not reached.
    && forall j | 0 <= j < |f.consumed| :: EntryRecords(f.consumed[j]) != [] ==> EntryCount(f.consumed[..j]) < n
  }

  lemma PushAccounted<A, R>(f: Flushed<A, R>, n: nat, waiting: seq<Entry<A, R>>, k: nat, es: seq<Entry<A, R>>)
    requires Accounted(f, n, waiting, k)
    ensures Accounted(f.(state := Push(f.state, es)), n, waiting, k)
  {
    assert (f.state.pushed + es)[k..] == f.state.pushed[k..] + es;
    Assoc(f.consumed, f.state.queue, es);
    Assoc(waiting, f.state.pushed[k..], es);
  }

  lemma ConsumeAccounted<A, R>(f: Flushed<A, R>, n: nat, waiting: seq<Entry<A, R>>, k: nat, stopAt: A -> bool)
    requires Accounted(f, n, waiting, k) && f.state.queue != []
    requires EntryRecords(f.state.queue[0]) != [] ==> f.total < n
    ensures var e := f.state.queue[0];
            Accounted(Consume(f, f.state.(queue := f.state.queue[1..]), e, stopAt), n, waiting, k)
  {
    var e := f.state.queue[0];
    var g := Consume(f, f.state.(queue := f.state.queue[1..]), e, stopAt);
    assert f.state.queue == [e] + f.state.queue[1..];
    Assoc(f.consumed, [e], f.state.queue[1..]);
    EntryCountConcat(f.consumed, [e]);
    forall j | 0 <= j < |g.consumed|
      ensures EntryRecords(g.consumed[j]) != [] ==> EntryCount(g.consumed[..j]) < n
    {
      assert g.consumed[..j] == f.consumed[..j];
      assert f.consumed[..|f.consumed|] == f.consumed;
    }
  }

  lemma PopAccounted<A, R>(f: Flushed<A, R>, n: nat, waiting: seq<Entry<A, R>>, k: nat,
                           arrivals: Arrivals<A, R>, stopAt: A -> bool)
    requires Accounted(f, n, waiting, k) && f.total < n
    ensures var (s1, popped) := Pop(f.state, arrivals);
            Accounted(if popped.Some? then Consume(f, s1, popped.value, stopAt) else f.(state := s1), n, waiting, k)
  {
    PushAccounted(f, n, waiting, k, Now(arrivals));
    var f1 := f.(state := Push(f.state, Now(arrivals)));
    if f1.state.queue != [] {
      ConsumeAccounted(f1, n, waiting, k, stopAt);
      var e := f1.state.queue[0];
      var g := Consume(f1, f1.state.(queue := f1.state.queue[1..]), e, stopAt);
      PushAccounted(g, n, waiting, k, Now(Later(arrivals)));
      var s1 := Pop(f.state, arrivals).0;
      assert Apply(s1, e) == Push(g.state, Now(Later(arrivals)));
    }
  }

  lemma {:induction false} FlushAccounted<A, R>(f: Flushed<A, R>, n: nat, waiting: seq<Entry<A, R>>, k: nat,
                                                stopAt: A -> bool, arrivals: Arrivals<A, R>)
    requires Accounted(f, n, waiting, k)
    ensures Accounted(FlushFrom(f, n, stopAt, arrivals), n, waiting, k)
    decreases |f.state.queue| + Count(arrivals)
  {
    if !f.stopped && f.total < n {
      PopAccounted(f, n, waiting, k, arrivals, stopAt);
      var (s1, popped) := Pop(f.state, arrivals);
      if popped.Some? && !Commits(s1, popped.value) {
        FlushAccounted(Consume(f, s1, popped.value, stopAt), n, waiting, k, stopAt, Later(Later(arrivals)));
      }
    }
  }

  lemma {:induction false} AuxAccounted<A, R>(f: Flushed<A, R>, n: nat, waiting: seq<Entry<A, R>>, k: nat,
                                              stopAt: A -> bool)
    requires Accounted(f, n, waiting, k)
    ensures Accounted(AuxFrom(f, stopAt), n, waiting, k)
    decreases |f.state.queue|
  {
    if !(f.stopped || f.state.queue == [] || f.state.queue[0].buffer.Some?) {
      var e, s1 := f.state.queue[0], f.state.(queue := f.state.queue[1..]);
      ConsumeAccounted(f, n, waiting, k, stopAt);
      if !Commits(s1, e) {
        AuxAccounted(Consume(f, s1, e, stopAt), n, waiting, k, stopAt);
      }
    }
  }

  lemma {:induction false} FlushTold<A, R>(f: Flushed<A, R>, n: nat, stopAt: A -> bool, arrivals: Arrivals<A, R>)
    returns (told: seq<Event<R>>)
    ensures Told(f.state, FlushFrom(f, n, stopAt, arrivals).state, told)
    ensures FlushFrom(f, n, stopAt, arrivals).total == f.total + CountRecords(told)
    decreases |f.state.queue| + Count(arrivals)
  {
    told := [];
    if !f.stopped && f.total < n {
      var (s1, popped) := Pop(f.state, arrivals);
      if popped.Some? {
        var e := popped.value;
        told := MarksTold(s1, e, EntryRecords(e));
        if !Commits(s1, e) {
          var g := Consume(f, s1, e, stopAt);
          var more := FlushTold(g, n, stopAt, Later(Later(arrivals)));
          ToldThen(s1, g.state, FlushFrom(g, n, stopAt, Later(Later(arrivals))).state, told, more);
          told := told + more;
        }
      }
    }
  }

  lemma {:induction false} AuxTold<A, R>(f: Flushed<A, R>, stopAt: A -> bool) returns (told: seq<Event<R>>)
    ensures Told(f.state, AuxFrom(f, stopAt).state, told)
    ensures AuxFrom(f, stopAt).total == f.total && CountRecords(told) == 0
    ensures forall i | 0 <= i < |told| :: !told[i].Record?
    decreases |f.state.queue|
  {
    told := [];
    if !(f.stopped || f.state.queue == [] || f.state.queue[0].buffer.Some?) {
      var e, s1 := f.state.queue[0], f.state.(queue := f.state.queue[1..]);
      told := MarksTold(s1, e, []);
      if !Commits(s1, e) {
        var g := Consume(f, s1, e, stopAt);
        var more := AuxTold(g, stopAt);
        ToldThen(s1, g.state, AuxFrom(g, stopAt).state, told, more);
        told := told + more;
      }
    }
  }

  /** Only the last consumed entry can carry a stop mark, and then the flush has stopped. */
  ghost predicate StopsAtMark<A, R>(f: Flushed<A, R>, stopAt: A -> bool) {
    forall j | 0 <= j < |f.consumed| :: stopAt(f.consumed[j].aux) ==> j == |f.consumed| - 1 && f.stopped
  }

  lemma {:induction false} FlushStops<A, R>(f: Flushed<A, R>, n: nat, stopAt: A -> bool, arrivals: Arrivals<A, R>)
    requires StopsAtMark(f, stopAt)
    ensures StopsAtMark(FlushFrom(f, n, stopAt, arrivals), stopAt)
    decreases |f.state.queue| + Count(arrivals)
  {
    var (s1, popped) := Pop(f.state, arrivals);
    if !f.stopped && f.total < n && popped.Some? {
      var g := Consume(f, s1, popped.value, stopAt);
      if !Commits(s1, popped.value) {
        FlushStops(g, n, stopAt, Later(Later(arrivals)));
      }
    }
  }

  lemma {:induction false} AuxStops<A, R>(f: Flushed<A, R>, stopAt: A -> bool)
    requires StopsAtMark(f, stopAt)
    ensures StopsAtMark(AuxFrom(f, stopAt), stopAt)
    decreases |f.state.queue|
  {
    if !(f.stopped || f.state.queue == [] || f.state.queue[0].buffer.Some?) {
      var e, s1 := f.state.queue[0], f.state.(queue := f.state.queue[1..]);
      if !Commits(s1, e) {
        AuxStops(Consume(f, s1, e, stopAt), stopAt);
      }
    }
  }

  /** A flush of whole buffers consumes entries in order and none after a stop mark, exceeds its limit only
      with its last buffer, reports how many records it told, and tells none after a commit. */
  lemma FlushDiscipline<A, R>(s: State<A, R>, n: nat, stopAt: A -> bool,
                              arrivals: Arrivals<A, R>, last: seq<Entry<A, R>>)
    returns (told: seq<Event<R>>)
    ensures var f := FlushUntil(s, n, stopAt, arrivals, last);
            && Accounted(f, n, s.queue, |s.pushed|)
            && StopsAtMark(f, stopAt)
            && Told(s, f.state, told) && CountRecords(told) == f.total
  {
    var f0 := Flushed(s, 0, false, []);
    assert [] + s.queue == s.queue + s.pushed[|s.pushed|..];
    FlushAccounted(f0, n, s.queue, |s.pushed|, stopAt, arrivals);
    var a := FlushTold(f0, n, stopAt, arrivals);
    var f := FlushFrom(f0, n, stopAt, arrivals);
    PushAccounted(f, n, s.queue, |s.pushed|, last);
    var g := f.(state := Push(f.state, last));
    AuxAccounted(g, n, s.queue, |s.pushed|, stopAt);
    FlushStops(f0, n, stopAt, arrivals);
    AuxStops(g, stopAt);
    var b := AuxTold(g, stopAt);
    ToldThen(s, g.state, AuxFrom(g, stopAt).state, a, b);
    told := a + b;
  }
}
