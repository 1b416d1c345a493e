/** Draining the input queue in splitting steps: when steps make progress, and exactly which
buffers make the history independent of the step limits. */
module InputQueueDrain {
  import opened Options
  import opened Buffers
  import opened InputQueues

  /** A buffer that holds bytes but no records: a step can neither flush nor drop it. */
  predicate Stuck<A, R>(e: Entry<A, R>) {
    e.buffer.Some? && Records(e.buffer.value) == [] && 0 < ByteCount(e.buffer.value)
  }

  function Weight<A, R>(e: Entry<A, R>): nat {
    1 + |EntryRecords(e)|
  }

  function Work<A, R>(es: seq<Entry<A, R>>): nat {
    if es == [] then 0 else Weight(es[0]) + Work(es[1..])
  }

  lemma WorkCons<A, R>(e: Entry<A, R>, es: seq<Entry<A, R>>)
    ensures Work([e] + es) == Weight(e) + Work(es)
    ensures EntryCount([e] + es) == |EntryRecords(e)| + EntryCount(es)
  {
    assert ([e] + es)[1..] == es;
  }

  /** A flush without concurrent pushes. */
  function Flush<A, R>(s: State<A, R>, n: nat): State<A, R> {
    QueueStep(s, n, []).state
  }

  lemma PopQuiet<A, R>(s: State<A, R>)
    ensures s.queue == [] ==> Pop(s, []) == (s, None)
    ensures s.queue != [] ==> Pop(s, []) == (s.(queue := s.queue[1..]), Some(s.queue[0]))
  {
    assert s.queue + [] == s.queue && s.pushed + [] == s.pushed;
    if s.queue != [] {
      assert s.queue[1..] + [] == s.queue[1..];
    }
  }

  /** One iteration of a step during which nothing is pushed. */
  lemma QuietIterate<A, R>(it: Iteration<A, R>)
    requires it.room != 0
    ensures var s := it.state;
            Iterate(it, []) == if s.queue == [] then Iteration(s, it.room, false)
                                  else Handle(s.(queue := s.queue[1..]), s.queue[0], it.room)
  {
    PopQuiet(it.state);
  }

  lemma {:induction false} SweepNothing<R>(bs: seq<Buffer<R>>, n: nat)
    requires Flatten(bs) == []
    ensures Sweep(bs, n) == Swept([], bs)
  {
    if bs != [] && n != 0 {
      assert bs[0].records == [];
      SweepNothing(bs[1..], n);
    }
  }

  /** What a split takes and leaves, with nothing assumed of the buffer. */
  lemma TakeCounts<R>(b: InputBuffer<R>, n: nat)
    requires 0 < n
    ensures var (taken, rest) := TakeFrom(b, n);
            && |taken| + |Records(rest)| <= |Records(b)|
            && (taken == [] <==> Records(b) == [])
            && (Records(b) == [] ==> rest == b)
  {
    if b.Vec? {
      VecTakeConserves(b.items, n);
      if Records(b) == [] {
        SweepNothing(b.items, n);
      }
    }
  }

  /** One popped entry: put back smaller, put back unchanged, or gone. */
  lemma HandleWork<A, R>(s: State<A, R>, e: Entry<A, R>, room: nat)
    requires 0 < room
    ensures var q := Handle(s, e, room).state.queue;
            if Stuck(e) then Work(q) == Weight(e) + Work(s.queue)
            else Work(q) < Weight(e) + Work(s.queue)
    ensures Stuck(e) ==> !Handle(s, e, room).more
  {
    var (taken, rest) := TakeFromEntry(e, room);
    if e.buffer.Some? {
      TakeCounts(e.buffer.value, room);
    }
    WorkCons(e.(buffer := Some(rest), start := None), s.queue);
  }

  lemma IterateWork<A, R>(it: Iteration<A, R>)
    requires it.room != 0
    ensures var q, next := it.state.queue, Iterate(it, []);
            if q == [] || Stuck(q[0]) then Work(next.state.queue) == Work(q) && !next.more
            else Work(next.state.queue) < Work(q)
  {
    QuietIterate(it);
    var s := it.state;
    if s.queue != [] {
      HandleWork(s.(queue := s.queue[1..]), s.queue[0], it.room);
    }
  }

  lemma {:induction false} QueueWork<A, R>(it: Iteration<A, R>)
    ensures Work(QueueFrom(it, []).state.queue) <= Work(it.state.queue)
    decreases it.more, |it.state.queue|
  {
    if it.more && it.room != 0 {
      IterateWork(it);
      QueueWork(Iterate(it, []));
    }
  }

  /** A step on a nonempty queue makes progress exactly when the front entry is not stuck. */
  lemma StepProgress<A, R>(s: State<A, R>, n: nat)
    requires 0 < n && s.queue != []
    ensures Work(Flush(s, n).queue) < Work(s.queue) <==> !Stuck(s.queue[0])
  {
    var it := Iteration(s, n, true);
    IterateWork(it);
    QueueWork(Iterate(it, []));
  }

  // ---------------------------------------------------------------- draining

  /** No leaf of the buffer carries bytes without records. */
  predicate Sized<R>(b: InputBuffer<R>) {
    match b
    case Leaf(leaf) => leaf.records == [] ==> leaf.bytes == 0
    case Vec(items) => WellSized(items)
  }

  predicate SizedEntry<A, R>(e: Entry<A, R>) {
    e.buffer.Some? ==> Sized(e.buffer.value)
  }

  ghost predicate AllSized<A, R>(es: seq<Entry<A, R>>) {
    forall e | e in es :: SizedEntry(e)
  }

  lemma SizedNotStuck<A, R>(e: Entry<A, R>)
    requires SizedEntry(e)
    ensures !Stuck(e)
  {
    if e.buffer.Some? && e.buffer.value.Vec? && EntryRecords(e) == [] {
      NoRecordsNoBytes(e.buffer.value.items);
    }
  }

  lemma HandleSized<A, R>(s: State<A, R>, e: Entry<A, R>, room: nat)
    requires AllSized(s.queue) && SizedEntry(e)
    ensures AllSized(Handle(s, e, room).state.queue)
  {
    if e.buffer.Some? && e.buffer.value.Vec? {
      SweepWellSized(e.buffer.value.items, room);
    }
    assert Sized(TakeFromEntry(e, room).1);
  }

  lemma {:induction false} QueueSized<A, R>(it: Iteration<A, R>)
    requires AllSized(it.state.queue)
    ensures AllSized(QueueFrom(it, []).state.queue)
    decreases it.more, |it.state.queue|
  {
    if it.more && it.room != 0 {
      QuietIterate(it);
      var s := it.state;
      if s.queue != [] {
        HandleSized(s.(queue := s.queue[1..]), s.queue[0], it.room);
      }
      QueueSized(Iterate(it, []));
    }
  }

  /** One splitting step per limit in `ns`. */
  function Steps<A, R>(s: State<A, R>, ns: seq<nat>): State<A, R>
    decreases |ns|
  {
    if ns == [] then s else Steps(Flush(s, ns[0]), ns[1..])
  }

  /** Enough steps with positive limits empty the queue, whatever the limits are. */
  lemma {:induction false} StepsDrain<A, R>(s: State<A, R>, ns: seq<nat>)
    requires AllSized(s.queue) && (forall i | 0 <= i < |ns| :: 0 < ns[i])
    requires Work(s.queue) <= |ns|
    ensures Steps(s, ns).queue == []
    decreases |ns|
  {
    if ns != [] {
      QueueSized(Iteration(s, ns[0], true));
      if s.queue == [] {
        QueueWork(Iteration(s, ns[0], true));
      } else {
        SizedNotStuck(s.queue[0]);
        StepProgress(s, ns[0]);
      }
      StepsDrain(Flush(s, ns[0]), ns[1..]);
    }
  }

  // ---------------------------------------------------------------- which buffers are safe

  /** Records the circuit was told or will be told. */
  function Total<A, R>(s: State<A, R>): nat {
    CountRecords(s.log) + EntryCount(s.queue)
  }

  ghost predicate SomeHeavy<A, R>(es: seq<Entry<A, R>>) {
    exists e :: e in es && !LosslessEntry(e)
  }

  lemma NoRecordsLossless<A, R>(e: Entry<A, R>)
    requires EntryRecords(e) == []
    ensures LosslessEntry(e)
  {
    if e.buffer.Some? && e.buffer.value.Vec? {
      var bs := e.buffer.value.items;
      RecordCountIsLength(bs);
      forall p | 0 <= p <= |bs|
        ensures RecordCount(bs[..p]) <= p
      {
        FlattenCut(bs, p);
      }
    }
  }

  lemma HandleTotal<A, R>(s: State<A, R>, e: Entry<A, R>, room: nat)
    ensures Total(Handle(s, e, room).state)
         == CountRecords(s.log) + |TakeFromEntry(e, room).0| + |Records(TakeFromEntry(e, room).1)| + EntryCount(s.queue)
  {
    var (taken, rest) := TakeFromEntry(e, room);
    var told := HandleTold(s, e, room);
    CountConcat(s.log, told);
    WorkCons(e.(buffer := Some(rest), start := None), s.queue);
  }

  /** An entry without records is gone after one iteration. */
  lemma HandleBlank<A, R>(s: State<A, R>, e: Entry<A, R>)
    requires SizedEntry(e) && EntryRecords(e) == []
    ensures var it := Handle(s, e, 1); it.state.queue == s.queue && it.room == 1
    ensures Total(Handle(s, e, 1).state) == CountRecords(s.log) + EntryCount(s.queue)
  {
    SizedNotStuck(e);
    if e.buffer.Some? {
      TakeCounts(e.buffer.value, 1);
    }
    HandleTotal(s, e, 1);
  }

  /** Taking one record from a buffer that is not lossless loses records or leaves such a buffer. */
  lemma HeavyEntrySplit<A, R>(e: Entry<A, R>)
    requires !LosslessEntry(e)
    ensures var (taken, rest) := TakeFromEntry(e, 1);
            !Lossless(rest) || |taken| + |Records(rest)| < |EntryRecords(e)|
  {
    var bs := e.buffer.value.items;
    VecTakeConserves(bs, 1);
    if !Cuts(bs, 1) {
      HeavyKept(bs);
    }
  }

  /** Taking one record loses a record or leaves a buffer in the queue that is not lossless. */
  lemma HandleHeavy<A, R>(s: State<A, R>, e: Entry<A, R>)
    requires EntryRecords(e) != [] && SomeHeavy([e] + s.queue)
    ensures Handle(s, e, 1).room == 0
    ensures var t := Handle(s, e, 1).state;
            SomeHeavy(t.queue) || Total(t) < CountRecords(s.log) + |EntryRecords(e)| + EntryCount(s.queue)
  {
    var t := Handle(s, e, 1).state;
    var (taken, rest) := TakeFromEntry(e, 1);
    TakeCounts(e.buffer.value, 1);
    TakeBound(e.buffer.value, 1);
    HandleTotal(s, e, 1);
    var h :| h in [e] + s.queue && !LosslessEntry(h);
    if h in s.queue {
      assert h in t.queue;
    } else {
      HeavyEntrySplit(e);
      var e1 := e.(buffer := Some(rest), start := None);
      if !Lossless(rest) {
        if Records(rest) == [] {
          NoRecordsLossless(e1);
        }
        assert e1 in t.queue;
      }
    }
  }

  /** A step with limit one, on a queue with a buffer that is not lossless, loses a record or leaves one. */
  lemma {:induction false} UnitStepHeavy<A, R>(s: State<A, R>)
    requires AllSized(s.queue) && SomeHeavy(s.queue)
    ensures SomeHeavy(Flush(s, 1).queue) || Total(Flush(s, 1)) < Total(s)
    decreases |s.queue|
  {
    var it0 := Iteration(s, 1, true);
    var e, s1 := s.queue[0], s.(queue := s.queue[1..]);
    assert s.queue == [e] + s1.queue;
    WorkCons(e, s1.queue);
    QuietIterate(it0);
    var it := Iterate(it0, []);
    assert Flush(s, 1) == QueueFrom(it, []).state;
    if EntryRecords(e) == [] {
      HandleBlank(s1, e);
      NoRecordsLossless(e);
      assert SomeHeavy(s1.queue);
      if it.more {
        UnitStepHeavy(it.state);
        assert it == Iteration(it.state, 1, true);
      }
    } else {
      HandleHeavy(s1, e);
      assert QueueFrom(it, []) == it;
    }
  }

  lemma IterateTotal<A, R>(it: Iteration<A, R>)
    requires it.room != 0
    ensures Total(Iterate(it, []).state) <= Total(it.state)
  {
    QuietIterate(it);
    var s := it.state;
    if s.queue != [] {
      var e, s1 := s.queue[0], s.(queue := s.queue[1..]);
      assert s.queue == [e] + s1.queue;
      WorkCons(e, s1.queue);
      HandleTotal(s1, e, it.room);
      if e.buffer.Some? {
        TakeCounts(e.buffer.value, it.room);
      }
    }
  }

  lemma {:induction false} QueueTotal<A, R>(it: Iteration<A, R>)
    ensures Total(QueueFrom(it, []).state) <= Total(it.state)
    decreases it.more, |it.state.queue|
  {
    if it.more && it.room != 0 {
      IterateTotal(it);
      QueueTotal(Iterate(it, []));
    }
  }

  /** Steps with limit one eventually lose a record of a buffer that is not lossless. */
  lemma {:induction false} HeavyQueueLoses<A, R>(s: State<A, R>) returns (ns: seq<nat>)
    requires AllSized(s.queue) && SomeHeavy(s.queue)
    ensures Total(Steps(s, ns)) < Total(s)
    decreases Work(s.queue)
  {
    var t := Flush(s, 1);
    UnitStepHeavy(s);
    QueueTotal(Iteration(s, 1, true));
    if Total(t) < Total(s) {
      ns := [1];
      assert Steps(t, ns[1..]) == t;
    } else {
      QueueSized(Iteration(s, 1, true));
      SizedNotStuck(s.queue[0]);
      StepProgress(s, 1);
      var rest := HeavyQueueLoses(t);
      ns := [1] + rest;
      assert ns[1..] == rest;
    }
  }

  /** The records a list of entries means are those its buffers hold. */
  lemma {:induction false} MeaningCount<A, R>(es: seq<Entry<A, R>>, open: bool)
    ensures CountRecords(Meaning(es, open)) == EntryCount(es)
  {
    if es != [] {
      var records := ToEvents(EntryRecords(es[0]));
      var start: seq<Event<R>> := if es[0].start.Some? && !open then [Start(es[0].start.value)] else [];
      var end: seq<Event<R>> := if es[0].commit && (open || es[0].start.Some?) then [Commit] else [];
      CountEvents(EntryRecords(es[0]));
      CountConcat(start, records);
      CountConcat(start + records, end);
      CountConcat(EntryMeaning(es[0], open), Meaning(es[1..], OpenAfter(es[0], open)));
      MeaningCount(es[1..], OpenAfter(es[0], open));
    }
  }

  ghost predicate Faithful<A, R>(es: seq<Entry<A, R>>, ns: seq<nat>) {
    var s := Steps(State(es, false, [], es), ns);
    s.log + Meaning(s.queue, s.inTransaction) == Meaning(es, false)
  }

  lemma {:induction false} QueuePushesNothing<A, R>(it: Iteration<A, R>)
    ensures QueueFrom(it, []).state.pushed == it.state.pushed
    decreases it.more, |it.state.queue|
  {
    if it.more && it.room != 0 {
      QuietIterate(it);
      QueuePushesNothing(Iterate(it, []));
    }
  }

  lemma {:induction false} StepsKeep<A, R>(s: State<A, R>, ns: seq<nat>)
    requires Good(s)
    ensures Good(Steps(s, ns)) && Steps(s, ns).pushed == s.pushed
    decreases |ns|
  {
    if ns != [] {
      QueueKeeps(Iteration(s, ns[0], true), []);
      QueuePushesNothing(Iteration(s, ns[0], true));
      StepsKeep(Flush(s, ns[0]), ns[1..]);
    }
  }

  /** The history of a list of entries is the same under all step limits exactly when all its buffers are lossless. */
  lemma FaithfulIffLossless<A, R>(es: seq<Entry<A, R>>)
    requires AllSized(es)
    ensures (forall ns :: Faithful(es, ns)) <==> AllLossless(es)
  {
    var s := State(es, false, [], es);
    if AllLossless(es) {
      assert [] + es == es && [] + Meaning(es, false) == Meaning(es, false);
      forall ns
        ensures Faithful(es, ns)
      {
        StepsKeep(s, ns);
        assert [] + Steps(s, ns).queue == Steps(s, ns).queue;
      }
    } else {
      var ns := HeavyQueueLoses(s);
      var t := Steps(s, ns);
      MeaningCount(t.queue, t.inTransaction);
      MeaningCount(es, false);
      CountConcat(t.log, Meaning(t.queue, t.inTransaction));
      assert !Faithful(es, ns);
    }
  }
}
