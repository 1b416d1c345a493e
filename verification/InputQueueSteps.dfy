/** How far a splitting step and a flush get: which entries they handle, and what ends them. */
module InputQueueSteps {
  import opened Arithmetic
  import opened Options
  import opened Buffers
  import opened Sequences
  import opened InputQueues
  import opened InputQueueDrain

  // ---------------------------------------------------------------- records

  /** The records in a log, in order. */
  function RecordsIn<R>(log: seq<Event<R>>): seq<R> {
    if log == [] then [] else (if log[0].Record? then [log[0].record] else []) + RecordsIn(log[1..])
  }

  /** The records of a list of entries, in order. */
  function RecordsOf<A, R>(es: seq<Entry<A, R>>): seq<R> {
    if es == [] then [] else EntryRecords(es[0]) + RecordsOf(es[1..])
  }

  function First<T>(s: seq<T>, n: nat): seq<T> {
    s[..Min(n, |s|)]
  }

  lemma {:induction false} RecordsInConcat<R>(a: seq<Event<R>>, b: seq<Event<R>>)
    ensures RecordsIn(a + b) == RecordsIn(a) + RecordsIn(b)
  {
    if a == [] {
      assert a + b == b;
    } else {
      var head := if a[0].Record? then [a[0].record] else [];
      RecordsInConcat(a[1..], b);
      assert (a + b)[1..] == a[1..] + b && (a + b)[0] == a[0];
      Assoc(head, RecordsIn(a[1..]), RecordsIn(b));
    }
  }

  lemma {:induction false} RecordsInEvents<R>(records: seq<R>)
    ensures RecordsIn(ToEvents(records)) == records
  {
    if records != [] {
      RecordsInEvents(records[1..]);
      assert ToEvents(records)[1..] == ToEvents(records[1..]);
    }
  }

  lemma RecordsInMark<R>(log: seq<Event<R>>, mark: Event<R>)
    requires !mark.Record?
    ensures RecordsIn(log + [mark]) == RecordsIn(log)
  {
    RecordsInConcat(log, [mark]);
    assert RecordsIn([mark]) == [];
  }

  /** Of an entry the log keeps the records, between its marks. */
  lemma MarksAndRecords<A, R>(s: State<A, R>, start: Option<Label>, records: seq<R>)
    ensures var t := Emit(StartIf(s, start), records);
            && RecordsIn(t.log) == RecordsIn(s.log) + records
            && RecordsIn(CommitTransaction(t).log) == RecordsIn(s.log) + records
  {
    var s1 := StartIf(s, start);
    var t := Emit(s1, records);
    if start.Some? {
      RecordsInMark(s.log, Start(start.value));
    }
    RecordsInConcat(s1.log, ToEvents(records));
    RecordsInEvents(records);
    RecordsInMark(t.log, Commit);
  }

  lemma {:induction false} RecordsOfLength<A, R>(es: seq<Entry<A, R>>)
    ensures |RecordsOf(es)| == EntryCount(es)
  {
    if es != [] {
      RecordsOfLength(es[1..]);
    }
  }

  lemma {:induction false} RecordsOfConcat<A, R>(a: seq<Entry<A, R>>, b: seq<Entry<A, R>>)
    ensures RecordsOf(a + b) == RecordsOf(a) + RecordsOf(b)
  {
    if a == [] {
      assert a + b == b;
    } else {
      RecordsOfConcat(a[1..], b);
      assert (a + b)[1..] == a[1..] + b;
      Assoc(EntryRecords(a[0]), RecordsOf(a[1..]), RecordsOf(b));
    }
  }

  lemma RecordsOfSnoc<A, R>(es: seq<Entry<A, R>>, e: Entry<A, R>)
    ensures RecordsOf(es + [e]) == RecordsOf(es) + EntryRecords(e)
    ensures EntryCount(es + [e]) == EntryCount(es) + |EntryRecords(e)|
  {
    RecordsOfConcat(es, [e]);
    EntryCountConcat(es, [e]);
    assert RecordsOf([e]) == EntryRecords(e) + [] == EntryRecords(e);
  }

  lemma FirstConcat<T>(a: seq<T>, b: seq<T>, n: nat)
    requires |a| <= n
    ensures First(a + b, n) == a + First(b, n - |a|)
  {
  }

  // ---------------------------------------------------------------- entries handled in order

  /** All entries that waited in state `s` or were pushed on the way to state `t`. */
  function Seen<A, R>(s: State<A, R>, t: State<A, R>): seq<Entry<A, R>> {
    s.queue + if |s.pushed| <= |t.pushed| then t.pushed[|s.pushed|..] else []
  }

  /** On the way from `s` to `t` the entries `done` left the queue, in order, and the others are queued. */
  ghost predicate InOrder<A, R>(s: State<A, R>, t: State<A, R>, done: seq<Entry<A, R>>) {
    |s.pushed| <= |t.pushed| && done + t.queue == Seen(s, t)
  }

  lemma InOrderStart<A, R>(s: State<A, R>)
    ensures InOrder(s, s, [])
  {
    assert s.queue + [] == s.queue == [] + s.queue;
  }

  lemma PushInOrder<A, R>(s: State<A, R>, t: State<A, R>, done: seq<Entry<A, R>>, es: seq<Entry<A, R>>)
    requires InOrder(s, t, done)
    ensures InOrder(s, Push(t, es), done)
  {
    var since := t.pushed[|s.pushed|..];
    assert (t.pushed + es)[|s.pushed|..] == since + es;
    Assoc(s.queue, since, es);
    Assoc(done, t.queue, es);
  }

  lemma TakeInOrder<A, R>(s: State<A, R>, t: State<A, R>, done: seq<Entry<A, R>>)
    requires InOrder(s, t, done) && t.queue != []
    ensures InOrder(s, t.(queue := t.queue[1..]), done + [t.queue[0]])
  {
    assert t.queue == [t.queue[0]] + t.queue[1..];
    Assoc(done, [t.queue[0]], t.queue[1..]);
  }

  lemma PopInOrder<A, R>(s: State<A, R>, t: State<A, R>, done: seq<Entry<A, R>>, arrivals: Arrivals<A, R>)
    requires InOrder(s, t, done)
    ensures var (t1, popped) := Pop(t, arrivals);
            && t1.log == t.log && t1.inTransaction == t.inTransaction
            && if popped.Some? then InOrder(s, t1, done + [popped.value]) else InOrder(s, t1, done) && t1.queue == []
  {
    PushInOrder(s, t, done, Now(arrivals));
    var t1 := Push(t, Now(arrivals));
    if t1.queue != [] {
      TakeInOrder(s, t1, done);
      PushInOrder(s, t1.(queue := t1.queue[1..]), done + [t1.queue[0]], Now(Later(arrivals)));
    }
  }

  // ---------------------------------------------------------------- a splitting step

  /** Every entry was reached with fewer than `n` records before it. */
  ghost predicate BelowLimit<A, R>(done: seq<Entry<A, R>>, n: nat) {
    forall j | 0 <= j < |done| :: EntryCount(done[..j]) < n
  }

  /** An entry is handled only while there is room, and none after a commit mark. */
  ghost predicate InTurn<A, R>(done: seq<Entry<A, R>>, n: nat) {
    BelowLimit(done, n) && forall j | 0 <= j < |done| - 1 :: !done[j].commit
  }

  ghost predicate EndsInCommit<A, R>(done: seq<Entry<A, R>>) {
    done != [] && done[|done| - 1].commit
  }

  /** A step with limit `n` that started in `s` has handled the entries `done` and goes on. */
  ghost predicate GoesOn<A, R>(s: State<A, R>, n: nat, it: Iteration<A, R>, done: seq<Entry<A, R>>) {
    && it.more && InOrder(s, it.state, done) && InTurn(done, n) && !EndsInCommit(done)
    && it.room + EntryCount(done) == n
    && RecordsIn(it.state.log) == RecordsIn(s.log) + RecordsOf(done)
  }

  /** The entry `rest` is what was put back of `e`. */
  ghost predicate PutBack<A, R>(e: Entry<A, R>, rest: Entry<A, R>) {
    && rest.buffer.Some? && !IsEmpty(rest.buffer.value)
    && rest == e.(buffer := rest.buffer, start := None)
  }

  /** The step ended with all handled entries gone: no room, a commit mark, or nothing more. */
  ghost predicate EndedWhole<A, R>(s: State<A, R>, r: Iteration<A, R>, done: seq<Entry<A, R>>) {
    && InOrder(s, r.state, done)
    && (r.room == 0 || EndsInCommit(done) || r.state.queue == [])
  }

  /** The step ended with a part of the last handled entry put back, for lack of room or because it has only
      bytes left. */
  ghost predicate EndedSplit<A, R>(s: State<A, R>, n: nat, r: Iteration<A, R>, done: seq<Entry<A, R>>) {
    var queue := r.state.queue;
    && queue != [] && done != [] && InOrder(s, r.state.(queue := queue[1..]), done)
    && var e := done[|done| - 1];
       && PutBack(e, queue[0])
       && (LosslessEntry(e) ==> First(RecordsOf(done), n) + EntryRecords(queue[0]) == RecordsOf(done))
       && (r.room == 0 || (Stuck(queue[0]) && !SizedEntry(e)))
  }

  /** The entries `done` were handled in turn, and their first `n` records were told. */
  ghost predicate Tells<A, R>(s: State<A, R>, n: nat, r: Iteration<A, R>, done: seq<Entry<A, R>>) {
    && InTurn(done, n)
    && RecordsIn(r.state.log) == RecordsIn(s.log) + First(RecordsOf(done), n)
    && r.room + Min(n, EntryCount(done)) == n
  }

  /** The outcome of a step with limit `n` that started in `s` and handled the entries `done`. */
  ghost predicate Outcome<A, R>(s: State<A, R>, n: nat, r: Iteration<A, R>, done: seq<Entry<A, R>>) {
    Tells(s, n, r, done) && (EndedWhole(s, r, done) || EndedSplit(s, n, r, done))
  }

  /** A split takes the first records; it leaves none if all fit, and then only a stray byte keeps the buffer. */
  lemma TakeFirst<A, R>(e: Entry<A, R>, n: nat)
    ensures var (taken, rest) := TakeFromEntry(e, n);
            && taken == First(EntryRecords(e), n)
            && (LosslessEntry(e) ==> taken + Records(rest) == EntryRecords(e))
            && (|EntryRecords(e)| <= n ==> Records(rest) == [])
            && (|EntryRecords(e)| <= n && SizedEntry(e) ==> IsEmpty(rest))
  {
    if e.buffer.Some? {
      var b := e.buffer.value;
      if LosslessEntry(e) {
        TakeKeeps(b, n);
      }
      if b.Vec? {
        VecTakeConserves(b.items, n);
        if SizedEntry(e) && |EntryRecords(e)| <= n {
          SweepWellSized(b.items, n);
          NoRecordsNoBytes(VecTake(b.items, n).1);
        }
      }
    }
  }

  lemma BelowLimitSnoc<A, R>(done: seq<Entry<A, R>>, e: Entry<A, R>, n: nat)
    requires BelowLimit(done, n) && EntryCount(done) < n
    ensures BelowLimit(done + [e], n)
  {
    var more := done + [e];
    forall j | 0 <= j < |more|
      ensures EntryCount(more[..j]) < n
    {
      assert more[..j] == done[..j];
      assert done[..|done|] == done;
    }
  }

  lemma InTurnSnoc<A, R>(done: seq<Entry<A, R>>, e: Entry<A, R>, n: nat)
    requires InTurn(done, n) && !EndsInCommit(done) && EntryCount(done) < n
    ensures InTurn(done + [e], n)
  {
    BelowLimitSnoc(done, e, n);
  }

  /** One entry that was popped, with state `t` left, while the step goes on. */
  ghost predicate InHand<A, R>(s: State<A, R>, n: nat, it: Iteration<A, R>, done: seq<Entry<A, R>>,
                               t: State<A, R>, e: Entry<A, R>) {
    && GoesOn(s, n, it, done) && it.room != 0
    && t.log == it.state.log && InOrder(s, t, done + [e])
  }

  lemma HandleLog<A, R>(t: State<A, R>, e: Entry<A, R>, room: nat)
    ensures var r, taken := Handle(t, e, room), TakeFromEntry(e, room).0;
            RecordsIn(r.state.log) == RecordsIn(t.log) + taken && r.room + |taken| == room
  {
    MarksAndRecords(t, e.start, TakeFromEntry(e, room).0);
  }

  /** The first records of all entries are those of the earlier ones and the first of the last one. */
  lemma FirstOfAll<A, R>(done: seq<Entry<A, R>>, e: Entry<A, R>, n: nat, room: nat)
    requires room + EntryCount(done) == n
    ensures First(RecordsOf(done + [e]), n) == RecordsOf(done) + First(EntryRecords(e), room)
    ensures Min(n, EntryCount(done + [e])) == EntryCount(done) + |First(EntryRecords(e), room)|
    ensures RecordsOf(done + [e]) == RecordsOf(done) + EntryRecords(e)
  {
    RecordsOfLength(done);
    RecordsOfSnoc(done, e);
    FirstConcat(RecordsOf(done), EntryRecords(e), n);
  }

  lemma HandleTells<A, R>(s: State<A, R>, n: nat, it: Iteration<A, R>, done: seq<Entry<A, R>>,
                          t: State<A, R>, e: Entry<A, R>)
    requires InHand(s, n, it, done, t, e)
    ensures Tells(s, n, Handle(t, e, it.room), done + [e])
  {
    TakeFirst(e, it.room);
    HandleLog(t, e, it.room);
    FirstOfAll(done, e, n, it.room);
    Assoc(RecordsIn(s.log), RecordsOf(done), First(EntryRecords(e), it.room));
    InTurnSnoc(done, e, n);
  }

  /** What is put back of the last entry has all its remaining records, or none. */
  lemma RestOfAll<A, R>(done: seq<Entry<A, R>>, e: Entry<A, R>, n: nat, room: nat)
    requires room + EntryCount(done) == n
    ensures var rest := TakeFromEntry(e, room).1;
            && (LosslessEntry(e) ==> First(RecordsOf(done + [e]), n) + Records(rest) == RecordsOf(done + [e]))
            && (|TakeFromEntry(e, room).0| < room ==> Records(rest) == [] && (SizedEntry(e) ==> IsEmpty(rest)))
  {
    TakeFirst(e, room);
    FirstOfAll(done, e, n, room);
    Assoc(RecordsOf(done), First(EntryRecords(e), room), Records(TakeFromEntry(e, room).1));
  }

  lemma HandlePutsBack<A, R>(t: State<A, R>, e: Entry<A, R>, room: nat)
    requires !IsEmpty(TakeFromEntry(e, room).1)
    ensures var r, (taken, rest) := Handle(t, e, room), TakeFromEntry(e, room);
            && r.state.queue == [e.(buffer := Some(rest), start := None)] + t.queue
            && r.state.pushed == t.pushed && r.room + |taken| == room && !r.more
  {
  }

  lemma HandleEnds<A, R>(s: State<A, R>, n: nat, it: Iteration<A, R>, done: seq<Entry<A, R>>,
                         t: State<A, R>, e: Entry<A, R>)
    requires InHand(s, n, it, done, t, e) && !IsEmpty(TakeFromEntry(e, it.room).1)
    ensures EndedSplit(s, n, Handle(t, e, it.room), done + [e])
  {
    var r := Handle(t, e, it.room);
    HandlePutsBack(t, e, it.room);
    RestOfAll(done, e, n, it.room);
    assert r.state.queue[1..] == t.queue;
  }

  /** An entry that is gone after it was handled: the step goes on, or it ended with no room or with a commit. */
  lemma GoneOutcome<A, R>(s: State<A, R>, n: nat, r: Iteration<A, R>, done: seq<Entry<A, R>>)
    requires Tells(s, n, r, done) && InOrder(s, r.state, done) && r.more == !EndsInCommit(done)
    ensures if r.more && r.room != 0 then GoesOn(s, n, r, done) else Outcome(s, n, r, done)
  {
    RecordsOfLength(done);
  }

  lemma HandleOutcome<A, R>(s: State<A, R>, n: nat, it: Iteration<A, R>, done: seq<Entry<A, R>>,
                            t: State<A, R>, e: Entry<A, R>)
    requires InHand(s, n, it, done, t, e)
    ensures var r := Handle(t, e, it.room);
            if r.more && r.room != 0 then GoesOn(s, n, r, done + [e]) else Outcome(s, n, r, done + [e])
  {
    var r := Handle(t, e, it.room);
    HandleTells(s, n, it, done, t, e);
    if IsEmpty(TakeFromEntry(e, it.room).1) {
      GoneOutcome(s, n, r, done + [e]);
    } else {
      HandleEnds(s, n, it, done, t, e);
    }
  }

  /** How a step comes out, for any buffers and any interleaving of pushes. */
  lemma {:induction false} QueueOutcome<A, R>(s: State<A, R>, n: nat, it: Iteration<A, R>, done: seq<Entry<A, R>>,
                                              arrivals: Arrivals<A, R>) returns (all: seq<Entry<A, R>>)
    requires GoesOn(s, n, it, done)
    ensures Outcome(s, n, QueueFrom(it, arrivals), all)
    decreases |it.state.queue| + Count(arrivals)
  {
    all := done;
    RecordsOfLength(done);
    if it.room != 0 {
      var (t, popped) := Pop(it.state, arrivals);
      PopInOrder(s, it.state, done, arrivals);
      if popped.Some? {
        var r := Handle(t, popped.value, it.room);
        HandleOutcome(s, n, it, done, t, popped.value);
        all := done + [popped.value];
        if r.more && r.room != 0 {
          all := QueueOutcome(s, n, r, all, Later(Later(arrivals)));
        }
      }
    }
  }

  /** For any buffers and any pushes meanwhile, a step handles entries in order, takes their first `n` records,
      and stops only for lack of room, at a commit mark, at an empty queue, or at a buffer with only bytes left. */
  lemma StepOutcome<A, R>(s: State<A, R>, n: nat, arrivals: Arrivals<A, R>) returns (done: seq<Entry<A, R>>)
    ensures Outcome(s, n, QueueStep(s, n, arrivals), done)
  {
    InOrderStart(s);
    assert RecordsIn(s.log) + [] == RecordsIn(s.log);
    done := QueueOutcome(s, n, Iteration(s, n, true), [], arrivals);
  }

  /** The entries up to and including the first one with a commit mark. */
  function Front<A, R>(es: seq<Entry<A, R>>): seq<Entry<A, R>> {
    if es == [] then [] else if es[0].commit then [es[0]] else [es[0]] + Front(es[1..])
  }

  lemma {:induction false} FrontConcat<A, R>(done: seq<Entry<A, R>>, tail: seq<Entry<A, R>>)
    requires forall j | 0 <= j < |done| - 1 :: !done[j].commit
    ensures Front(done + tail) == if EndsInCommit(done) then done else done + Front(tail)
  {
    if done == [] {
      assert done + tail == tail && [] + Front(tail) == Front(tail);
    } else {
      var rest := done[1..];
      assert (done + tail)[1..] == rest + tail && done == [done[0]] + rest;
      if |done| > 1 {
        FrontConcat(rest, tail);
        assert EndsInCommit(done) == EndsInCommit(rest);
        Assoc([done[0]], rest, Front(tail));
      } else {
        assert rest == [] && [] + tail == tail;
      }
    }
  }

  lemma FirstPrefix<T>(a: seq<T>, b: seq<T>, n: nat)
    requires n <= |a|
    ensures First(a + b, n) == First(a, n)
  {
  }

  /** The records of the handled entries are those up to the first commit mark, as far as there is room. */
  lemma DoneIsFront<A, R>(n: nat, done: seq<Entry<A, R>>, tail: seq<Entry<A, R>>)
    requires InTurn(done, n)
    requires n <= EntryCount(done) || EndsInCommit(done) || tail == []
    ensures First(RecordsOf(Front(done + tail)), n) == First(RecordsOf(done), n)
  {
    FrontConcat(done, tail);
    if !EndsInCommit(done) {
      RecordsOfConcat(done, Front(tail));
      RecordsOfLength(done);
      if tail == [] {
        assert RecordsOf(done) + [] == RecordsOf(done);
      } else {
        FirstPrefix(RecordsOf(done), RecordsOf(Front(tail)), n);
      }
    }
  }

  /** A step uses its room: of all entries waiting or arriving, it tells the first `n` records before the next
      commit mark takes effect, and reports how many these are. */
  lemma StepTells<A, R>(s: State<A, R>, n: nat, arrivals: Arrivals<A, R>)
    requires AllSized(Seen(s, QueueStep(s, n, arrivals).state))
    ensures var r := QueueStep(s, n, arrivals);
            var told := First(RecordsOf(Front(Seen(s, r.state))), n);
            RecordsIn(r.state.log) == RecordsIn(s.log) + told && r.room + |told| == n
  {
    var r := QueueStep(s, n, arrivals);
    var done := StepOutcome(s, n, arrivals);
    RecordsOfLength(done);
    if EndedWhole(s, r, done) {
      DoneIsFront(n, done, r.state.queue);
    } else {
      var all := Seen(s, r.state);
      assert all[|done| - 1] == done[|done| - 1] && all[|done| - 1] in all;
      DoneIsFront(n, done, r.state.queue[1..]);
    }
  }

  // ---------------------------------------------------------------- a flush of whole buffers

  /** Entry `e`, met in the given transaction state, ends a loop of a flush: it has a stop mark, or it commits. */
  predicate Ends<A, R>(e: Entry<A, R>, open: bool, stopAt: A -> bool) {
    stopAt(e.aux) || (e.commit && (open || e.start.Some?))
  }

  /** Entry `j` of those consumed since the given transaction state ends a loop. */
  predicate EndsAt<A, R>(done: seq<Entry<A, R>>, open: bool, stopAt: A -> bool, j: nat)
    requires j < |done|
  {
    Ends(done[j], OpenAfterAll(done[..j], open), stopAt)
  }

  predicate LastEnds<A, R>(done: seq<Entry<A, R>>, open: bool, stopAt: A -> bool) {
    done != [] && EndsAt(done, open, stopAt, |done| - 1)
  }

  predicate LastStops<A, R>(done: seq<Entry<A, R>>, stopAt: A -> bool) {
    done != [] && stopAt(done[|done| - 1].aux)
  }

  /** What a flush that started in `s` has done so far. */
  ghost predicate FlushedSoFar<A, R>(s: State<A, R>, f: Flushed<A, R>, stopAt: A -> bool) {
    && InOrder(s, f.state, f.consumed)
    && f.total == EntryCount(f.consumed)
    && f.state.inTransaction == OpenAfterAll(f.consumed, s.inTransaction)
    && f.stopped == LastStops(f.consumed, stopAt)
    && RecordsIn(f.state.log) == RecordsIn(s.log) + RecordsOf(f.consumed)
  }

  /** No entry but the last one ends a loop. */
  ghost predicate OnlyLastEnds<A, R>(done: seq<Entry<A, R>>, open: bool, stopAt: A -> bool) {
    forall j | 0 <= j < |done| - 1 :: !EndsAt(done, open, stopAt, j)
  }

  lemma OpenAfterSnoc<A, R>(done: seq<Entry<A, R>>, e: Entry<A, R>, open: bool)
    ensures OpenAfterAll(done + [e], open) == OpenAfter(e, OpenAfterAll(done, open))
  {
    MeaningConcat(done, [e], open);
    assert [e][1..] == [];
  }

  lemma LastEndsSnoc<A, R>(done: seq<Entry<A, R>>, e: Entry<A, R>, open: bool, stopAt: A -> bool)
    ensures LastEnds(done + [e], open, stopAt) == Ends(e, OpenAfterAll(done, open), stopAt)
    ensures LastStops(done + [e], stopAt) == stopAt(e.aux)
  {
    assert (done + [e])[..|done|] == done;
  }

  lemma StopIsEnd<A, R>(done: seq<Entry<A, R>>, open: bool, stopAt: A -> bool)
    ensures LastStops(done, stopAt) ==> LastEnds(done, open, stopAt)
  {
  }

  /** Applying an entry leaves the queue alone; it tells the records and moves the transaction. */
  lemma ApplyEffect<A, R>(t: State<A, R>, e: Entry<A, R>)
    ensures var u := Apply(t, e);
            && u.queue == t.queue && u.pushed == t.pushed && u.inTransaction == OpenAfter(e, t.inTransaction)
            && RecordsIn(u.log) == RecordsIn(t.log) + EntryRecords(e)
  {
    MarksAndRecords(t, e.start, EntryRecords(e));
  }

  lemma ConsumeSoFar<A, R>(s: State<A, R>, f: Flushed<A, R>, t: State<A, R>, e: Entry<A, R>, stopAt: A -> bool)
    requires FlushedSoFar(s, f, stopAt)
    requires t.log == f.state.log && t.inTransaction == f.state.inTransaction && InOrder(s, t, f.consumed + [e])
    ensures FlushedSoFar(s, Consume(f, t, e, stopAt), stopAt)
    ensures LastEnds(f.consumed + [e], s.inTransaction, stopAt) <==> stopAt(e.aux) || Commits(t, e)
  {
    ApplyEffect(t, e);
    RecordsOfSnoc(f.consumed, e);
    Assoc(RecordsIn(s.log), RecordsOf(f.consumed), EntryRecords(e));
    OpenAfterSnoc(f.consumed, e, s.inTransaction);
    LastEndsSnoc(f.consumed, e, s.inTransaction, stopAt);
  }

  /** What holds of an entry does not change when another one is consumed behind it. */
  lemma EndsBefore<A, R>(done: seq<Entry<A, R>>, e: Entry<A, R>, open: bool, stopAt: A -> bool, j: nat)
    requires j < |done|
    ensures (done + [e])[..j] == done[..j]
    ensures EndsAt(done + [e], open, stopAt, j) == EndsAt(done, open, stopAt, j)
  {
    assert (done + [e])[..j] == done[..j];
  }

  lemma OnlyLastEndsSnoc<A, R>(done: seq<Entry<A, R>>, e: Entry<A, R>, open: bool, stopAt: A -> bool)
    requires OnlyLastEnds(done, open, stopAt) && !LastEnds(done, open, stopAt)
    ensures OnlyLastEnds(done + [e], open, stopAt)
  {
    forall j | 0 <= j < |done|
      ensures !EndsAt(done + [e], open, stopAt, j)
    {
      EndsBefore(done, e, open, stopAt, j);
    }
  }

  /** The first loop, so far. */
  ghost predicate FirstSoFar<A, R>(s: State<A, R>, f: Flushed<A, R>, n: nat, stopAt: A -> bool) {
    FlushedSoFar(s, f, stopAt) && BelowLimit(f.consumed, n) && OnlyLastEnds(f.consumed, s.inTransaction, stopAt)
  }

  lemma FirstConsume<A, R>(s: State<A, R>, f: Flushed<A, R>, n: nat, stopAt: A -> bool, t: State<A, R>, e: Entry<A, R>)
    requires FirstSoFar(s, f, n, stopAt) && !LastEnds(f.consumed, s.inTransaction, stopAt) && f.total < n
    requires t.log == f.state.log && t.inTransaction == f.state.inTransaction && InOrder(s, t, f.consumed + [e])
    ensures FirstSoFar(s, Consume(f, t, e, stopAt), n, stopAt)
    ensures LastEnds(f.consumed + [e], s.inTransaction, stopAt) <==> stopAt(e.aux) || Commits(t, e)
  {
    ConsumeSoFar(s, f, t, e, stopAt);
    BelowLimitSnoc(f.consumed, e, n);
    OnlyLastEndsSnoc(f.consumed, e, s.inTransaction, stopAt);
  }

  lemma {:induction false} FlushOutcome<A, R>(s: State<A, R>, f: Flushed<A, R>, n: nat, stopAt: A -> bool,
                                              arrivals: Arrivals<A, R>)
    requires FirstSoFar(s, f, n, stopAt)
    requires LastEnds(f.consumed, s.inTransaction, stopAt) ==> f.stopped
    ensures var g := FlushFrom(f, n, stopAt, arrivals);
            && FirstSoFar(s, g, n, stopAt)
            && (n <= g.total || LastEnds(g.consumed, s.inTransaction, stopAt) || g.state.queue == [])
    decreases |f.state.queue| + Count(arrivals)
  {
    if f.stopped {
      StopIsEnd(f.consumed, s.inTransaction, stopAt);
    } else if f.total < n {
      var (t, popped) := Pop(f.state, arrivals);
      PopInOrder(s, f.state, f.consumed, arrivals);
      if popped.Some? {
        FirstConsume(s, f, n, stopAt, t, popped.value);
        if !Commits(t, popped.value) {
          FlushOutcome(s, Consume(f, t, popped.value, stopAt), n, stopAt, Later(Later(arrivals)));
        }
      }
    }
  }

  ghost predicate NoBuffers<A, R>(es: seq<Entry<A, R>>) {
    forall j | 0 <= j < |es| :: es[j].buffer.None?
  }

  /** What the second loop has done since state `s`, when the entries `first` were consumed. */
  ghost predicate AuxSoFar<A, R>(s: State<A, R>, first: seq<Entry<A, R>>, second: seq<Entry<A, R>>, f: Flushed<A, R>,
                                 stopAt: A -> bool) {
    && f.consumed == first + second
    && f.state.pushed == s.pushed && second + f.state.queue == s.queue
    && NoBuffers(second) && OnlyLastEnds(second, s.inTransaction, stopAt)
    && f.state.inTransaction == OpenAfterAll(second, s.inTransaction)
    && RecordsIn(f.state.log) == RecordsIn(s.log)
    && f.stopped == LastStops(if second == [] then first else second, stopAt)
  }

  lemma AuxConsume<A, R>(s: State<A, R>, first: seq<Entry<A, R>>, second: seq<Entry<A, R>>, f: Flushed<A, R>,
                         stopAt: A -> bool)
    requires AuxSoFar(s, first, second, f, stopAt) && !LastEnds(second, s.inTransaction, stopAt)
    requires f.state.queue != [] && f.state.queue[0].buffer.None?
    ensures var e, t := f.state.queue[0], f.state.(queue := f.state.queue[1..]);
            && AuxSoFar(s, first, second + [e], Consume(f, t, e, stopAt), stopAt)
            && (LastEnds(second + [e], s.inTransaction, stopAt) <==> stopAt(e.aux) || Commits(t, e))
  {
    var e, t := f.state.queue[0], f.state.(queue := f.state.queue[1..]);
    assert f.state.queue == [e] + t.queue;
    Assoc(second, [e], t.queue);
    OnlyLastEndsSnoc(second, e, s.inTransaction, stopAt);
    ApplyEffect(t, e);
    assert RecordsIn(t.log) + [] == RecordsIn(t.log);
    OpenAfterSnoc(second, e, s.inTransaction);
    LastEndsSnoc(second, e, s.inTransaction, stopAt);
    Assoc(first, second, [e]);
  }

  lemma {:induction false} AuxOutcome<A, R>(s: State<A, R>, first: seq<Entry<A, R>>, second: seq<Entry<A, R>>,
                                            f: Flushed<A, R>, stopAt: A -> bool) returns (all: seq<Entry<A, R>>)
    requires AuxSoFar(s, first, second, f, stopAt)
    requires LastEnds(second, s.inTransaction, stopAt) ==> f.stopped
    ensures var g := AuxFrom(f, stopAt);
            && AuxSoFar(s, first, all, g, stopAt) && g.total == f.total
            && (f.stopped ==> all == second)
            && (g.stopped || LastEnds(all, s.inTransaction, stopAt) || g.state.queue == []
                || g.state.queue[0].buffer.Some?)
    decreases |f.state.queue|
  {
    all := second;
    if !(f.stopped || f.state.queue == [] || f.state.queue[0].buffer.Some?) {
      var e, t := f.state.queue[0], f.state.(queue := f.state.queue[1..]);
      AuxConsume(s, first, second, f, stopAt);
      all := second + [e];
      if !Commits(t, e) {
        all := AuxOutcome(s, first, all, Consume(f, t, e, stopAt), stopAt);
      }
    }
  }

  lemma LoopsInOrder<A, R>(s: State<A, R>, t: State<A, R>, last: seq<Entry<A, R>>, u: State<A, R>,
                           first: seq<Entry<A, R>>, second: seq<Entry<A, R>>)
    requires InOrder(s, t, first) && u.pushed == t.pushed + last && second + u.queue == t.queue + last
    ensures InOrder(s, u, first + second)
  {
    PushInOrder(s, t, first, last);
    Assoc(first, second, u.queue);
  }

  /** The first loop of a flush goes on to the limit, a stop mark, a commit, or the end of the queue. */
  ghost predicate FirstReach<A, R>(s: State<A, R>, n: nat, stopAt: A -> bool, first: seq<Entry<A, R>>, emptied: bool) {
    && BelowLimit(first, n) && OnlyLastEnds(first, s.inTransaction, stopAt)
    && (n <= EntryCount(first) || LastEnds(first, s.inTransaction, stopAt) || emptied)
  }

  /** The second one, behind it, goes on to a stop mark, a commit, a buffer, or the end of the queue. */
  ghost predicate SecondReach<A, R>(open: bool, stopAt: A -> bool, queue: seq<Entry<A, R>>, first: seq<Entry<A, R>>,
                                    second: seq<Entry<A, R>>) {
    && NoBuffers(second) && OnlyLastEnds(second, open, stopAt) && (LastStops(first, stopAt) ==> second == [])
    && (LastStops(first, stopAt) || LastEnds(second, open, stopAt) || queue == [] || queue[0].buffer.Some?)
  }

  /** How a flush comes out: the entries `first` and `second` that its two loops consumed. */
  ghost predicate FlushReach<A, R>(s: State<A, R>, n: nat, stopAt: A -> bool, last: seq<Entry<A, R>>, f: Flushed<A, R>,
                                   first: seq<Entry<A, R>>, second: seq<Entry<A, R>>) {
    && f.consumed == first + second && InOrder(s, f.state, f.consumed) && f.stopped == LastStops(f.consumed, stopAt)
    && RecordsIn(f.state.log) == RecordsIn(s.log) + RecordsOf(first) && f.total == EntryCount(first)
    && FirstReach(s, n, stopAt, first, second + f.state.queue == last)
    && SecondReach(OpenAfterAll(first, s.inTransaction), stopAt, f.state.queue, first, second)
  }

  lemma LastStopsConcat<A, R>(first: seq<Entry<A, R>>, second: seq<Entry<A, R>>, stopAt: A -> bool)
    ensures LastStops(first + second, stopAt) == LastStops(if second == [] then first else second, stopAt)
  {
  }

  /** The second loop of a flush whose first loop ended with `f`. */
  lemma SecondLoop<A, R>(s: State<A, R>, f: Flushed<A, R>, n: nat, stopAt: A -> bool, last: seq<Entry<A, R>>)
    returns (second: seq<Entry<A, R>>)
    requires FlushedSoFar(s, f, stopAt)
    requires FirstReach(s, n, stopAt, f.consumed, f.state.queue == [])
    ensures FlushReach(s, n, stopAt, last, AuxFrom(f.(state := Push(f.state, last)), stopAt), f.consumed, second)
  {
    var u := Push(f.state, last);
    var g := AuxFrom(f.(state := u), stopAt);
    assert f.consumed + [] == f.consumed && [] + u.queue == u.queue;
    second := AuxOutcome(u, f.consumed, [], f.(state := u), stopAt);
    LoopsInOrder(s, f.state, last, g.state, f.consumed, second);
    LastStopsConcat(f.consumed, second, stopAt);
    assert SecondReach(u.inTransaction, stopAt, g.state.queue, f.consumed, second);
    assert f.state.queue == [] ==> u.queue == last;
  }

  /** A flush reaches its limit unless a stop mark, a commit or the end of the queue comes first, and then goes on
      over entries without a buffer, for any buffers and any interleaving of pushes. */
  lemma FlushReaches<A, R>(s: State<A, R>, n: nat, stopAt: A -> bool, arrivals: Arrivals<A, R>,
                           last: seq<Entry<A, R>>) returns (first: seq<Entry<A, R>>, second: seq<Entry<A, R>>)
    ensures FlushReach(s, n, stopAt, last, FlushUntil(s, n, stopAt, arrivals, last), first, second)
  {
    InOrderStart(s);
    assert RecordsIn(s.log) + [] == RecordsIn(s.log);
    FlushOutcome(s, Flushed(s, 0, false, []), n, stopAt, arrivals);
    var f := FlushFrom(Flushed(s, 0, false, []), n, stopAt, arrivals);
    first := f.consumed;
    second := SecondLoop(s, f, n, stopAt, last);
  }

  /** Unless it consumes a commit mark, a flush ends only at its limit, at a stop mark, or with an empty queue. */
  lemma FlushReachesLimit<A, R>(s: State<A, R>, n: nat, stopAt: A -> bool, arrivals: Arrivals<A, R>)
    requires forall e | e in FlushUntil(s, n, stopAt, arrivals, []).consumed :: !e.commit
    ensures var f := FlushUntil(s, n, stopAt, arrivals, []);
            n <= f.total || f.stopped || f.state.queue == []
  {
    var f := FlushUntil(s, n, stopAt, arrivals, []);
    var first, second := FlushReaches(s, n, stopAt, arrivals, []);
    if LastEnds(first, s.inTransaction, stopAt) {
      assert f.consumed[|first| - 1] == first[|first| - 1];
      assert first + [] == first;
    }
  }

  // ---------------------------------------------------------------- the documented reasons to stop

  lemma {:induction false} FlushPushesNothing<A, R>(f: Flushed<A, R>, n: nat, stopAt: A -> bool)
    ensures FlushFrom(f, n, stopAt, []).state.pushed == f.state.pushed
    decreases |f.state.queue|
  {
    PopQuiet(f.state);
    if !f.stopped && f.total < n && f.state.queue != [] {
      var e, t := f.state.queue[0], f.state.(queue := f.state.queue[1..]);
      if !Commits(t, e) {
        FlushPushesNothing(Consume(f, t, e, stopAt), n, stopAt);
      }
    }
  }

  lemma {:induction false} AuxPushesNothing<A, R>(f: Flushed<A, R>, stopAt: A -> bool)
    ensures AuxFrom(f, stopAt).state.pushed == f.state.pushed
    decreases |f.state.queue|
  {
    if !(f.stopped || f.state.queue == [] || f.state.queue[0].buffer.Some?) {
      var e, t := f.state.queue[0], f.state.(queue := f.state.queue[1..]);
      if !Commits(t, e) {
        AuxPushesNothing(Consume(f, t, e, stopAt), stopAt);
      }
    }
  }

  /** A flush during which nothing is pushed. */
  function QuietFlush<A, R>(s: State<A, R>, n: nat, stopAt: A -> bool): Flushed<A, R> {
    FlushUntil(s, n, stopAt, [], [])
  }

  /** Such a flush cuts the queue in three: what its two loops consume, and what stays. */
  lemma QuietReaches<A, R>(s: State<A, R>, n: nat, stopAt: A -> bool)
    returns (first: seq<Entry<A, R>>, second: seq<Entry<A, R>>)
    ensures FlushReach(s, n, stopAt, [], QuietFlush(s, n, stopAt), first, second)
    ensures s.queue == first + second + QuietFlush(s, n, stopAt).state.queue
  {
    first, second := FlushReaches(s, n, stopAt, [], []);
    var f := FlushFrom(Flushed(s, 0, false, []), n, stopAt, []);
    FlushPushesNothing(Flushed(s, 0, false, []), n, stopAt);
    AuxPushesNothing(f.(state := Push(f.state, [])), stopAt);
    assert s.pushed + [] == s.pushed && s.queue + [] == s.queue;
  }

  /** The flush ended at its limit, at a stop mark, or with an empty queue. */
  predicate EndsAsDocumented<A, R>(n: nat, f: Flushed<A, R>) {
    n <= f.total || f.stopped || f.state.queue == []
  }

  /** Entry `j` of a queue commits a transaction. */
  predicate CommitsAt<A, R>(queue: seq<Entry<A, R>>, open: bool, j: nat)
    requires j < |queue|
  {
    queue[j].commit && (OpenAfterAll(queue[..j], open) || queue[j].start.Some?)
  }

  /** After an entry that commits comes no buffer, and no other that commits except as the very last. */
  ghost predicate CommitsLast<A, R>(queue: seq<Entry<A, R>>, open: bool) {
    forall j, i | 0 <= j < i < |queue| && CommitsAt(queue, open, j) ::
      queue[i].buffer.None? && (CommitsAt(queue, open, i) ==> i == |queue| - 1)
  }

  /** An entry ends a loop, in the place it has in the whole queue, by a stop mark or by a commit. */
  lemma EndsInPlace<A, R>(before: seq<Entry<A, R>>, done: seq<Entry<A, R>>, after: seq<Entry<A, R>>, open: bool,
                          stopAt: A -> bool, j: nat)
    requires j < |done|
    ensures var queue, k := before + done + after, |before| + j;
            && queue[k] == done[j]
            && EndsAt(done, OpenAfterAll(before, open), stopAt, j) == (stopAt(done[j].aux) || CommitsAt(queue, open, k))
  {
    var queue := before + done + after;
    assert queue[..|before| + j] == before + done[..j];
    MeaningConcat(before, done[..j], open);
  }

  lemma LastEndsInPlace<A, R>(before: seq<Entry<A, R>>, done: seq<Entry<A, R>>, after: seq<Entry<A, R>>, open: bool,
                              stopAt: A -> bool)
    requires LastEnds(done, OpenAfterAll(before, open), stopAt) && !LastStops(done, stopAt)
    ensures CommitsAt(before + done + after, open, |before| + |done| - 1)
  {
    EndsInPlace(before, done, after, open, stopAt, |done| - 1);
  }

  /** If commits come last, a commit in the first loop lets the second one go on to a stop mark or to the end. */
  lemma SecondGoesOn<A, R>(queue: seq<Entry<A, R>>, open: bool, stopAt: A -> bool, first: seq<Entry<A, R>>,
                           second: seq<Entry<A, R>>, rest: seq<Entry<A, R>>)
    requires queue == first + second + rest && CommitsLast(queue, open)
    requires LastEnds(first, open, stopAt) && SecondReach(OpenAfterAll(first, open), stopAt, rest, first, second)
    ensures rest == [] || LastStops(first, stopAt) || LastStops(second, stopAt)
  {
    if rest != [] && !LastStops(first, stopAt) && !LastStops(second, stopAt) {
      assert [] + first + (second + rest) == queue;
      LastEndsInPlace([], first, second + rest, open, stopAt);
      assert CommitsAt(queue, open, |first| - 1);
      assert queue[|first| + |second|] == rest[0];
      LastEndsInPlace(first, second, rest, open, stopAt);
    }
  }

  lemma CommitsLastSuffices<A, R>(s: State<A, R>, n: nat, stopAt: A -> bool)
    requires CommitsLast(s.queue, s.inTransaction)
    ensures EndsAsDocumented(n, QuietFlush(s, n, stopAt))
  {
    var f := QuietFlush(s, n, stopAt);
    var first, second := QuietReaches(s, n, stopAt);
    LastStopsConcat(first, second, stopAt);
    if LastEnds(first, s.inTransaction, stopAt) {
      SecondGoesOn(s.queue, s.inTransaction, stopAt, first, second, f.state.queue);
    }
  }

  lemma {:induction false} CountWithin<A, R>(a: seq<Entry<A, R>>, b: seq<Entry<A, R>>)
    ensures EntryCount(a) <= EntryCount(a + b)
  {
    EntryCountConcat(a, b);
  }

  /** The first entry that commits, given one that does. */
  lemma FirstCommit<A, R>(queue: seq<Entry<A, R>>, open: bool, j: nat) returns (k: nat)
    requires j < |queue| && CommitsAt(queue, open, j)
    ensures k <= j && CommitsAt(queue, open, k)
    ensures forall i | 0 <= i < k :: !CommitsAt(queue, open, i)
  {
    k := 0;
    while !CommitsAt(queue, open, k)
      invariant k <= j
      invariant forall i | 0 <= i < k :: !CommitsAt(queue, open, i)
      decreases j - k
    {
      k := k + 1;
    }
  }

  /** No loop goes on beyond a commit. */
  lemma NotBeyondCommit<A, R>(queue: seq<Entry<A, R>>, open: bool, stopAt: A -> bool, first: seq<Entry<A, R>>,
                              rest: seq<Entry<A, R>>, k: nat)
    requires queue == first + rest && OnlyLastEnds(first, open, stopAt)
    requires k < |queue| && CommitsAt(queue, open, k)
    ensures |first| <= k + 1
  {
    assert [] + first + rest == queue;
    if k < |first| {
      EndsInPlace([], first, rest, open, stopAt, k);
    }
  }

  /** A loop that is ended by a commit reaches the first one. */
  lemma ReachesCommit<A, R>(queue: seq<Entry<A, R>>, open: bool, stopAt: A -> bool, first: seq<Entry<A, R>>,
                            rest: seq<Entry<A, R>>, k: nat)
    requires queue == first + rest && LastEnds(first, open, stopAt) && !LastStops(first, stopAt)
    requires k < |queue| && forall i | 0 <= i < k :: !CommitsAt(queue, open, i)
    ensures k + 1 <= |first|
  {
    assert [] + first + rest == queue;
    LastEndsInPlace([], first, rest, open, stopAt);
  }

  /** A second loop that empties the queue has met no buffer, and no commit but at the end. */
  lemma SecondEmpties<A, R>(queue: seq<Entry<A, R>>, open: bool, stopAt: A -> bool, first: seq<Entry<A, R>>,
                            second: seq<Entry<A, R>>, i: nat)
    requires queue == first + second && |first| <= i < |queue|
    requires NoBuffers(second) && OnlyLastEnds(second, OpenAfterAll(first, open), stopAt)
    ensures queue[i].buffer.None? && (CommitsAt(queue, open, i) ==> i == |queue| - 1)
  {
    assert queue[i] == second[i - |first|];
    EndsInPlace(first, second, [], open, stopAt, i - |first|);
    assert first + second + [] == queue;
  }

  /** A flush with room for everything and no stop mark, over a queue in which commits do not come last. */
  lemma EndsEarly<A, R>(s: State<A, R>, n: nat, stopAt: A -> bool, f: Flushed<A, R>, first: seq<Entry<A, R>>,
                        second: seq<Entry<A, R>>, j: nat, i: nat)
    requires FlushReach(s, n, stopAt, [], f, first, second) && s.queue == first + second + f.state.queue
    requires EntryCount(s.queue) < n && !LastStops(first, stopAt) && !f.stopped
    requires j < i < |s.queue| && CommitsAt(s.queue, s.inTransaction, j)
    requires s.queue[i].buffer.Some? || (CommitsAt(s.queue, s.inTransaction, i) && i < |s.queue| - 1)
    ensures !EndsAsDocumented(n, f)
  {
    var queue, open := s.queue, s.inTransaction;
    var rest := second + f.state.queue;
    Assoc(first, second, f.state.queue);
    CountWithin(first, rest);
    var k := FirstCommit(queue, open, j);
    NotBeyondCommit(queue, open, stopAt, first, rest, k);
    if f.state.queue == [] {
      assert rest == second;
      if rest != [] {
        ReachesCommit(queue, open, stopAt, first, rest, k);
      }
      SecondEmpties(queue, open, stopAt, first, second, i);
    }
  }

  lemma CommitsLastNeeded<A, R>(s: State<A, R>, n: nat, j: nat, i: nat)
    requires EntryCount(s.queue) < n
    requires j < i < |s.queue| && CommitsAt(s.queue, s.inTransaction, j)
    requires s.queue[i].buffer.Some? || (CommitsAt(s.queue, s.inTransaction, i) && i < |s.queue| - 1)
    ensures !EndsAsDocumented(n, QuietFlush(s, n, _ => false))
  {
    var stopAt: A -> bool := _ => false;
    var first, second := QuietReaches(s, n, stopAt);
    EndsEarly(s, n, stopAt, QuietFlush(s, n, stopAt), first, second, j, i);
  }

  /** The documented reasons are the only ones, for all limits and stop marks, exactly if commits come last. */
  lemma DocumentedEndsIff<A(!new), R>(s: State<A, R>)
    ensures (forall n, stopAt :: EndsAsDocumented(n, QuietFlush(s, n, stopAt)))
       <==> CommitsLast(s.queue, s.inTransaction)
  {
    if CommitsLast(s.queue, s.inTransaction) {
      forall n, stopAt
        ensures EndsAsDocumented(n, QuietFlush(s, n, stopAt))
      {
        CommitsLastSuffices(s, n, stopAt);
      }
    } else {
      var j, i :| 0 <= j < i < |s.queue| && CommitsAt(s.queue, s.inTransaction, j)
        && !(s.queue[i].buffer.None? && (CommitsAt(s.queue, s.inTransaction, i) ==> i == |s.queue| - 1));
      CommitsLastNeeded(s, EntryCount(s.queue) + 1, j, i);
    }
  }

  /** The smallest case: of two entries with a record each, the first commits, and the second has to wait. */
  lemma CommitEndsFlush<A>(aux: A)
    ensures var first := Entry(Some(Leaf(Buffer([1], 1))), 0, Some(None), true, aux);
            var second := Entry(Some(Leaf(Buffer([2], 1))), 0, None, false, aux);
            !EndsAsDocumented(3, QuietFlush(State([first, second], false, [], [first, second]), 3, _ => false))
  {
    var first := Entry(Some(Leaf(Buffer([1], 1))), 0, Some(None), true, aux);
    var second := Entry(Some(Leaf(Buffer([2], 1))), 0, None, false, aux);
    var s := State([first, second], false, [], [first, second]);
    assert EntryCount([second]) == 1 && s.queue[1..] == [second];
    assert CommitsAt(s.queue, false, 0);
    CommitsLastNeeded(s, 3, 0, 1);
  }
}
