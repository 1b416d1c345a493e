/** The job queue: one producer, a pool of workers that finish in any order, and a consumer that
takes the results in the order in which the jobs were pushed.

The tasks are modelled as a transition system.  Every step is one operation of one task on
a channel; a step that its task cannot take in a state leaves the state as it is, so every
sequence of actions is an interleaving and every interleaving is a sequence of actions.
*/
module JobQueues {

  /** Jobs and flushes are numbered in the order in which the producer starts them. */
  datatype Completion = Job(id: nat) | Sync(flush: nat)

  datatype Worker = Idle | Busy(id: nat)

  datatype Consumer = Ready | Awaiting(id: nat) | SendingSync(flush: nat)

  /** Between calls, between the two sends of a push, or waiting for the acknowledgement of a flush. */
  datatype Producer = Free | Announcing(id: nat) | Waiting(flush: nat)

  datatype State<+I, +O> = State(
    jobs: seq<nat>, completions: seq<Completion>, syncs: seq<nat>,
    workers: seq<Worker>, results: map<nat, O>,
    consumer: Consumer, producer: Producer,
    pushed: seq<I>, consumed: seq<O>, flushes: nat)

  datatype Action<+I> =
    | SendJob(input: I) | Announce | SendFlush | ReceiveSync
    | TakeJob(worker: nat) | Finish(worker: nat)
    | Receive | Consume | SendSync

  function Init<I, O>(n: nat): State<I, O> {
    State([], [], [], seq(n, _ => Idle), map[], Ready, Free, [], [], 0)
  }

  // Capacities of the three channels.
  function JobCapacity(n: nat): nat { n }
  function CompletionCapacity(n: nat): nat { 2 * n + 1 }
  const SYNC_CAPACITY: nat := 1

  predicate Enabled<I, O>(n: nat, s: State<I, O>, a: Action<I>) {
    match a
    case SendJob(_) => s.producer.Free? && |s.jobs| < JobCapacity(n)
    case Announce => s.producer.Announcing? && |s.completions| < CompletionCapacity(n)
    case SendFlush => s.producer.Free? && |s.completions| < CompletionCapacity(n)
    case ReceiveSync => s.producer.Waiting? && s.syncs != []
    case TakeJob(w) => w < |s.workers| && s.workers[w].Idle? && s.jobs != []
    case Finish(w) => w < |s.workers| && s.workers[w].Busy? && s.workers[w].id < |s.pushed|
    case Receive => s.consumer.Ready? && s.completions != []
    case Consume => s.consumer.Awaiting? && s.consumer.id in s.results
    case SendSync => s.consumer.SendingSync? && |s.syncs| < SYNC_CAPACITY
  }

  function Next<I, O>(n: nat, f: I -> O, s: State<I, O>, a: Action<I>): State<I, O> {
    if !Enabled(n, s, a) then s
    else
      match a
      case SendJob(input) =>
        s.(jobs := s.jobs + [|s.pushed|], producer := Announcing(|s.pushed|), pushed := s.pushed + [input])
      case Announce =>
        s.(completions := s.completions + [Job(s.producer.id)], producer := Free)
      case SendFlush =>
        s.(completions := s.completions + [Sync(s.flushes)], producer := Waiting(s.flushes), flushes := s.flushes + 1)
      case ReceiveSync =>
        s.(syncs := s.syncs[1..], producer := Free)
      case TakeJob(w) =>
        s.(jobs := s.jobs[1..], workers := s.workers[w := Busy(s.jobs[0])])
      case Finish(w) =>
        var id := s.workers[w].id;
        s.(results := s.results[id := f(s.pushed[id])], workers := s.workers[w := Idle])
      case Receive =>
        s.(completions := s.completions[1..],
           consumer := match s.completions[0] case Job(id) => Awaiting(id) case Sync(k) => SendingSync(k))
      case Consume =>
        s.(consumed := s.consumed + [s.results[s.consumer.id]], consumer := Ready)
      case SendSync =>
        s.(syncs := s.syncs + [s.consumer.flush], consumer := Ready)
  }

  function Run<I, O>(n: nat, f: I -> O, s: State<I, O>, actions: seq<Action<I>>): State<I, O>
    decreases |actions|
  {
    if actions == [] then s else Run(n, f, Next(n, f, s, actions[0]), actions[1..])
  }

  function Map<I, O>(f: I -> O, inputs: seq<I>): (r: seq<O>)
    ensures |r| == |inputs| && forall i | 0 <= i < |r| :: r[i] == f(inputs[i])
  {
    seq(|inputs|, i requires 0 <= i < |inputs| => f(inputs[i]))
  }

  // ---------------------------------------------------------------- the invariant

  /** Jobs whose completion was sent. */
  function Announced<I, O>(s: State<I, O>): int {
    |s.pushed| - (if s.producer.Announcing? then 1 else 0)
  }

  /** Jobs whose completion the consumer has received. */
  function Received<I, O>(s: State<I, O>): nat {
    |s.consumed| + (if s.consumer.Awaiting? then 1 else 0)
  }

  /** What the consumer has consumed, in order, and the job it waits for is the next one. */
  ghost predicate InOrder<I, O>(f: I -> O, s: State<I, O>) {
    && |s.consumed| <= |s.pushed| && s.consumed == Map(f, s.pushed[..|s.consumed|])
    && (s.consumer.Awaiting? ==> s.consumer.id == |s.consumed| < |s.pushed|)
    && (s.producer.Announcing? ==> s.producer.id == |s.pushed| - 1)
    && (forall id | id in s.results :: id < |s.pushed| && s.results[id] == f(s.pushed[id]))
  }

  /** Completions are the jobs from `first` on, consecutively, with at most one sync, which is last. */
  ghost predicate Consecutive(cs: seq<Completion>, first: nat, end: int) {
    && (forall i | 0 <= i < |cs| && cs[i].Job? :: cs[i].id == first + i)
    && (forall i | 0 <= i < |cs| && cs[i].Sync? :: i == |cs| - 1)
    && end == first + |cs| - (if cs != [] && cs[|cs| - 1].Sync? then 1 else 0)
  }

  /** A job that is not consumed is queued, with a worker, or has its result. */
  ghost predicate Somewhere<I, O>(s: State<I, O>, id: nat) {
    id in s.jobs || Busy(id) in s.workers || id in s.results
  }

  ghost predicate Accounted<I, O>(s: State<I, O>) {
    && (forall i | 0 <= i < |s.jobs| :: s.jobs[i] < |s.pushed|)
    && (forall w | 0 <= w < |s.workers| && s.workers[w].Busy? :: s.workers[w].id < |s.pushed|)
    && (forall id: nat | |s.consumed| <= id < |s.pushed| :: Somewhere(s, id))
  }

  ghost predicate HasSync(cs: seq<Completion>) {
    cs != [] && cs[|cs| - 1].Sync?
  }

  /** At most one sync is under way: that of the flush the producer waits for; behind it nothing is queued. */
  ghost predicate OneSync<I, O>(s: State<I, O>) {
    && (s.producer.Waiting? <==> |s.syncs| == 1 || s.consumer.SendingSync? || HasSync(s.completions))
    && |s.syncs| <= 1
    && (|s.syncs| == 1 ==> s.consumer.Ready? && s.completions == [] && s.producer == Waiting(s.syncs[0]))
    && (s.consumer.SendingSync? ==> s.completions == [] && s.producer == Waiting(s.consumer.flush))
    && (HasSync(s.completions) ==> s.producer == Waiting(s.completions[|s.completions| - 1].flush))
  }

  /** Completions in order, as an invariant of the state. */
  ghost predicate CompletionsInOrder<I, O>(s: State<I, O>) {
    Consecutive(s.completions, Received(s), Announced(s))
  }

  ghost predicate Inv<I, O>(n: nat, f: I -> O, s: State<I, O>) {
    && |s.workers| == n && |s.jobs| <= JobCapacity(n) && |s.completions| <= CompletionCapacity(n)
    && InOrder(f, s)
    && CompletionsInOrder(s)
    && Accounted(s)
    && OneSync(s)
  }

  lemma InitInv<I, O>(n: nat, f: I -> O)
    ensures Inv(n, f, Init<I, O>(n))
  {
  }

  lemma NextInOrder<I, O>(n: nat, f: I -> O, s: State<I, O>, a: Action<I>)
    requires Inv(n, f, s)
    ensures InOrder(f, Next(n, f, s, a))
  {
  }

  lemma AnnouncedNext(cs: seq<Completion>, first: nat, end: nat)
    requires Consecutive(cs, first, end) && !HasSync(cs)
    ensures Consecutive(cs + [Job(end)], first, end + 1)
  {
  }

  lemma SyncLast(cs: seq<Completion>, first: nat, end: int, flush: nat)
    requires Consecutive(cs, first, end) && !HasSync(cs)
    ensures Consecutive(cs + [Sync(flush)], first, end)
  {
  }

  lemma ReceivedFirst(cs: seq<Completion>, first: nat, end: int)
    requires Consecutive(cs, first, end) && cs != []
    ensures Consecutive(cs[1..], if cs[0].Job? then first + 1 else first, end)
  {
    assert forall i | 0 <= i < |cs[1..]| :: cs[1..][i] == cs[i + 1];
  }

  lemma AnnounceInOrder<I, O>(n: nat, f: I -> O, s: State<I, O>)
    requires InOrder(f, s) && CompletionsInOrder(s) && OneSync(s) && Enabled(n, s, Announce)
    ensures CompletionsInOrder(Next(n, f, s, Announce))
  {
    AnnouncedNext(s.completions, Received(s), s.producer.id);
  }

  lemma SendFlushInOrder<I, O>(n: nat, f: I -> O, s: State<I, O>)
    requires CompletionsInOrder(s) && OneSync(s) && Enabled(n, s, SendFlush)
    ensures CompletionsInOrder(Next(n, f, s, SendFlush))
  {
    SyncLast(s.completions, Received(s), Announced(s), s.flushes);
  }

  lemma ReceiveInOrder<I, O>(n: nat, f: I -> O, s: State<I, O>)
    requires CompletionsInOrder(s) && Enabled(n, s, Receive)
    ensures CompletionsInOrder(Next(n, f, s, Receive))
  {
    ReceivedFirst(s.completions, Received(s), Announced(s));
  }

  /** The other steps change neither the completions nor the numbers of their ends. */
  lemma OthersInOrder<I, O>(n: nat, f: I -> O, s: State<I, O>, a: Action<I>)
    requires CompletionsInOrder(s) && !a.Announce? && !a.SendFlush? && !a.Receive?
    ensures CompletionsInOrder(Next(n, f, s, a))
  {
    var t := Next(n, f, s, a);
    assert t.completions == s.completions && Received(t) == Received(s) && Announced(t) == Announced(s);
  }

  lemma NextConsecutive<I, O>(n: nat, f: I -> O, s: State<I, O>, a: Action<I>)
    requires Inv(n, f, s)
    ensures CompletionsInOrder(Next(n, f, s, a))
  {
    if !Enabled(n, s, a) {
    } else if a.Announce? {
      AnnounceInOrder(n, f, s);
    } else if a.SendFlush? {
      SendFlushInOrder(n, f, s);
    } else if a.Receive? {
      ReceiveInOrder(n, f, s);
    } else {
      OthersInOrder(n, f, s, a);
    }
  }

  /** No step loses track of a job. */
  lemma StaysSomewhere<I, O>(n: nat, f: I -> O, s: State<I, O>, a: Action<I>, id: nat)
    requires Somewhere(s, id)
    ensures Somewhere(Next(n, f, s, a), id)
  {
    var t := Next(n, f, s, a);
    if id in s.jobs {
      var i :| 0 <= i < |s.jobs| && s.jobs[i] == id;
      if a.TakeJob? && Enabled(n, s, a) {
        if i == 0 {
          assert t.workers[a.worker] == Busy(id);
        } else {
          assert t.jobs[i - 1] == id;
        }
      } else {
        assert t.jobs[i] == id;
      }
    } else if Busy(id) in s.workers {
      var w :| 0 <= w < |s.workers| && s.workers[w] == Busy(id);
      assert t.workers[w] == Busy(id) || id in t.results;
    }
  }

  lemma NextAccounted<I, O>(n: nat, f: I -> O, s: State<I, O>, a: Action<I>)
    requires Inv(n, f, s)
    ensures Accounted(Next(n, f, s, a))
  {
    var t := Next(n, f, s, a);
    forall id: nat | |t.consumed| <= id < |t.pushed|
      ensures Somewhere(t, id)
    {
      if id < |s.pushed| {
        assert Somewhere(s, id);
        StaysSomewhere(n, f, s, a, id);
      }
    }
  }

  lemma NextOneSync<I, O>(n: nat, f: I -> O, s: State<I, O>, a: Action<I>)
    requires Inv(n, f, s)
    ensures OneSync(Next(n, f, s, a))
  {
  }

  lemma NextInv<I, O>(n: nat, f: I -> O, s: State<I, O>, a: Action<I>)
    requires Inv(n, f, s)
    ensures Inv(n, f, Next(n, f, s, a))
  {
    NextInOrder(n, f, s, a);
    NextConsecutive(n, f, s, a);
    NextAccounted(n, f, s, a);
    NextOneSync(n, f, s, a);
  }

  lemma {:induction false} RunInv<I, O>(n: nat, f: I -> O, s: State<I, O>, actions: seq<Action<I>>)
    requires Inv(n, f, s)
    ensures Inv(n, f, Run(n, f, s, actions))
    decreases |actions|
  {
    if actions != [] {
      NextInv(n, f, s, actions[0]);
      RunInv(n, f, Next(n, f, s, actions[0]), actions[1..]);
    }
  }

  // ---------------------------------------------------------------- safety

  /** In every interleaving, what is consumed is the worker function mapped over a prefix of the jobs, in push order. */
  lemma ConsumedInOrder<I, O>(n: nat, f: I -> O, actions: seq<Action<I>>)
    ensures var s := Run(n, f, Init(n), actions);
            |s.consumed| <= |s.pushed| && s.consumed == Map(f, s.pushed[..|s.consumed|])
  {
    InitInv(n, f);
    RunInv(n, f, Init(n), actions);
  }

  /** When a flush can return, every job pushed before it is consumed, and the acknowledgement is its own. */
  lemma FlushIsBarrier<I, O>(n: nat, f: I -> O, actions: seq<Action<I>>)
    ensures var s := Run(n, f, Init(n), actions);
            Enabled(n, s, ReceiveSync) ==>
              && s.consumed == Map(f, s.pushed)
              && s.syncs == [s.producer.flush]
  {
    InitInv(n, f);
    RunInv(n, f, Init(n), actions);
    var s := Run(n, f, Init(n), actions);
    assert s.pushed[..|s.pushed|] == s.pushed;
  }

  /** Jobs sent and not yet consumed: those announced, plus one in the producer's and one in the consumer's hands. */
  lemma InFlightBound<I, O>(n: nat, f: I -> O, actions: seq<Action<I>>)
    ensures var s := Run(n, f, Init(n), actions); |s.pushed| - |s.consumed| <= 2 * n + 3
  {
    InitInv(n, f);
    RunInv(n, f, Init(n), actions);
  }

  // ---------------------------------------------------------------- progress

  /** Steps that the tasks take by themselves, once the producer's calls are under way. */
  predicate Internal<I>(a: Action<I>) {
    !a.SendJob? && !a.SendFlush?
  }

  /** All calls returned and all jobs consumed. */
  predicate Settled<I, O>(s: State<I, O>) {
    |s.consumed| == |s.pushed| && s.producer.Free?
  }

  /** With at least one worker, a state that is not settled is never stuck. */
  lemma NeverStuck<I, O>(n: nat, f: I -> O, s: State<I, O>) returns (a: Action<I>)
    requires 0 < n && Inv(n, f, s) && !Settled(s)
    ensures Internal(a) && Enabled(n, s, a)
  {
    match s.consumer
    case SendingSync(_) =>
      a := SendSync;
    case Awaiting(id) =>
      assert Somewhere(s, id);
      if id in s.results {
        a := Consume;
      } else if w :| 0 <= w < |s.workers| && s.workers[w].Busy? {
        a := Finish(w);
      } else {
        assert s.workers[0].Idle?;
        a := TakeJob(0);
      }
    case Ready =>
      if s.completions != [] {
        a := Receive;
      } else if s.producer.Announcing? {
        a := Announce;
      } else {
        a := ReceiveSync;
      }
  }

  function IsBusy(w: Worker): nat {
    if w.Busy? then 1 else 0
  }

  function BusyCount(workers: seq<Worker>): nat {
    if workers == [] then 0 else IsBusy(workers[0]) + BusyCount(workers[1..])
  }

  lemma {:induction false} BusyUpdate(workers: seq<Worker>, w: nat, x: Worker)
    requires w < |workers|
    ensures BusyCount(workers[w := x]) == BusyCount(workers) - IsBusy(workers[w]) + IsBusy(x)
  {
    if w == 0 {
      assert workers[0 := x][1..] == workers[1..];
    } else {
      BusyUpdate(workers[1..], w - 1, x);
      assert workers[w := x][1..] == workers[1..][w - 1 := x];
    }
  }

  /** How many internal steps can still be taken, at most. */
  function Remaining<I, O>(s: State<I, O>): nat {
    2 * |s.jobs| + BusyCount(s.workers) + 3 * |s.completions| + |s.syncs|
    + (if s.consumer.Ready? then 0 else 2) + (if s.producer.Announcing? then 4 else 0)
  }

  lemma InternalDecreases<I, O>(n: nat, f: I -> O, s: State<I, O>, a: Action<I>)
    requires Internal(a) && Enabled(n, s, a)
    ensures Remaining(Next(n, f, s, a)) < Remaining(s)
  {
    if a.TakeJob? {
      BusyUpdate(s.workers, a.worker, Busy(s.jobs[0]));
    } else if a.Finish? {
      BusyUpdate(s.workers, a.worker, Idle);
    }
  }

  /** From every reachable state, internal steps alone settle everything: all calls return and all jobs are consumed. */
  lemma {:induction false} Settles<I, O>(n: nat, f: I -> O, s: State<I, O>) returns (actions: seq<Action<I>>)
    requires 0 < n && Inv(n, f, s)
    ensures |actions| <= Remaining(s) && forall i | 0 <= i < |actions| :: Internal(actions[i])
    ensures var t := Run(n, f, s, actions);
            Settled(t) && t.pushed == s.pushed && t.consumed == Map(f, s.pushed)
    decreases Remaining(s)
  {
    if Settled(s) {
      actions := [];
      assert s.pushed[..|s.pushed|] == s.pushed;
    } else {
      var a := NeverStuck(n, f, s);
      InternalDecreases(n, f, s, a);
      NextInv(n, f, s, a);
      var rest := Settles(n, f, Next(n, f, s, a));
      actions := [a] + rest;
      assert actions[1..] == rest;
    }
  }

  lemma {:induction false} RunConcat<I, O>(n: nat, f: I -> O, s: State<I, O>, a: seq<Action<I>>, b: seq<Action<I>>)
    ensures Run(n, f, s, a + b) == Run(n, f, Run(n, f, s, a), b)
    decreases |a|
  {
    if a == [] {
      assert a + b == b;
    } else {
      RunConcat(n, f, Next(n, f, s, a[0]), a[1..], b);
      assert (a + b)[1..] == a[1..] + b;
    }
  }

  /** Every run can be completed, by internal steps, to one in which all its jobs are consumed in order. */
  lemma EveryRunSettles<I, O>(n: nat, f: I -> O, actions: seq<Action<I>>) returns (more: seq<Action<I>>)
    requires 0 < n
    ensures forall i | 0 <= i < |more| :: Internal(more[i])
    ensures var s, t := Run(n, f, Init(n), actions), Run(n, f, Init(n), actions + more);
            Settled(t) && t.consumed == Map(f, s.pushed)
  {
    InitInv(n, f);
    RunInv(n, f, Init(n), actions);
    more := Settles(n, f, Run(n, f, Init(n), actions));
    RunConcat(n, f, Init(n), actions, more);
  }

  // ---------------------------------------------------------------- the bound is reached

  /** The consumer holds the first job; `k` more are done and announced. */
  ghost predicate Filled<I, O>(n: nat, s: State<I, O>, k: nat) {
    && s.jobs == [] && |s.workers| == n && (forall w | 0 <= w < n :: s.workers[w].Idle?)
    && |s.completions| == k && s.consumer.Awaiting? && s.producer.Free?
    && |s.pushed| == k + 1 && s.consumed == []
  }

  /** One job that is sent, taken, done and announced. */
  function Cycle<I>(x: I): seq<Action<I>> {
    [SendJob(x), TakeJob(0), Finish(0), Announce]
  }

  lemma RunCycle<I, O>(n: nat, f: I -> O, s: State<I, O>, x: I)
    requires 0 < n == |s.workers| && s.jobs == [] && s.producer.Free? && (forall w | 0 <= w < n :: s.workers[w].Idle?)
    requires |s.completions| < CompletionCapacity(n)
    ensures var t := Run(n, f, s, Cycle(x));
            && t.jobs == [] && |t.workers| == n && (forall w | 0 <= w < n :: t.workers[w].Idle?)
            && t.completions == s.completions + [Job(|s.pushed|)] && t.producer.Free?
            && t.consumer == s.consumer && t.consumed == s.consumed && |t.pushed| == |s.pushed| + 1
  {
    var s1 := Next(n, f, s, SendJob(x));
    var s2 := Next(n, f, s1, TakeJob(0));
    var s3 := Next(n, f, s2, Finish(0));
    var s4 := Next(n, f, s3, Announce);
    var c: seq<Action<I>> := Cycle(x);
    assert c[1..] == [TakeJob(0), Finish(0), Announce];
    assert c[1..][1..] == [Finish(0), Announce];
    assert c[1..][1..][1..] == [Announce];
    assert Run(n, f, s3, [Announce]) == s4 by {
      assert [Action<I>.Announce][1..] == [];
    }
    assert Run(n, f, s2, [Finish(0), Announce]) == s4;
    assert Run(n, f, s1, [TakeJob(0), Finish(0), Announce]) == s4;
  }

  lemma {:induction false} Fill<I, O>(n: nat, f: I -> O, x: I, k: nat) returns (actions: seq<Action<I>>)
    requires 0 < n && k <= CompletionCapacity(n)
    ensures Filled(n, Run(n, f, Init<I, O>(n), actions), k)
  {
    var s0: State<I, O> := Init(n);
    if k == 0 {
      RunCycle(n, f, s0, x);
      actions := Cycle(x) + [Receive];
      RunConcat(n, f, s0, Cycle(x), [Receive]);
      assert [Action<I>.Receive][1..] == [];
    } else {
      var before := Fill(n, f, x, k - 1);
      RunCycle(n, f, Run(n, f, s0, before), x);
      RunConcat(n, f, s0, before, Cycle(x));
      actions := before + Cycle(x);
    }
  }

  /** For every number of workers the bound on jobs in flight is reached. */
  lemma InFlightBoundReached<I, O>(n: nat, f: I -> O, x: I) returns (actions: seq<Action<I>>)
    requires 0 < n
    ensures var s := Run(n, f, Init<I, O>(n), actions); |s.pushed| - |s.consumed| == 2 * n + 3
  {
    var filling := Fill(n, f, x, CompletionCapacity(n));
    actions := filling + [SendJob(x)];
    RunConcat(n, f, Init<I, O>(n), filling, [SendJob(x)]);
    assert [SendJob(x)][1..] == [];
  }

  // ---------------------------------------------------------------- jobs that are not done

  lemma {:induction false} BusyBound(workers: seq<Worker>)
    ensures BusyCount(workers) <= |workers|
  {
    if workers != [] {
      BusyBound(workers[1..]);
    }
  }

  lemma {:induction false} AllBusy(workers: seq<Worker>)
    requires forall w | 0 <= w < |workers| :: workers[w].Busy?
    ensures BusyCount(workers) == |workers|
  {
    if workers != [] {
      AllBusy(workers[1..]);
    }
  }

  /** Jobs that wait for a worker or are being worked on: one of each for every worker, at most. */
  lemma UndoneBound<I, O>(n: nat, f: I -> O, actions: seq<Action<I>>)
    ensures var s := Run(n, f, Init(n), actions); |s.jobs| + BusyCount(s.workers) <= 2 * n
  {
    InitInv(n, f);
    RunInv(n, f, Init(n), actions);
    BusyBound(Run(n, f, Init(n), actions).workers);
  }

  /** The first `busy` workers are busy, and `queued` jobs wait. */
  ghost predicate Loaded<I, O>(n: nat, s: State<I, O>, busy: nat, queued: nat) {
    && |s.workers| == n && (forall w | 0 <= w < n :: s.workers[w].Busy? <==> w < busy)
    && |s.jobs| == queued && |s.completions| == busy + queued && s.producer.Free?
  }

  /** One more job is sent, and taken by the next worker if there is one. */
  lemma Load<I, O>(n: nat, f: I -> O, s: State<I, O>, x: I, busy: nat, queued: nat) returns (actions: seq<Action<I>>)
    requires Loaded(n, s, busy, queued) && if busy < n then queued == 0 else busy == n && queued < n
    ensures var t := Run(n, f, s, actions);
            if busy < n then Loaded(n, t, busy + 1, 0) else Loaded(n, t, n, queued + 1)
  {
    var s1 := Next(n, f, s, SendJob(x));
    var s2 := Next(n, f, s1, Announce);
    if busy < n {
      var s3 := Next(n, f, s2, TakeJob(busy));
      actions := [SendJob(x), Announce, TakeJob(busy)];
      assert actions[1..] == [Announce, TakeJob(busy)];
      assert actions[1..][1..] == [TakeJob(busy)];
      assert actions[1..][1..][1..] == [];
      assert Run(n, f, s2, [TakeJob(busy)]) == s3;
    } else {
      actions := [SendJob(x), Announce];
      assert actions[1..] == [Announce];
      assert actions[1..][1..] == [];
    }
    assert Run(n, f, s1, actions[1..]) == Run(n, f, s2, actions[1..][1..]);
  }

  lemma {:induction false} LoadAll<I, O>(n: nat, f: I -> O, x: I, k: nat) returns (actions: seq<Action<I>>)
    requires k <= 2 * n
    ensures var s := Run(n, f, Init<I, O>(n), actions);
            if k <= n then Loaded(n, s, k, 0) else Loaded(n, s, n, k - n)
  {
    if k == 0 {
      actions := [];
    } else {
      var before := LoadAll(n, f, x, k - 1);
      var busy: nat, queued: nat := if k <= n then k - 1 else n, if k <= n then 0 else k - 1 - n;
      var last := Load(n, f, Run(n, f, Init<I, O>(n), before), x, busy, queued);
      actions := before + last;
      RunConcat(n, f, Init<I, O>(n), before, last);
    }
  }

  /** For every number of workers there is a run in which all are busy and as many jobs wait for them. */
  lemma UndoneBoundReached<I, O>(n: nat, f: I -> O, x: I) returns (actions: seq<Action<I>>)
    ensures var s := Run(n, f, Init<I, O>(n), actions); |s.jobs| == n && BusyCount(s.workers) == n
  {
    actions := LoadAll(n, f, x, 2 * n);
    AllBusy(Run(n, f, Init<I, O>(n), actions).workers);
  }
}
