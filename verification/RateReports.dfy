/** What concurrent checks report about suppressions: exactly which buckets can report a time at which
nothing was suppressed, and a condition on the schedule under which none does. */
module RateReports {
  import opened TokenBuckets
  import opened RateLimits

  /** Some suppression was recorded with this time. */
  ghost predicate IsTime(w: World, time: nat) {
    exists j :: 0 <= j < |w.threads| && Suppressor(w.threads[j]) && w.threads[j].now == time
  }

  predicate Reported(t: Thread) {
    t.pc.Done? && t.pc.result.AllowedAfterSuppression?
  }

  /** A report that gives, as the first or the last time, one at which nothing was suppressed. */
  ghost predicate WrongReport(w: World) {
    exists i :: 0 <= i < |w.threads| && Reported(w.threads[i])
                && !(IsTime(w, w.threads[i].pc.result.first) && IsTime(w, w.threads[i].pc.result.last))
  }

  /** Recorded suppressions stay recorded. */
  lemma TimesStay(c: Config, w: World, a: Action, time: nat)
    requires IsTime(w, time)
    ensures IsTime(Next(c, w, a), time)
  {
    var j :| 0 <= j < |w.threads| && Suppressor(w.threads[j]) && w.threads[j].now == time;
    var t := Next(c, w, a).threads[j];
    assert Suppressor(t) && t.now == time;
  }

  // ---------------------------------------------------------------- buckets that never report wrongly

  predicate Denied(pc: Pc) {
    !pc.SwapCount? && !pc.SwapFirst? && !pc.SwapLast? && !(pc.Done? && pc.result.AllowedAfterSuppression?)
  }

  /** Without tokens nothing is ever allowed. */
  ghost predicate NothingAllowed(w: World) {
    && w.bucket.tokens == 0
    && forall i | 0 <= i < |w.threads| :: Denied(w.threads[i].pc)
  }

  lemma {:induction false} NoTokensNoReports(c: Config, w: World, actions: seq<Action>)
    requires c.maxTokens == 0 && NothingAllowed(w)
    ensures NothingAllowed(Run(c, w, actions))
    decreases |actions|
  {
    if actions != [] {
      if actions[0].Move? && actions[0].thread < |w.threads| {
        assert Denied(w.threads[actions[0].thread].pc);
      }
      NoTokensNoReports(c, Next(c, w, actions[0]), actions[1..]);
    }
  }

  ghost predicate ZeroThread(w: World, t: Thread) {
    && !t.pc.CompareExchange? && !t.pc.AddTokens?
    && (t.pc == TryConsume(true) || t.pc.Record? || Suppressor(t) ==> t.now == 0)
    && (t.pc.SwapFirst? || t.pc.SwapLast? || Reported(t) ==> IsTime(w, 0))
    && (t.pc.SwapLast? ==> t.pc.first == 0)
    && (Reported(t) ==> t.pc.result.first == 0 && t.pc.result.last == 0)
  }

  /** Without interval, a bucket created at time zero suppresses only at time zero: later checks that find
      no token panic. */
  ghost predicate OnlyAtZero(w: World) {
    && w.bucket.lastRefill == 0 && w.bucket.firstSuppression == 0 && w.bucket.lastSuppression == 0
    && (w.bucket.suppressed > 0 ==> IsTime(w, 0))
    && forall i | 0 <= i < |w.threads| :: ZeroThread(w, w.threads[i])
  }

  lemma StepOnlyAtZero(c: Config, w: World, a: Action)
    requires c.interval == 0 && OnlyAtZero(w)
    ensures OnlyAtZero(Next(c, w, a))
  {
    var w1 := Next(c, w, a);
    if IsTime(w, 0) {
      TimesStay(c, w, a, 0);
    }
    if a.Move? && a.thread < |w.threads| {
      var t := w.threads[a.thread];
      assert ZeroThread(w, t);
      if t.pc.Record? {
        assert Suppressor(w1.threads[a.thread]) && w1.threads[a.thread].now == 0;
      }
    }
    forall i | 0 <= i < |w1.threads|
      ensures ZeroThread(w1, w1.threads[i])
    {
      if i < |w.threads| {
        assert ZeroThread(w, w.threads[i]);
      }
    }
  }

  lemma {:induction false} StaysAtZero(c: Config, w: World, actions: seq<Action>)
    requires c.interval == 0 && OnlyAtZero(w)
    ensures OnlyAtZero(Run(c, w, actions))
    decreases |actions|
  {
    if actions != [] {
      StepOnlyAtZero(c, w, actions[0]);
      StaysAtZero(c, Next(c, w, actions[0]), actions[1..]);
    }
  }

  // ---------------------------------------------------------------- the race

  /** A check has taken the last token, at a positive time, and not looked at the counters yet. */
  ghost predicate Poised(w: World, i: nat) {
    && i < |w.threads| && w.threads[i].pc.SwapCount?
    && w.bucket == Bucket(0, w.clock, 0, 0, 0) && 0 < w.clock
    && forall j | 0 <= j < |w.threads| :: !Suppressor(w.threads[j])
  }

  lemma LateReport(c: Config, b: Bucket, now: nat)
    requires b.suppressed == 1 && b.firstSuppression == 0 && b.lastSuppression == 0
    ensures Alone(c, b, now, SwapCount).1 == Done(AllowedAfterSuppression(1, 0, 0))
  {
    var b1 := b.(suppressed := 0);
    assert Alone(c, b1, now, SwapLast(1, 0)) == (b1, Done(AllowedAfterSuppression(1, 0, 0)));
    assert Alone(c, b1, now, SwapFirst(1)) == Alone(c, b1, now, SwapLast(1, 0));
  }

  /** Another check counts its suppression and stops; the first one then reports it, with time zero. */
  lemma Race(c: Config, w: World, i: nat) returns (actions: seq<Action>)
    requires Poised(w, i)
    ensures WrongReport(Run(c, w, actions))
  {
    var k, t := |w.threads|, w.clock;
    var w2 := Next(c, Next(c, w, Call(t)), Move(k));
    RunTwo(c, w, Call(t), Move(k));
    assert w2.threads[k] == Thread(t, LoadRefill);

    var w4 := Next(c, Next(c, w2, Move(k)), Move(k));
    RunTwo(c, w2, Move(k), Move(k));
    RunConcat(c, w, [Call(t), Move(k)], [Move(k), Move(k)]);
    assert w4.threads[k] == Thread(t, Record);

    var w5 := Next(c, w4, Move(k));
    RunOne(c, w4, Move(k));
    actions := [Call(t), Move(k)] + [Move(k), Move(k)];
    RunConcat(c, w, actions, [Move(k)]);
    actions := actions + [Move(k)];
    assert w5.threads == w.threads + [Thread(t, StoreFirst)] && w5.bucket == Bucket(0, t, 1, 0, 0);

    Undisturbed(c, w5, i, 3);
    RunConcat(c, w, actions, Moves(i, 3));
    actions := actions + Moves(i, 3);
    LateReport(c, w5.bucket, w5.threads[i].now);
    var last := Run(c, w, actions);
    assert Reported(last.threads[i]) && last.threads[i].pc.result.first == 0;
    assert forall j | 0 <= j < |last.threads| && Suppressor(last.threads[j]) :: last.threads[j].now == t;
  }

  /** A bucket created at a positive time: the last token is taken right away. */
  lemma PoisedAtOnce(c: Config, created: nat) returns (actions: seq<Action>)
    requires 0 < c.maxTokens && 0 < created
    ensures Poised(Run(c, NewWorld(c, created), actions), c.maxTokens - 1)
  {
    var k := c.maxTokens - 1;
    actions := UseTokens(c, created, k);
    var w := Run(c, NewWorld(c, created), actions);
    RunTwo(c, w, Call(created), Move(k));
    RunConcat(c, NewWorld(c, created), actions, [Call(created), Move(k)]);
    actions := actions + [Call(created), Move(k)];
  }

  /** A bucket created at time zero: the token of one interval is taken. */
  lemma PoisedAfterRefill(c: Config) returns (actions: seq<Action>)
    requires 0 < c.maxTokens && 0 < c.interval
    ensures Poised(Run(c, NewWorld(c, 0), actions), c.maxTokens)
  {
    var k, t, w0 := c.maxTokens, c.interval, NewWorld(c, 0);
    actions := UseTokens(c, 0, k);
    var w := Run(c, w0, actions);
    var w2 := Next(c, Next(c, w, Tick(t)), Call(t));
    RunTwo(c, w, Tick(t), Call(t));
    RunConcat(c, w0, actions, [Tick(t), Call(t)]);
    actions := actions + [Tick(t), Call(t)];

    assert t / c.interval == 1;
    var w4 := Next(c, Next(c, w2, Move(k)), Move(k));
    RunTwo(c, w2, Move(k), Move(k));
    RunConcat(c, w0, actions, [Move(k), Move(k)]);
    actions := actions + [Move(k), Move(k)];
    assert w4.threads[k] == Thread(t, CompareExchange(0, 1)) && w4.bucket == Bucket(0, 0, 0, 0, 0);

    var w6 := Next(c, Next(c, w4, Move(k)), Move(k));
    RunTwo(c, w4, Move(k), Move(k));
    RunConcat(c, w0, actions, [Move(k), Move(k)]);
    actions := actions + [Move(k), Move(k)];
    assert w6.threads[k] == Thread(t, TryConsume(true)) && w6.bucket == Bucket(1, t, 0, 0, 0);

    RunOne(c, w6, Move(k));
    RunConcat(c, w0, actions, [Move(k)]);
    actions := actions + [Move(k)];
    assert Run(c, w0, actions).threads == w.threads + [Thread(t, SwapCount)];
  }

  lemma NeverWrong(c: Config, created: nat, actions: seq<Action>)
    requires c.maxTokens == 0 || (created == 0 && c.interval == 0)
    ensures !WrongReport(Run(c, NewWorld(c, created), actions))
  {
    var w := Run(c, NewWorld(c, created), actions);
    if c.maxTokens == 0 {
      NoTokensNoReports(c, NewWorld(c, created), actions);
      assert forall i | 0 <= i < |w.threads| :: Denied(w.threads[i].pc);
    } else {
      StaysAtZero(c, NewWorld(c, created), actions);
      assert forall i | 0 <= i < |w.threads| :: ZeroThread(w, w.threads[i]);
    }
  }

  /** Some interleaving reports a time at which nothing was suppressed exactly when there are tokens and the
      bucket can suppress after time zero: it was created later, or it has a refill interval. */
  lemma WrongReportIff(c: Config, created: nat)
    ensures (exists actions :: WrongReport(Run(c, NewWorld(c, created), actions)))
         <==> 0 < c.maxTokens && (0 < created || 0 < c.interval)
  {
    var w0 := NewWorld(c, created);
    if 0 < c.maxTokens && (0 < created || 0 < c.interval) {
      var poised;
      var i := c.maxTokens;
      if 0 < created {
        poised := PoisedAtOnce(c, created);
        i := i - 1;
      } else {
        poised := PoisedAfterRefill(c);
      }
      var race := Race(c, Run(c, w0, poised), i);
      RunConcat(c, w0, poised, race);
      assert WrongReport(Run(c, w0, poised + race));
    } else {
      forall actions
        ensures !WrongReport(Run(c, w0, actions))
      {
        NeverWrong(c, created, actions);
      }
    }
  }

  // ---------------------------------------------------------------- the suppressions of a report

  /** A run with its history: the checks that counted a suppression since the counter was last taken, in that
      order, and for every check that took the counter those it found counted. */
  datatype Ledger = Ledger(world: World, since: seq<nat>, batches: map<nat, seq<nat>>)

  function Opened(c: Config, created: nat): Ledger {
    Ledger(NewWorld(c, created), [], map[])
  }

  function Note(c: Config, l: Ledger, a: Action): Ledger {
    var w := l.world;
    if a.Move? && a.thread < |w.threads| && w.threads[a.thread].pc.Record? then
      Ledger(Next(c, w, a), l.since + [a.thread], l.batches)
    else if a.Move? && a.thread < |w.threads| && w.threads[a.thread].pc.SwapCount? then
      Ledger(Next(c, w, a), [], l.batches[a.thread := l.since])
    else l.(world := Next(c, w, a))
  }

  function Keep(c: Config, l: Ledger, actions: seq<Action>): Ledger
    decreases |actions|
  {
    if actions == [] then l else Keep(c, Note(c, l, actions[0]), actions[1..])
  }

  lemma {:induction false} KeepIsRun(c: Config, l: Ledger, actions: seq<Action>)
    ensures Keep(c, l, actions).world == Run(c, l.world, actions)
    decreases |actions|
  {
    if actions != [] {
      KeepIsRun(c, Note(c, l, actions[0]), actions[1..]);
    }
  }

  /** Different checks that were suppressed. */
  ghost predicate Members(w: World, batch: seq<nat>) {
    && (forall k | 0 <= k < |batch| :: batch[k] < |w.threads| && Suppressor(w.threads[batch[k]]))
    && (forall j, k | 0 <= j < k < |batch| :: batch[j] != batch[k])
  }

  /** A check between taking the count and taking the times. */
  predicate Reporting(t: Thread) {
    t.pc.SwapFirst? || t.pc.SwapLast?
  }

  /** A check that has taken the counter and found it positive. */
  predicate HasCount(t: Thread) {
    Reporting(t) || Reported(t)
  }

  /** What a check tells is the number of suppressions it found counted. */
  ghost predicate CountsItsBatch(l: Ledger, i: nat)
    requires i < |l.world.threads|
  {
    HasCount(l.world.threads[i]) ==>
      i in l.batches && l.batches[i] != [] && Told(l.world.threads[i]) == |l.batches[i]|
  }

  ghost predicate BatchesInv(l: Ledger) {
    && l.world.bucket.suppressed == |l.since| && Members(l.world, l.since)
    && (forall i | i in l.batches :: Members(l.world, l.batches[i]))
    && (forall i | 0 <= i < |l.world.threads| :: CountsItsBatch(l, i))
  }

  /** Threads keep their times, and suppressed ones stay suppressed. */
  lemma MembersStay(c: Config, w: World, a: Action, batch: seq<nat>)
    requires Members(w, batch)
    ensures Members(Next(c, w, a), batch)
    ensures forall k | 0 <= k < |batch| :: Next(c, w, a).threads[batch[k]].now == w.threads[batch[k]].now
  {
  }

  /** A check that counts its suppression was not suppressed before. */
  lemma CountedOnce(c: Config, w: World, i: nat, since: seq<nat>)
    requires Members(w, since)
    requires i < |w.threads| && w.threads[i].pc.Record?
    ensures Members(Next(c, w, Move(i)), since + [i])
  {
    MembersStay(c, w, Move(i), since);
  }

  lemma NoteMembers(c: Config, l: Ledger, a: Action)
    requires BatchesInv(l)
    ensures var l1 := Note(c, l, a);
            && Members(l1.world, l1.since)
            && forall i | i in l1.batches :: Members(l1.world, l1.batches[i])
  {
    var l1 := Note(c, l, a);
    MembersStay(c, l.world, a, l.since);
    if a.Move? && a.thread < |l.world.threads| && l.world.threads[a.thread].pc.Record? {
      CountedOnce(c, l.world, a.thread, l.since);
    }
    forall i | i in l1.batches
      ensures Members(l1.world, l1.batches[i])
    {
      if i in l.batches {
        MembersStay(c, l.world, a, l.batches[i]);
      }
    }
  }

  lemma NoteCounts(c: Config, l: Ledger, a: Action, i: nat)
    requires BatchesInv(l)
    requires i < |Note(c, l, a).world.threads|
    ensures CountsItsBatch(Note(c, l, a), i)
  {
    if i < |l.world.threads| {
      assert CountsItsBatch(l, i);
    }
  }

  lemma NoteBatches(c: Config, l: Ledger, a: Action)
    requires BatchesInv(l)
    ensures BatchesInv(Note(c, l, a))
  {
    var l1 := Note(c, l, a);
    NoteMembers(c, l, a);
    forall i | 0 <= i < |l1.world.threads|
      ensures CountsItsBatch(l1, i)
    {
      NoteCounts(c, l, a, i);
    }
  }

  lemma {:induction false} KeepBatches(c: Config, l: Ledger, actions: seq<Action>)
    requires BatchesInv(l)
    ensures BatchesInv(Keep(c, l, actions))
    decreases |actions|
  {
    if actions != [] {
      NoteBatches(c, l, actions[0]);
      KeepBatches(c, Note(c, l, actions[0]), actions[1..]);
    }
  }

  /** In every interleaving, a reported count is the number of checks suppressed since the counter was last taken. */
  lemma ReportsCount(c: Config, created: nat, actions: seq<Action>, i: nat)
    requires i < |Run(c, NewWorld(c, created), actions).threads|
    requires Reported(Run(c, NewWorld(c, created), actions).threads[i])
    ensures var l := Keep(c, Opened(c, created), actions);
            && l.world == Run(c, NewWorld(c, created), actions)
            && i in l.batches && l.batches[i] != [] && Members(l.world, l.batches[i])
            && l.world.threads[i].pc.result.suppressed == |l.batches[i]|
  {
    KeepIsRun(c, Opened(c, created), actions);
    KeepBatches(c, Opened(c, created), actions);
    assert CountsItsBatch(Keep(c, Opened(c, created), actions), i);
  }

  // ---------------------------------------------------------------- schedules without wrong reports

  /** A check between counting its suppression and storing its times. */
  predicate Recording(t: Thread) {
    t.pc.StoreFirst? || t.pc.StoreLast?
  }

  /** While one check takes the counters, none is storing them. */
  ghost predicate Apart(w: World) {
    forall i, j | 0 <= i < |w.threads| && 0 <= j < |w.threads| ::
      !(Recording(w.threads[i]) && Reporting(w.threads[j]))
  }

  /** That is so in every state of a run. */
  ghost predicate AlwaysApart(c: Config, w: World, actions: seq<Action>)
    decreases |actions|
  {
    Apart(w) && (actions != [] ==> AlwaysApart(c, Next(c, w, actions[0]), actions[1..]))
  }

  ghost predicate SomeRecording(w: World) {
    exists i :: 0 <= i < |w.threads| && Recording(w.threads[i])
  }

  /** The time of the first suppression of a batch. */
  ghost predicate FirstOf(w: World, batch: seq<nat>, time: nat) {
    batch != [] && batch[0] < |w.threads| && w.threads[batch[0]].now == time
  }

  /** The time of one suppression of a batch. */
  ghost predicate TimeOf(w: World, batch: seq<nat>, time: nat) {
    exists k :: 0 <= k < |batch| && batch[k] < |w.threads| && w.threads[batch[k]].now == time
  }

  lemma TimeOfStays(c: Config, w: World, a: Action, batch: seq<nat>, time: nat)
    requires Members(w, batch)
    ensures TimeOf(w, batch, time) ==> TimeOf(Next(c, w, a), batch, time)
    ensures FirstOf(w, batch, time) ==> FirstOf(Next(c, w, a), batch, time)
  {
    MembersStay(c, w, a, batch);
    if TimeOf(w, batch, time) {
      var k :| 0 <= k < |batch| && batch[k] < |w.threads| && w.threads[batch[k]].now == time;
      assert Next(c, w, a).threads[batch[k]].now == time;
    }
  }

  /** Checks that store times are those counted since the counter was last taken, the first of them the first time. */
  ghost predicate Stores(l: Ledger, i: nat)
    requires i < |l.world.threads|
  {
    && (Recording(l.world.threads[i]) ==> i in l.since)
    && (l.world.threads[i].pc.StoreFirst? ==> l.since != [] && l.since[0] == i)
  }

  /** Once they are stored, the times are those of the suppressions counted. */
  ghost predicate Stored(l: Ledger) {
    var w := l.world;
    l.since != [] ==>
      && l.since[0] < |w.threads|
      && (w.threads[l.since[0]].pc.StoreFirst? || FirstOf(w, l.since, w.bucket.firstSuppression))
      && (SomeRecording(w) || TimeOf(w, l.since, w.bucket.lastSuppression))
  }

  /** What a check has taken, or will take, are the times of its batch. */
  ghost predicate Holds(l: Ledger, i: nat)
    requires i < |l.world.threads|
  {
    var w, t := l.world, l.world.threads[i];
    HasCount(t) ==>
      && i in l.batches
      && (Reporting(t) ==> l.since == [] && TimeOf(w, l.batches[i], w.bucket.lastSuppression))
      && (t.pc.SwapFirst? ==> FirstOf(w, l.batches[i], w.bucket.firstSuppression))
      && (t.pc.SwapLast? ==> FirstOf(w, l.batches[i], t.pc.first))
      && (Reported(t) ==> FirstOf(w, l.batches[i], t.pc.result.first) && TimeOf(w, l.batches[i], t.pc.result.last))
  }

  ghost predicate OneReporting(w: World) {
    forall i, j | 0 <= i < |w.threads| && 0 <= j < |w.threads| ::
      Reporting(w.threads[i]) && Reporting(w.threads[j]) ==> i == j
  }

  ghost predicate TimesInv(l: Ledger) {
    && BatchesInv(l) && Apart(l.world) && OneReporting(l.world) && Stored(l)
    && (forall i | 0 <= i < |l.world.threads| :: Stores(l, i))
    && (forall i | 0 <= i < |l.world.threads| :: Holds(l, i))
  }

  lemma NoteStores(c: Config, l: Ledger, a: Action, i: nat)
    requires TimesInv(l) && Apart(Note(c, l, a).world) && i < |Note(c, l, a).world.threads|
    ensures Stores(Note(c, l, a), i)
  {
    var l1 := Note(c, l, a);
    if i < |l.world.threads| {
      assert Stores(l, i);
    }
    if a.Move? && a.thread < |l.world.threads| && l.world.threads[a.thread].pc.SwapCount? && l.since != [] {
      assert Reporting(l1.world.threads[a.thread]);
    }
  }

  lemma RecordingStays(c: Config, w: World, a: Action)
    requires SomeRecording(w) && !(a.Move? && a.thread < |w.threads| && Recording(w.threads[a.thread]))
    ensures SomeRecording(Next(c, w, a))
  {
    var j :| 0 <= j < |w.threads| && Recording(w.threads[j]);
    assert Recording(Next(c, w, a).threads[j]);
  }

  /** A step of a check that counts or stores. */
  lemma RecordStored(c: Config, l: Ledger, i: nat)
    requires TimesInv(l) && i < |l.world.threads|
    requires l.world.threads[i].pc.Record? || Recording(l.world.threads[i])
    ensures Stored(Note(c, l, Move(i)))
  {
    var l1, t := Note(c, l, Move(i)), l.world.threads[i];
    assert Stores(l, i);
    assert l1.world.threads[i].now == t.now;
    if t.pc.Record? || t.pc.StoreFirst? {
      assert Recording(l1.world.threads[i]);
    } else {
      var k :| 0 <= k < |l.since| && l.since[k] == i;
      assert l1.world.threads[l.since[k]].now == l1.world.bucket.lastSuppression;
    }
    if l.since != [] {
      TimeOfStays(c, l.world, Move(i), l.since, l.world.bucket.firstSuppression);
    }
  }

  /** While suppressions are pending, only checks that store change the times. */
  lemma OtherKeepsTimes(c: Config, l: Ledger, a: Action)
    requires TimesInv(l) && l.since != []
    requires !(a.Move? && a.thread < |l.world.threads| && Recording(l.world.threads[a.thread]))
    ensures var b, b1 := l.world.bucket, Next(c, l.world, a).bucket;
            b1.firstSuppression == b.firstSuppression && b1.lastSuppression == b.lastSuppression
  {
    if a.Move? && a.thread < |l.world.threads| {
      assert Holds(l, a.thread);
    }
  }

  lemma NoteStored(c: Config, l: Ledger, a: Action)
    requires TimesInv(l)
    ensures Stored(Note(c, l, a))
  {
    var w := l.world;
    if a.Move? && a.thread < |w.threads| && (w.threads[a.thread].pc.Record? || Recording(w.threads[a.thread])) {
      RecordStored(c, l, a.thread);
    } else if l.since != [] && Note(c, l, a).since != [] {
      OtherKeepsTimes(c, l, a);
      TimeOfStays(c, w, a, l.since, w.bucket.firstSuppression);
      TimeOfStays(c, w, a, l.since, w.bucket.lastSuppression);
      if SomeRecording(w) {
        RecordingStays(c, w, a);
      }
    }
  }

  /** While one check takes the times, no other changes them or counts. */
  lemma ReportingAlone(c: Config, l: Ledger, a: Action, i: nat)
    requires TimesInv(l) && Apart(Note(c, l, a).world) && i < |l.world.threads| && !(a.Move? && a.thread == i)
    requires Reporting(l.world.threads[i]) && l.since == []
    ensures var b, b1 := l.world.bucket, Note(c, l, a).world.bucket;
            b1.firstSuppression == b.firstSuppression && b1.lastSuppression == b.lastSuppression
    ensures Note(c, l, a).since == []
  {
    var w, w1 := l.world, Note(c, l, a).world;
    assert w1.threads[i] == w.threads[i];
    if a.Move? && a.thread < |w.threads| {
      assert !Reporting(w.threads[a.thread]) && !Recording(w.threads[a.thread]) && !Recording(w1.threads[a.thread]);
    }
  }

  /** A step of another thread. */
  lemma OthersHold(c: Config, l: Ledger, a: Action, i: nat)
    requires TimesInv(l) && Apart(Note(c, l, a).world) && i < |l.world.threads| && !(a.Move? && a.thread == i)
    ensures Holds(Note(c, l, a), i)
  {
    var w, l1, t := l.world, Note(c, l, a), l.world.threads[i];
    assert Holds(l, i) && l1.world.threads[i] == t;
    if HasCount(t) {
      var batch := l.batches[i];
      assert l1.batches[i] == batch;
      TimeOfStays(c, w, a, batch, w.bucket.lastSuppression);
      TimeOfStays(c, w, a, batch, w.bucket.firstSuppression);
      if t.pc.SwapLast? {
        TimeOfStays(c, w, a, batch, t.pc.first);
      } else if Reported(t) {
        TimeOfStays(c, w, a, batch, t.pc.result.first);
        TimeOfStays(c, w, a, batch, t.pc.result.last);
      }
      if Reporting(t) {
        ReportingAlone(c, l, a, i);
      }
    }
  }

  /** A check takes the counter when no other is storing the times. */
  lemma CountTaken(c: Config, l: Ledger, i: nat)
    requires TimesInv(l) && i < |l.world.threads| && l.world.threads[i].pc.SwapCount? && l.since != []
    requires Apart(Note(c, l, Move(i)).world)
    ensures var b := l.world.bucket;
            FirstOf(l.world, l.since, b.firstSuppression) && TimeOf(l.world, l.since, b.lastSuppression)
  {
    var w1 := Note(c, l, Move(i)).world;
    assert Reporting(w1.threads[i]);
    if SomeRecording(l.world) {
      RecordingStays(c, l.world, Move(i));
      assert false;
    }
  }

  lemma MoverHolds(c: Config, l: Ledger, i: nat)
    requires TimesInv(l) && i < |l.world.threads| && Apart(Note(c, l, Move(i)).world)
    ensures Holds(Note(c, l, Move(i)), i)
  {
    var w, t := l.world, l.world.threads[i];
    assert Holds(l, i);
    if t.pc.SwapCount? && l.since != [] {
      CountTaken(c, l, i);
      TimeOfStays(c, w, Move(i), l.since, w.bucket.firstSuppression);
      TimeOfStays(c, w, Move(i), l.since, w.bucket.lastSuppression);
    } else if HasCount(t) {
      var batch := l.batches[i];
      TimeOfStays(c, w, Move(i), batch, w.bucket.firstSuppression);
      TimeOfStays(c, w, Move(i), batch, w.bucket.lastSuppression);
      if t.pc.SwapLast? {
        TimeOfStays(c, w, Move(i), batch, t.pc.first);
      } else if Reported(t) {
        TimeOfStays(c, w, Move(i), batch, t.pc.result.first);
        TimeOfStays(c, w, Move(i), batch, t.pc.result.last);
      }
    }
  }

  lemma NoteOneReporting(c: Config, l: Ledger, a: Action)
    requires TimesInv(l)
    ensures OneReporting(Note(c, l, a).world)
  {
    var w, w1 := l.world, Note(c, l, a).world;
    forall i, j | 0 <= i < |w1.threads| && 0 <= j < |w1.threads| && Reporting(w1.threads[i]) && Reporting(w1.threads[j])
      ensures i == j
    {
      assert Holds(l, i) && Holds(l, j);
    }
  }

  lemma NoteTimes(c: Config, l: Ledger, a: Action)
    requires TimesInv(l) && Apart(Note(c, l, a).world)
    ensures TimesInv(Note(c, l, a))
  {
    var w1 := Note(c, l, a).world;
    NoteBatches(c, l, a);
    NoteStored(c, l, a);
    NoteOneReporting(c, l, a);
    forall i | 0 <= i < |w1.threads|
      ensures Stores(Note(c, l, a), i) && Holds(Note(c, l, a), i)
    {
      NoteStores(c, l, a, i);
      if i < |l.world.threads| {
        if a == Move(i) {
          MoverHolds(c, l, i);
        } else {
          OthersHold(c, l, a, i);
        }
      }
    }
  }

  lemma {:induction false} KeepTimes(c: Config, l: Ledger, actions: seq<Action>)
    requires TimesInv(l) && AlwaysApart(c, l.world, actions)
    ensures TimesInv(Keep(c, l, actions))
    decreases |actions|
  {
    if actions != [] {
      NoteTimes(c, l, actions[0]);
      KeepTimes(c, Note(c, l, actions[0]), actions[1..]);
    }
  }

  /** In every interleaving in which no check stores the counters while another takes them, a report gives the
      number of the suppressions since the counter was last taken, the time of the first of them to be counted,
      and the time of one of them as the last. */
  lemma ApartReportsTrue(c: Config, created: nat, actions: seq<Action>, i: nat)
    requires AlwaysApart(c, NewWorld(c, created), actions)
    requires i < |Run(c, NewWorld(c, created), actions).threads|
    requires Reported(Run(c, NewWorld(c, created), actions).threads[i])
    ensures var l := Keep(c, Opened(c, created), actions);
            && l.world == Run(c, NewWorld(c, created), actions)
            && i in l.batches && Members(l.world, l.batches[i])
            && var r, batch := l.world.threads[i].pc.result, l.batches[i];
               r.suppressed == |batch| && FirstOf(l.world, batch, r.first) && TimeOf(l.world, batch, r.last)
  {
    ReportsCount(c, created, actions, i);
    KeepTimes(c, Opened(c, created), actions);
    assert Holds(Keep(c, Opened(c, created), actions), i);
  }

  /** So no report is wrong. */
  lemma ApartNeverWrong(c: Config, created: nat, actions: seq<Action>)
    requires AlwaysApart(c, NewWorld(c, created), actions)
    ensures !WrongReport(Run(c, NewWorld(c, created), actions))
  {
    var w := Run(c, NewWorld(c, created), actions);
    forall i | 0 <= i < |w.threads| && Reported(w.threads[i])
      ensures IsTime(w, w.threads[i].pc.result.first) && IsTime(w, w.threads[i].pc.result.last)
    {
      ApartReportsTrue(c, created, actions, i);
      var batch := Keep(c, Opened(c, created), actions).batches[i];
      assert Suppressor(w.threads[batch[0]]);
      var k :| 0 <= k < |batch| && w.threads[batch[k]].now == w.threads[i].pc.result.last;
      assert Suppressor(w.threads[batch[k]]);
    }
  }
}
