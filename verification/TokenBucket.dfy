/** The lock-free rate limiter.

Every atomic operation of `check` is one step of a thread, so all interleavings of
concurrent checks are covered.  A check that runs undisturbed is proved to be the
sequential check, which the class implements.
*/
module TokenBuckets {
  import opened Arithmetic
  import opened Options

  const U32_LIMIT: nat := 0x1_0000_0000

  /** Capacity, a 32-bit number, and milliseconds per refilled token. */
  datatype Config = Config(maxTokens: nat, interval: nat)

  predicate ValidConfig(c: Config) {
    c.maxTokens < U32_LIMIT
  }

  /** The atomic fields of a bucket. */
  datatype Bucket = Bucket(tokens: nat, lastRefill: nat, suppressed: nat, firstSuppression: nat, lastSuppression: nat)

  datatype Result = Allowed | AllowedAfterSuppression(suppressed: nat, first: nat, last: nat) | Suppressed

  function DivCeil(a: nat, b: nat): nat
    requires 0 < b
  {
    a / b + (if a % b == 0 then 0 else 1)
  }

  function MakeConfig(maxTokens: nat, windowMs: nat): Config {
    Config(maxTokens, if maxTokens == 0 then 1 else DivCeil(windowMs, maxTokens))
  }

  function NewBucket(c: Config, now: nat): Bucket {
    Bucket(c.maxTokens, now, 0, 0, 0)
  }

  /** The interval is positive, as the refill relies on, exactly when the window is at least a millisecond
      or there are no tokens; and a full refill takes at least the window. */
  lemma IntervalPositive(maxTokens: nat, windowMs: nat)
    ensures var c := MakeConfig(maxTokens, windowMs);
            && (0 < c.interval <==> maxTokens == 0 || 0 < windowMs)
            && (0 < maxTokens ==> windowMs <= maxTokens * c.interval < windowMs + maxTokens)
  {
    if 0 < maxTokens {
      DivModSum(windowMs, maxTokens);
      var q := windowMs / maxTokens;
      assert maxTokens * (q + 1) == maxTokens * q + maxTokens;
      if q == 0 {
        assert maxTokens * q == 0;
      }
    }
  }

  // ---------------------------------------------------------------- steps

  /** Where a thread is in `check`. */
  datatype Pc =
    | TryConsume(again: bool)
    | SwapCount | SwapFirst(count: nat) | SwapLast(count: nat, first: nat)
    | LoadRefill | CompareExchange(last: nat, add: nat) | AddTokens(add: nat)
    | Record | StoreFirst | StoreLast
    | Done(result: Result) | Panicked

  function Refilled(c: Config, tokens: nat, add: nat): nat {
    var sum := tokens + add % U32_LIMIT;
    var saturated := if sum < U32_LIMIT then sum else U32_LIMIT - 1;
    if saturated <= c.maxTokens then saturated else c.maxTokens
  }

  /** One atomic operation of a thread whose check was called with time `now`. */
  function Atomic(c: Config, b: Bucket, now: nat, pc: Pc): (Bucket, Pc) {
    match pc
    case TryConsume(again) =>
      if b.tokens > 0 then (b.(tokens := b.tokens - 1), SwapCount)
      else (b, if again then Record else LoadRefill)
    case SwapCount =>
      (b.(suppressed := 0), if b.suppressed > 0 then SwapFirst(b.suppressed) else Done(Allowed))
    case SwapFirst(count) => (b.(firstSuppression := 0), SwapLast(count, b.firstSuppression))
    case SwapLast(count, first) =>
      (b.(lastSuppression := 0), Done(AllowedAfterSuppression(count, first, b.lastSuppression)))
    case LoadRefill =>
      if now <= b.lastRefill then (b, TryConsume(true))
      else if c.interval == 0 then (b, Panicked)
      else
        var add := (now - b.lastRefill) / c.interval;
        (b, if add == 0 then TryConsume(true) else CompareExchange(b.lastRefill, add))
    case CompareExchange(last, add) =>
      if b.lastRefill == last then (b.(lastRefill := now), AddTokens(add)) else (b, TryConsume(true))
    case AddTokens(add) => (b.(tokens := Refilled(c, b.tokens, add)), TryConsume(true))
    case Record => (b.(suppressed := b.suppressed + 1), if b.suppressed == 0 then StoreFirst else StoreLast)
    case StoreFirst => (b.(firstSuppression := now), StoreLast)
    case StoreLast => (b.(lastSuppression := now), Done(Suppressed))
    case Done(_) => (b, pc)
    case Panicked => (b, pc)
  }

  // ---------------------------------------------------------------- all interleavings

  datatype Thread = Thread(now: nat, pc: Pc)

  /** A bucket shared by any number of checks, running or done, and the time it was created. */
  datatype World = World(bucket: Bucket, threads: seq<Thread>, clock: nat, created: nat)

  /** Time passes, a check is called with a time that was read earlier, or a thread takes one step. */
  datatype Action = Tick(ms: nat) | Call(now: nat) | Move(thread: nat)

  function NewWorld(c: Config, now: nat): World {
    World(NewBucket(c, now), [], now, now)
  }

  function Next(c: Config, w: World, a: Action): World {
    match a
    case Tick(ms) => w.(clock := w.clock + ms)
    case Call(now) =>
      if now <= w.clock then w.(threads := w.threads + [Thread(now, TryConsume(false))]) else w
    case Move(i) =>
      if i >= |w.threads| then w
      else
        var t := w.threads[i];
        var (b, pc) := Atomic(c, w.bucket, t.now, t.pc);
        World(b, w.threads[i := Thread(t.now, pc)], w.clock, w.created)
  }

  function Run(c: Config, w: World, actions: seq<Action>): World
    decreases |actions|
  {
    if actions == [] then w else Run(c, Next(c, w, actions[0]), actions[1..])
  }

  // ---------------------------------------------------------------- sums over all checks

  function Sum(f: Thread -> nat, threads: seq<Thread>): nat {
    if threads == [] then 0 else f(threads[0]) + Sum(f, threads[1..])
  }

  lemma {:induction false} SumUpdate(f: Thread -> nat, threads: seq<Thread>, i: nat, t: Thread)
    requires i < |threads|
    ensures Sum(f, threads[i := t]) + f(threads[i]) == Sum(f, threads) + f(t)
  {
    if i == 0 {
      assert threads[0 := t][1..] == threads[1..];
    } else {
      SumUpdate(f, threads[1..], i - 1, t);
      assert threads[i := t][1..] == threads[1..][i - 1 := t];
    }
  }

  lemma {:induction false} SumSnoc(f: Thread -> nat, threads: seq<Thread>, t: Thread)
    ensures Sum(f, threads + [t]) == Sum(f, threads) + f(t)
  {
    if threads == [] {
      assert threads + [t] == [t] && [t][1..] == [];
    } else {
      SumSnoc(f, threads[1..], t);
      assert (threads + [t])[1..] == threads[1..] + [t];
    }
  }

  /** Tokens that a thread has been granted and not yet added. */
  function Granted(t: Thread): nat {
    if t.pc.AddTokens? then t.pc.add else 0
  }

  /** One for a check that has taken a token, which is allowed or on its way to be. */
  function Took(t: Thread): nat {
    if t.pc.SwapCount? || t.pc.SwapFirst? || t.pc.SwapLast? || (t.pc.Done? && t.pc.result != Suppressed) then 1 else 0
  }

  predicate Suppressor(t: Thread) {
    t.pc.StoreFirst? || t.pc.StoreLast? || t.pc == Done(Suppressed)
  }

  /** One for a check that has counted its suppression. */
  function Counted(t: Thread): nat {
    if Suppressor(t) then 1 else 0
  }

  /** The number of suppressions that a check reports, or is on its way to report. */
  function Told(t: Thread): nat {
    match t.pc
    case SwapFirst(count) => count
    case SwapLast(count, _) => count
    case Done(AllowedAfterSuppression(count, _, _)) => count
    case _ => 0
  }

  // ---------------------------------------------------------------- the invariant

  /** Tokens that `elapsed` milliseconds are worth. */
  function Earned(c: Config, elapsed: nat): nat {
    if c.interval == 0 then 0 else elapsed / c.interval
  }

  /** A thread about to exchange the refill time knows what that exchange is worth. */
  ghost predicate ThreadInv(c: Config, clock: nat, t: Thread) {
    && t.now <= clock
    && (t.pc.CompareExchange? ==> t.pc.last <= t.now && t.pc.add <= Earned(c, t.now - t.pc.last))
  }

  ghost predicate WorldInv(c: Config, w: World) {
    && w.bucket.tokens <= c.maxTokens
    && w.created <= w.bucket.lastRefill <= w.clock
    && (forall i | 0 <= i < |w.threads| :: ThreadInv(c, w.clock, w.threads[i]))
    && Sum(Took, w.threads) + w.bucket.tokens + Sum(Granted, w.threads)
       <= c.maxTokens + Earned(c, w.bucket.lastRefill - w.created)
  }

  lemma EarnedAdds(c: Config, a: nat, b: nat)
    ensures Earned(c, a) + Earned(c, b) <= Earned(c, a + b)
  {
    if 0 < c.interval {
      DivSuperadditive(a, b, c.interval);
    }
  }

  /** One step: a token taken was in the bucket, a token added was granted, and a grant is worth elapsed time. */
  lemma AtomicTokens(c: Config, b: Bucket, t: Thread, created: nat)
    requires b.tokens <= c.maxTokens && created <= b.lastRefill
    requires t.pc.CompareExchange? ==> t.pc.last <= t.now && t.pc.add <= Earned(c, t.now - t.pc.last)
    ensures var (b1, pc) := Atomic(c, b, t.now, t.pc);
            var t1 := Thread(t.now, pc);
            && b1.tokens <= c.maxTokens && b.lastRefill <= b1.lastRefill
            && Took(t1) + b1.tokens + Granted(t1) + Earned(c, b.lastRefill - created)
               <= Took(t) + b.tokens + Granted(t) + Earned(c, b1.lastRefill - created)
  {
    if t.pc.CompareExchange? && b.lastRefill == t.pc.last {
      EarnedAdds(c, t.pc.last - created, t.now - t.pc.last);
    }
  }

  lemma MoveTokens(c: Config, w: World, i: nat)
    requires WorldInv(c, w) && i < |w.threads|
    ensures var w1 := Next(c, w, Move(i));
            && w1.bucket.tokens <= c.maxTokens && w.created <= w1.bucket.lastRefill <= w.clock
            && Sum(Took, w1.threads) + w1.bucket.tokens + Sum(Granted, w1.threads)
               <= c.maxTokens + Earned(c, w1.bucket.lastRefill - w.created)
  {
    var t, t1 := w.threads[i], Next(c, w, Move(i)).threads[i];
    assert ThreadInv(c, w.clock, t);
    AtomicTokens(c, w.bucket, t, w.created);
    SumUpdate(Took, w.threads, i, t1);
    SumUpdate(Granted, w.threads, i, t1);
  }

  lemma MoveInv(c: Config, w: World, i: nat)
    requires WorldInv(c, w) && i < |w.threads|
    ensures WorldInv(c, Next(c, w, Move(i)))
  {
    MoveTokens(c, w, i);
    assert ThreadInv(c, w.clock, w.threads[i]);
    assert ThreadInv(c, w.clock, Next(c, w, Move(i)).threads[i]);
  }

  lemma NextInv(c: Config, w: World, a: Action)
    requires WorldInv(c, w)
    ensures WorldInv(c, Next(c, w, a))
  {
    match a
    case Tick(ms) =>
      forall i | 0 <= i < |w.threads|
        ensures ThreadInv(c, w.clock + ms, w.threads[i])
      {
        assert ThreadInv(c, w.clock, w.threads[i]);
      }
    case Call(now) =>
      SumSnoc(Took, w.threads, Thread(now, TryConsume(false)));
      SumSnoc(Granted, w.threads, Thread(now, TryConsume(false)));
    case Move(i) =>
      if i < |w.threads| {
        MoveInv(c, w, i);
      }
  }

  lemma {:induction false} RunInv(c: Config, w: World, actions: seq<Action>)
    requires WorldInv(c, w)
    ensures WorldInv(c, Run(c, w, actions))
    decreases |actions|
  {
    if actions != [] {
      NextInv(c, w, actions[0]);
      RunInv(c, Next(c, w, actions[0]), actions[1..]);
    }
  }

  lemma {:induction false} RunKeepsCreated(c: Config, w: World, actions: seq<Action>)
    ensures Run(c, w, actions).created == w.created
    decreases |actions|
  {
    if actions != [] {
      RunKeepsCreated(c, Next(c, w, actions[0]), actions[1..]);
    }
  }

  /** In every interleaving the bucket never overflows, and the checks that ever take a token number at most
      the initial filling plus what the elapsed time is worth. */
  lemma ConsumedBound(c: Config, created: nat, actions: seq<Action>)
    ensures var w := Run(c, NewWorld(c, created), actions);
            && w.bucket.tokens <= c.maxTokens
            && created == w.created <= w.clock
            && Sum(Took, w.threads) <= c.maxTokens + Earned(c, w.clock - created)
  {
    var w0 := NewWorld(c, created);
    assert Earned(c, 0) == 0;
    RunInv(c, w0, actions);
    RunKeepsCreated(c, w0, actions);
    var w := Run(c, w0, actions);
    EarnedAdds(c, w.bucket.lastRefill - created, w.clock - w.bucket.lastRefill);
  }

  /** What was counted is told, or still pending. */
  ghost predicate CountsInv(w: World) {
    Sum(Told, w.threads) + w.bucket.suppressed == Sum(Counted, w.threads)
  }

  /** One step moves a count between the bucket and the thread, or counts a suppression. */
  lemma AtomicCounts(c: Config, b: Bucket, t: Thread)
    ensures var (b1, pc) := Atomic(c, b, t.now, t.pc);
            var t1 := Thread(t.now, pc);
            Told(t1) + b1.suppressed + Counted(t) == Told(t) + b.suppressed + Counted(t1)
  {
  }

  lemma NextCounts(c: Config, w: World, a: Action)
    requires CountsInv(w)
    ensures CountsInv(Next(c, w, a))
  {
    match a
    case Tick(_) =>
    case Call(now) =>
      SumSnoc(Told, w.threads, Thread(now, TryConsume(false)));
      SumSnoc(Counted, w.threads, Thread(now, TryConsume(false)));
    case Move(i) =>
      if i < |w.threads| {
        var t := w.threads[i];
        var t1 := Next(c, w, a).threads[i];
        AtomicCounts(c, w.bucket, t);
        SumUpdate(Told, w.threads, i, t1);
        SumUpdate(Counted, w.threads, i, t1);
      }
  }

  lemma {:induction false} RunCounts(c: Config, w: World, actions: seq<Action>)
    requires CountsInv(w)
    ensures CountsInv(Run(c, w, actions))
    decreases |actions|
  {
    if actions != [] {
      NextCounts(c, w, actions[0]);
      RunCounts(c, Next(c, w, actions[0]), actions[1..]);
    }
  }

  /** In every interleaving, the counts that checks report or are about to report, and the count that is still
      pending, add up to the number of checks that were suppressed. */
  lemma SuppressionsAccounted(c: Config, created: nat, actions: seq<Action>)
    ensures var w := Run(c, NewWorld(c, created), actions);
            Sum(Told, w.threads) + w.bucket.suppressed == Sum(Counted, w.threads)
  {
    RunCounts(c, NewWorld(c, created), actions);
  }

  // ---------------------------------------------------------------- the check by itself

  /** A successful consumption reports and resets the suppressions. */
  function Consumed(b: Bucket): (Bucket, Result)
    requires b.tokens > 0
  {
    if b.suppressed > 0 then
      (Bucket(b.tokens - 1, b.lastRefill, 0, 0, 0),
       AllowedAfterSuppression(b.suppressed, b.firstSuppression, b.lastSuppression))
    else (b.(tokens := b.tokens - 1), Allowed)
  }

  /** Whether a refill at time `now` divides by a zero interval. */
  predicate RefillPanics(c: Config, b: Bucket, now: nat) {
    now > b.lastRefill && c.interval == 0
  }

  function Refill(c: Config, b: Bucket, now: nat): Bucket
    requires !RefillPanics(c, b, now)
  {
    if now <= b.lastRefill || (now - b.lastRefill) / c.interval == 0 then b
    else b.(lastRefill := now, tokens := Refilled(c, b.tokens, (now - b.lastRefill) / c.interval))
  }

  function Rejected(b: Bucket, now: nat): Bucket {
    b.(suppressed := b.suppressed + 1, lastSuppression := now,
       firstSuppression := if b.suppressed == 0 then now else b.firstSuppression)
  }

  /** An undisturbed check; no result means that it panicked. */
  function Check(c: Config, b: Bucket, now: nat): (Bucket, Option<Result>) {
    if b.tokens > 0 then (Consumed(b).0, Some(Consumed(b).1))
    else if RefillPanics(c, b, now) then (b, None)
    else
      var b1 := Refill(c, b, now);
      if b1.tokens > 0 then (Consumed(b1).0, Some(Consumed(b1).1))
      else (Rejected(b1, now), Some(Suppressed))
  }

  function Rank(pc: Pc): nat {
    match pc
    case TryConsume(again) => if again then 4 else 8
    case LoadRefill => 7
    case CompareExchange(_, _) => 6
    case AddTokens(_) => 5
    case SwapCount => 3
    case SwapFirst(_) => 2
    case SwapLast(_, _) => 1
    case Record => 3
    case StoreFirst => 2
    case StoreLast => 1
    case Done(_) => 0
    case Panicked => 0
  }

  /** Runs the steps of one thread to the end, undisturbed. */
  function Alone(c: Config, b: Bucket, now: nat, pc: Pc): (Bucket, Pc)
    decreases Rank(pc)
  {
    if pc.Done? || pc.Panicked? then (b, pc)
    else
      var (b1, pc1) := Atomic(c, b, now, pc);
      Alone(c, b1, now, pc1)
  }

  lemma AloneConsumes(c: Config, b: Bucket, now: nat, again: bool)
    requires b.tokens > 0
    ensures Alone(c, b, now, TryConsume(again)) == (Consumed(b).0, Done(Consumed(b).1))
  {
    var b1 := b.(tokens := b.tokens - 1);
    var b2 := b1.(suppressed := 0);
    if b.suppressed > 0 {
      var b3 := b2.(firstSuppression := 0);
      assert Alone(c, b3, now, SwapLast(b.suppressed, b.firstSuppression)) == (Consumed(b).0, Done(Consumed(b).1));
      assert Alone(c, b2, now, SwapFirst(b.suppressed)) == (Consumed(b).0, Done(Consumed(b).1));
    }
    assert Alone(c, b1, now, SwapCount) == (Consumed(b).0, Done(Consumed(b).1));
  }

  lemma AloneRejects(c: Config, b: Bucket, now: nat)
    requires b.tokens == 0
    ensures Alone(c, b, now, TryConsume(true)) == (Rejected(b, now), Done(Suppressed))
  {
    var b1 := b.(suppressed := b.suppressed + 1);
    if b.suppressed == 0 {
      assert Alone(c, b1, now, StoreFirst) == (Rejected(b, now), Done(Suppressed));
    } else {
      assert Alone(c, b1, now, StoreLast) == (Rejected(b, now), Done(Suppressed));
    }
    assert Alone(c, b, now, Record) == (Rejected(b, now), Done(Suppressed));
  }

  lemma AloneRefills(c: Config, b: Bucket, now: nat)
    requires b.tokens == 0 && !RefillPanics(c, b, now)
    ensures Alone(c, b, now, TryConsume(false)) == Alone(c, Refill(c, b, now), now, TryConsume(true))
  {
    if now > b.lastRefill && (now - b.lastRefill) / c.interval != 0 {
      var add := (now - b.lastRefill) / c.interval;
      var b1 := b.(lastRefill := now);
      assert Alone(c, b1, now, AddTokens(add)) == Alone(c, Refill(c, b, now), now, TryConsume(true));
      assert Alone(c, b, now, CompareExchange(b.lastRefill, add)) == Alone(c, b1, now, AddTokens(add));
      assert Alone(c, b, now, LoadRefill) == Alone(c, b, now, CompareExchange(b.lastRefill, add));
    } else {
      assert Alone(c, b, now, LoadRefill) == Alone(c, b, now, TryConsume(true));
    }
  }

  /** The steps of one thread, taken without interruption, amount to the sequential check. */
  lemma AloneIsCheck(c: Config, b: Bucket, now: nat)
    ensures var (b1, pc) := Alone(c, b, now, TryConsume(false));
            && b1 == Check(c, b, now).0
            && pc == match Check(c, b, now).1 case Some(r) => Done(r) case None => Panicked
  {
    if b.tokens > 0 {
      AloneConsumes(c, b, now, false);
    } else if !RefillPanics(c, b, now) {
      var b1 := Refill(c, b, now);
      AloneRefills(c, b, now);
      if b1.tokens > 0 {
        AloneConsumes(c, b1, now, true);
      } else {
        AloneRejects(c, b1, now);
      }
    } else {
      assert Alone(c, b, now, LoadRefill) == (b, Panicked);
    }
  }

  class TokenBucket {
    var availableTokens: nat
    var lastRefillMs: nat
    var suppressedCount: nat
    var firstSuppressionMs: nat
    var lastSuppressionMs: nat
    const maxTokens: nat
    const tokenRefillIntervalMs: nat

    ghost function Abstract(): Bucket
      reads this
    {
      Bucket(availableTokens, lastRefillMs, suppressedCount, firstSuppressionMs, lastSuppressionMs)
    }

    ghost function TheConfig(): Config {
      Config(maxTokens, tokenRefillIntervalMs)
    }

    constructor (maxTokens: nat, windowMs: nat, now: nat)
      ensures TheConfig() == MakeConfig(maxTokens, windowMs)
      ensures Abstract() == NewBucket(TheConfig(), now)
    {
      this.maxTokens := maxTokens;
      this.tokenRefillIntervalMs := if maxTokens == 0 then 1 else DivCeil(windowMs, maxTokens);
      availableTokens, lastRefillMs := maxTokens, now;
      suppressedCount, firstSuppressionMs, lastSuppressionMs := 0, 0, 0;
    }

    method TryConsumeToken() returns (r: Option<Result>)
      modifies this
      ensures r.Some? <==> old(availableTokens) > 0
      ensures r.Some? ==> (Abstract(), r.value) == Consumed(old(Abstract()))
      ensures r.None? ==> Abstract() == old(Abstract())
    {
      if availableTokens > 0 {
        availableTokens := availableTokens - 1;
        var suppressed := suppressedCount;
        suppressedCount := 0;
        if suppressed > 0 {
          var first, last := firstSuppressionMs, lastSuppressionMs;
          firstSuppressionMs, lastSuppressionMs := 0, 0;
          r := Some(AllowedAfterSuppression(suppressed, first, last));
        } else {
          r := Some(Allowed);
        }
      } else {
        r := None;
      }
    }

    /** Returns false where the division by the interval panics. */
    method TryRefillTokens(now: nat) returns (ok: bool)
      modifies this
      ensures ok == !RefillPanics(TheConfig(), old(Abstract()), now)
      ensures Abstract() == if ok then Refill(TheConfig(), old(Abstract()), now) else old(Abstract())
    {
      var last := lastRefillMs;
      if now <= last {
        return true;
      }
      if tokenRefillIntervalMs == 0 {
        return false;
      }
      var tokensToAdd := (now - last) / tokenRefillIntervalMs;
      if tokensToAdd != 0 {
        lastRefillMs := now;
        var sum := availableTokens + tokensToAdd % U32_LIMIT;
        var saturated := if sum < U32_LIMIT then sum else U32_LIMIT - 1;
        availableTokens := if saturated <= maxTokens then saturated else maxTokens;
      }
      ok := true;
    }

    method CheckToken(now: nat) returns (r: Option<Result>)
      modifies this
      ensures (Abstract(), r) == Check(TheConfig(), old(Abstract()), now)
    {
      r := TryConsumeToken();
      if r.Some? {
        return;
      }
      var ok := TryRefillTokens(now);
      if !ok {
        return None;
      }
      r := TryConsumeToken();
      if r.Some? {
        return;
      }
      var count := suppressedCount;
      suppressedCount := suppressedCount + 1;
      if count == 0 {
        firstSuppressionMs := now;
      }
      lastSuppressionMs := now;
      r := Some(Suppressed);
    }
  }
}
