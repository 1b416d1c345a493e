/** What a token bucket allows over a window of time, what it reports, and where its promises end. */
module RateLimits {
  import opened Arithmetic
  import opened Options
  import opened TokenBuckets

  /** A run of undisturbed checks at the given times. */
  function Checks(c: Config, b: Bucket, times: seq<nat>): (Bucket, seq<Option<Result>>)
    decreases |times|
  {
    if times == [] then (b, [])
    else
      var (b1, r) := Check(c, b, times[0]);
      var (last, results) := Checks(c, b1, times[1..]);
      (last, [r] + results)
  }

  function IsAllowed(r: Option<Result>): nat {
    if r.Some? && !r.value.Suppressed? then 1 else 0
  }

  function CountAllowed(results: seq<Option<Result>>): nat {
    if results == [] then 0 else IsAllowed(results[0]) + CountAllowed(results[1..])
  }

  function AllowedAt(c: Config, b: Bucket, times: seq<nat>): nat {
    CountAllowed(Checks(c, b, times).1)
  }

  lemma AllowedCons(c: Config, b: Bucket, times: seq<nat>)
    requires times != []
    ensures AllowedAt(c, b, times)
         == IsAllowed(Check(c, b, times[0]).1) + AllowedAt(c, Check(c, b, times[0]).0, times[1..])
  {
    var (b1, r) := Check(c, b, times[0]);
    var results := Checks(c, b1, times[1..]).1;
    assert ([r] + results)[1..] == results;
  }

  // ---------------------------------------------------------------- the rate over any window

  /** What the checks of the window from `from` to `to` can still be allowed. */
  function Potential(c: Config, b: Bucket, from: nat, to: nat): nat {
    b.tokens
    + if b.lastRefill < from then c.maxTokens + Earned(c, SaturatingSub(to, from))
      else Earned(c, SaturatingSub(to, b.lastRefill))
  }

  lemma RefilledBound(c: Config, tokens: nat, add: nat)
    ensures Refilled(c, tokens, add) <= c.maxTokens
    ensures Refilled(c, tokens, add) <= tokens + add
  {
    DivModSum(add, U32_LIMIT);
  }

  lemma RefillPotential(c: Config, b: Bucket, now: nat, from: nat, to: nat)
    requires b.tokens == 0 && from <= now <= to && !RefillPanics(c, b, now)
    ensures Potential(c, Refill(c, b, now), from, to) <= Potential(c, b, from, to)
    ensures Refill(c, b, now).tokens <= c.maxTokens
  {
    var b1 := Refill(c, b, now);
    if b1.lastRefill != b.lastRefill {
      var add := Earned(c, now - b.lastRefill);
      RefilledBound(c, 0, add);
      assert b1.tokens == Refilled(c, 0, add) && b1.lastRefill == now;
      if b.lastRefill < from {
        EarnedAdds(c, now - from, to - now);
      } else {
        EarnedAdds(c, now - b.lastRefill, to - now);
      }
    }
  }

  /** Every allowed check in the window is paid for. */
  lemma CheckPotential(c: Config, b: Bucket, now: nat, from: nat, to: nat)
    requires b.tokens <= c.maxTokens && from <= now <= to
    ensures var (b1, r) := Check(c, b, now);
            b1.tokens <= c.maxTokens && IsAllowed(r) + Potential(c, b1, from, to) <= Potential(c, b, from, to)
  {
    if b.tokens == 0 && !RefillPanics(c, b, now) {
      RefillPotential(c, b, now, from, to);
    }
  }

  lemma {:induction false} ChecksPotential(c: Config, b: Bucket, times: seq<nat>, from: nat, to: nat)
    requires b.tokens <= c.maxTokens && forall i | 0 <= i < |times| :: from <= times[i] <= to
    ensures AllowedAt(c, b, times) <= Potential(c, b, from, to)
    decreases |times|
  {
    if times != [] {
      CheckPotential(c, b, times[0], from, to);
      AllowedCons(c, b, times);
      ChecksPotential(c, Check(c, b, times[0]).0, times[1..], from, to);
    }
  }

  lemma {:induction false} ChecksWithin(c: Config, b: Bucket, times: seq<nat>)
    requires b.tokens <= c.maxTokens
    ensures Checks(c, b, times).0.tokens <= c.maxTokens
    decreases |times|
  {
    if times != [] {
      CheckPotential(c, b, times[0], times[0], times[0]);
      ChecksWithin(c, Check(c, b, times[0]).0, times[1..]);
    }
  }

  /** Whatever happened `before`, the checks allowed in a window number at most twice the capacity
      plus what the length of the window is worth. */
  lemma WindowBound(c: Config, created: nat, before: seq<nat>, during: seq<nat>, from: nat, to: nat)
    requires from <= to && forall i | 0 <= i < |during| :: from <= during[i] <= to
    ensures AllowedAt(c, Checks(c, NewBucket(c, created), before).0, during)
         <= 2 * c.maxTokens + Earned(c, to - from)
  {
    var b := Checks(c, NewBucket(c, created), before).0;
    ChecksWithin(c, NewBucket(c, created), before);
    ChecksPotential(c, b, during, from, to);
    if from <= b.lastRefill <= to {
      EarnedAdds(c, b.lastRefill - from, to - b.lastRefill);
    } else if to < b.lastRefill {
      assert Earned(c, 0) == 0;
    }
  }

  // ---------------------------------------------------------------- what one instant allows

  function Times(n: nat, t: nat): seq<nat> {
    seq(n, _ => t)
  }

  /** Adding tokens never saturates at 32 bits: up to the capacity, the truncated number is added in full. */
  lemma RefilledIsSum(c: Config, tokens: nat, add: nat)
    requires ValidConfig(c)
    ensures Refilled(c, tokens, add) == Min(tokens + add % U32_LIMIT, c.maxTokens)
  {
  }

  /** Less than an interval after the last refill, a bucket allows what it holds, and no refill takes place. */
  lemma {:induction false} TokensOnly(c: Config, b: Bucket, n: nat, t: nat)
    requires 0 < c.interval && t < b.lastRefill + c.interval
    ensures AllowedAt(c, b, Times(n, t)) == Min(n, b.tokens)
    ensures var b1 := Checks(c, b, Times(n, t)).0;
            b1.tokens == b.tokens - Min(n, b.tokens) && b1.lastRefill == b.lastRefill
    decreases n
  {
    if n > 0 {
      if b.lastRefill < t {
        DivSmall(t - b.lastRefill, c.interval);
      }
      assert Times(n, t)[1..] == Times(n - 1, t);
      AllowedCons(c, b, Times(n, t));
      TokensOnly(c, Check(c, b, t).0, n - 1, t);
    }
  }

  /** The refill of an empty bucket after `k` whole intervals. */
  lemma RefillAfter(c: Config, b: Bucket, t: nat, k: nat, r: nat)
    requires ValidConfig(c) && b.tokens == 0 && r < c.interval && 0 < k && t == b.lastRefill + c.interval * k + r
    ensures b.lastRefill < t && !RefillPanics(c, b, t)
    ensures Refill(c, b, t) == b.(tokens := Min(k % U32_LIMIT, c.maxTokens), lastRefill := t)
  {
    MulStrict(c.interval, 0, k);
    DivIs(t - b.lastRefill, c.interval, k, r);
    RefilledIsSum(c, 0, k);
  }

  /** Exactly what checks at one instant are allowed: the tokens in the bucket, and then, once, a token for each
      whole interval since the last refill, up to the capacity and with the truncation to 32 bits. The time since
      the last whole interval is forfeited. */
  lemma {:induction false} InstantAllows(c: Config, b: Bucket, n: nat, t: nat, k: nat, r: nat)
    requires ValidConfig(c) && r < c.interval && t == b.lastRefill + c.interval * k + r
    ensures var earned := Min(k % U32_LIMIT, c.maxTokens);
            AllowedAt(c, b, Times(n, t)) == Min(n, b.tokens + earned)
    ensures var earned, b1 := Min(k % U32_LIMIT, c.maxTokens), Checks(c, b, Times(n, t)).0;
            if n <= b.tokens || k == 0 then b1.tokens == b.tokens - Min(n, b.tokens) && b1.lastRefill == b.lastRefill
            else b1.tokens == b.tokens + earned - Min(n, b.tokens + earned) && b1.lastRefill == t
    decreases n
  {
    if k == 0 {
      TokensOnly(c, b, n, t);
    } else if n > 0 {
      var b1 := Check(c, b, t).0;
      assert Times(n, t)[1..] == Times(n - 1, t);
      AllowedCons(c, b, Times(n, t));
      if b.tokens > 0 {
        InstantAllows(c, b1, n - 1, t, k, r);
      } else {
        RefillAfter(c, b, t, k, r);
        TokensOnly(c, b1, n - 1, t);
      }
    }
  }

  // ---------------------------------------------------------------- bursts

  /** Refill is lazy: after an idle time, twice the capacity is allowed at one instant. */
  lemma BurstOfTwice(c: Config, created: nat)
    requires ValidConfig(c) && 0 < c.maxTokens && 0 < c.interval
    ensures var t := created + c.maxTokens * c.interval;
            AllowedAt(c, NewBucket(c, created), Times(2 * c.maxTokens, t)) == 2 * c.maxTokens
  {
    var m := c.maxTokens;
    assert c.interval * m == m * c.interval;
    InstantAllows(c, NewBucket(c, created), 2 * m, created + m * c.interval, m, 0);
  }

  ghost predicate Nondecreasing(times: seq<nat>) {
    forall i, j | 0 <= i < j < |times| :: times[i] <= times[j]
  }

  ghost predicate InWindow(times: seq<nat>, from: nat, to: nat) {
    forall i | 0 <= i < |times| :: from <= times[i] <= to
  }

  ghost predicate WithinMax(maxTokens: nat, windowMs: nat, created: nat, before: seq<nat>, during: seq<nat>,
                            from: nat)
  {
    var c := MakeConfig(maxTokens, windowMs);
    Nondecreasing([created] + before + during) && InWindow(during, from, from + windowMs) ==>
      AllowedAt(c, Checks(c, NewBucket(c, created), before).0, during) <= maxTokens
  }

  /** The limit as documented: in no window of the given length are more than `maxTokens` checks allowed. */
  ghost predicate AtMostMaxPerWindow(maxTokens: nat, windowMs: nat) {
    forall created, before, during, from :: WithinMax(maxTokens, windowMs, created, before, during, from)
  }

  /** A bucket without capacity or without interval only ever loses tokens. */
  lemma {:induction false} NeverRefilled(c: Config, b: Bucket, times: seq<nat>)
    requires b.tokens <= c.maxTokens && (c.maxTokens == 0 || c.interval == 0)
    ensures AllowedAt(c, b, times) + Checks(c, b, times).0.tokens <= b.tokens
    ensures Checks(c, b, times).0.tokens <= c.maxTokens
    decreases |times|
  {
    if times != [] {
      AllowedCons(c, b, times);
      NeverRefilled(c, Check(c, b, times[0]).0, times[1..]);
    }
  }

  /** The documented limit holds exactly for buckets that never refill: without tokens, or with an empty window. */
  lemma DocumentedLimitIff(maxTokens: nat, windowMs: nat)
    requires maxTokens < U32_LIMIT
    ensures AtMostMaxPerWindow(maxTokens, windowMs) <==> maxTokens == 0 || windowMs == 0
  {
    var c := MakeConfig(maxTokens, windowMs);
    IntervalPositive(maxTokens, windowMs);
    if maxTokens == 0 || windowMs == 0 {
      forall created, before, during, from
        ensures WithinMax(maxTokens, windowMs, created, before, during, from)
      {
        NeverRefilled(c, NewBucket(c, created), before);
        NeverRefilled(c, Checks(c, NewBucket(c, created), before).0, during);
      }
    } else {
      var t: nat := maxTokens * c.interval;
      BurstOfTwice(c, 0);
      var burst := Times(2 * maxTokens, t);
      assert InWindow(burst, t, t + windowMs);
      assert Checks(c, NewBucket(c, 0), []).0 == NewBucket(c, 0);
      assert !WithinMax(maxTokens, windowMs, 0, [], burst, t);
    }
  }

  // ---------------------------------------------------------------- what is reported

  /** The bucket's counters describe the suppressions at times `since`, the ones after the last allowed check. */
  ghost predicate Describes(b: Bucket, since: seq<nat>) {
    && b.suppressed == |since|
    && (since != [] ==> b.firstSuppression == since[0] && b.lastSuppression == since[|since| - 1])
  }

  /** The suppressions after the last allowed check, once a check at `now` had result `r`. */
  function Since(since: seq<nat>, now: nat, r: Option<Result>): seq<nat> {
    if r.None? then since else if r.value.Suppressed? then since + [now] else []
  }

  /** An undisturbed check reports how many checks were suppressed since the last allowed one, and when first
      and last. */
  lemma CheckReports(c: Config, b: Bucket, since: seq<nat>, now: nat)
    requires Describes(b, since)
    ensures var (b1, r) := Check(c, b, now);
            && Describes(b1, Since(since, now, r))
            && (r == Some(Allowed) ==> since == [])
            && (r.Some? && r.value.AllowedAfterSuppression? ==>
                  since != [] && r.value == AllowedAfterSuppression(|since|, since[0], since[|since| - 1]))
  {
  }

  /** The results of a run, each told from the suppressions before it. */
  ghost predicate Truthful(since: seq<nat>, times: seq<nat>, results: seq<Option<Result>>)
    decreases |times|
  {
    && |times| == |results|
    && (times != [] ==>
          && (match results[0]
              case None => true
              case Some(Suppressed) => true
              case Some(Allowed) => since == []
              case Some(AllowedAfterSuppression(n, first, last)) =>
                since != [] && n == |since| && first == since[0] && last == since[|since| - 1])
          && Truthful(Since(since, times[0], results[0]), times[1..], results[1..]))
  }

  /** In sequential runs every report is true. */
  lemma {:induction false} ReportsTruthful(c: Config, b: Bucket, since: seq<nat>, times: seq<nat>)
    requires Describes(b, since)
    ensures Truthful(since, times, Checks(c, b, times).1)
    decreases |times|
  {
    if times != [] {
      CheckReports(c, b, since, times[0]);
      var (b1, r) := Check(c, b, times[0]);
      ReportsTruthful(c, b1, Since(since, times[0], r), times[1..]);
      assert Checks(c, b, times).1[1..] == Checks(c, b1, times[1..]).1;
    }
  }

  // ---------------------------------------------------------------- panics

  ghost predicate SomePanic(w: World) {
    exists i :: 0 <= i < |w.threads| && w.threads[i].pc.Panicked?
  }

  lemma {:induction false} NoPanic(c: Config, w: World, actions: seq<Action>)
    requires 0 < c.interval && !SomePanic(w)
    ensures !SomePanic(Run(c, w, actions))
    decreases |actions|
  {
    if actions != [] {
      var w1 := Next(c, w, actions[0]);
      forall i | 0 <= i < |w1.threads|
        ensures !w1.threads[i].pc.Panicked?
      {
        assert i < |w.threads| ==> !w.threads[i].pc.Panicked?;
      }
      NoPanic(c, w1, actions[1..]);
    }
  }

  lemma {:induction false} RunConcat(c: Config, w: World, a: seq<Action>, b: seq<Action>)
    ensures Run(c, w, a + b) == Run(c, Run(c, w, a), b)
    decreases |a|
  {
    if a == [] {
      assert a + b == b;
    } else {
      RunConcat(c, Next(c, w, a[0]), a[1..], b);
      assert (a + b)[1..] == a[1..] + b;
    }
  }

  lemma RunOne(c: Config, w: World, a: Action)
    ensures Run(c, w, [a]) == Next(c, w, a)
  {
    assert [a][1..] == [];
  }

  lemma RunTwo(c: Config, w: World, a: Action, b: Action)
    ensures Run(c, w, [a, b]) == Next(c, Next(c, w, a), b)
  {
    assert [a, b][1..] == [b];
    RunOne(c, Next(c, w, a), b);
  }

  /** Consumes `k` tokens right after creation, each in a check of its own. */
  lemma {:induction false} UseTokens(c: Config, created: nat, k: nat) returns (actions: seq<Action>)
    requires k <= c.maxTokens
    ensures var w := Run(c, NewWorld(c, created), actions);
            && w.bucket == Bucket(c.maxTokens - k, created, 0, 0, 0) && w.clock == created && |w.threads| == k
            && forall i | 0 <= i < k :: w.threads[i].pc == Done(Allowed)
  {
    if k == 0 {
      actions := [];
    } else {
      var before := UseTokens(c, created, k - 1);
      var w := Run(c, NewWorld(c, created), before);
      var w1 := Next(c, w, Call(created));
      var w2 := Next(c, w1, Move(k - 1));
      RunTwo(c, w, Call(created), Move(k - 1));
      RunConcat(c, NewWorld(c, created), before, [Call(created), Move(k - 1)]);
      RunOne(c, w2, Move(k - 1));
      actions := before + [Call(created), Move(k - 1)];
      RunConcat(c, NewWorld(c, created), actions, [Move(k - 1)]);
      actions := actions + [Move(k - 1)];
    }
  }

  /** Some interleaving divides by zero exactly when there are tokens and the window is below a millisecond. */
  lemma PanicIff(maxTokens: nat, windowMs: nat)
    ensures var c := MakeConfig(maxTokens, windowMs);
            (exists actions :: SomePanic(Run(c, NewWorld(c, 0), actions))) <==> 0 < maxTokens && windowMs == 0
  {
    var c := MakeConfig(maxTokens, windowMs);
    IntervalPositive(maxTokens, windowMs);
    if 0 < maxTokens && windowMs == 0 {
      var before := UseTokens(c, 0, maxTokens);
      var last := [Tick(1), Call(1), Move(maxTokens), Move(maxTokens)];
      RunConcat(c, NewWorld(c, 0), before, last);
      var w := Run(c, NewWorld(c, 0), before);
      var w1 := Next(c, w, Tick(1));
      var w2 := Next(c, w1, Call(1));
      var w3 := Next(c, w2, Move(maxTokens));
      var w4 := Next(c, w3, Move(maxTokens));
      assert last[1..] == [Call(1), Move(maxTokens), Move(maxTokens)];
      assert last[1..][1..] == [Move(maxTokens), Move(maxTokens)];
      assert last[1..][1..][1..] == [Move(maxTokens)] && [Move(maxTokens)][1..] == [];
      assert Run(c, w3, [Move(maxTokens)]) == w4;
      assert Run(c, w2, [Move(maxTokens), Move(maxTokens)]) == w4;
      assert w4.threads[maxTokens].pc.Panicked?;
      assert SomePanic(Run(c, NewWorld(c, 0), before + last));
    } else {
      forall actions
        ensures !SomePanic(Run(c, NewWorld(c, 0), actions))
      {
        NoPanic(c, NewWorld(c, 0), actions);
      }
    }
  }

  // ---------------------------------------------------------------- one thread among others

  function Moves(i: nat, k: nat): seq<Action> {
    seq(k, _ => Move(i))
  }

  /** A thread that moves while no other does finishes as it would alone. */
  lemma {:induction false} Undisturbed(c: Config, w: World, i: nat, k: nat)
    requires i < |w.threads| && Rank(w.threads[i].pc) <= k
    ensures var t, w1 := w.threads[i], Run(c, w, Moves(i, k));
            && w1.bucket == Alone(c, w.bucket, t.now, t.pc).0
            && w1.threads == w.threads[i := Thread(t.now, Alone(c, w.bucket, t.now, t.pc).1)]
            && w1.clock == w.clock
    decreases k
  {
    if k > 0 {
      assert Moves(i, k)[1..] == Moves(i, k - 1);
      Undisturbed(c, Next(c, w, Move(i)), i, k - 1);
    }
  }

  function MoveCount(actions: seq<Action>, i: nat): nat {
    if actions == [] then 0 else (if actions[0] == Move(i) then 1 else 0) + MoveCount(actions[1..], i)
  }

  /** Whatever the other threads do, every step of a check brings it nearer to its end: none takes more than eight. */
  lemma {:induction false} BoundedSteps(c: Config, w: World, actions: seq<Action>, i: nat)
    requires i < |w.threads|
    ensures i < |Run(c, w, actions).threads|
    ensures var t := Run(c, w, actions).threads[i];
            t.pc.Done? || t.pc.Panicked? || Rank(t.pc) + MoveCount(actions, i) <= Rank(w.threads[i].pc) <= 8
    decreases |actions|
  {
    if actions != [] {
      BoundedSteps(c, Next(c, w, actions[0]), actions[1..], i);
    }
  }

  /** A check that is to be suppressed, or was. */
  predicate TurnedDown(t: Thread) {
    t.pc.Record? || Suppressor(t)
  }

  /** In every interleaving, a check that is suppressed has found the bucket empty at its second try. */
  lemma {:induction false} SuppressedFoundEmpty(c: Config, w: World, actions: seq<Action>, i: nat) returns (k: nat)
    requires i < |w.threads| && !TurnedDown(w.threads[i])
    requires i < |Run(c, w, actions).threads| && TurnedDown(Run(c, w, actions).threads[i])
    ensures k < |actions| && actions[k] == Move(i) && i < |Run(c, w, actions[..k]).threads|
    ensures var u := Run(c, w, actions[..k]); u.threads[i].pc == TryConsume(true) && u.bucket.tokens == 0
    decreases |actions|
  {
    var next := Next(c, w, actions[0]);
    if TurnedDown(next.threads[i]) {
      k := 0;
    } else {
      var k1 := SuppressedFoundEmpty(c, next, actions[1..], i);
      k := k1 + 1;
      assert actions[..k][1..] == actions[1..][..k1];
    }
  }
}
