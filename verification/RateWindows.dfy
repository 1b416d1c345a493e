/** What interleaved checks are allowed over a window of time.  A check that is stalled on its way through a
refill can add its tokens later than the time that earned them, so the bound depends on how many are. */
module RateWindows {
  import opened Arithmetic
  import opened TokenBuckets
  import opened RateLimits

  predicate BeforeExchange(pc: Pc) {
    pc == TryConsume(false) || pc.LoadRefill? || pc.CompareExchange?
  }

  /** A check that was granted tokens before the window, or can still be, for a time before it. */
  predicate Stalled(t: Thread, from: nat) {
    t.pc.AddTokens? || (BeforeExchange(t.pc) && t.now < from)
  }

  function CountStalled(threads: seq<Thread>, from: nat): nat {
    if threads == [] then 0 else (if Stalled(threads[0], from) then 1 else 0) + CountStalled(threads[1..], from)
  }

  /** Tokens that a thread can still add which the window has not earned. */
  function Share(c: Config, from: nat, t: Thread): nat {
    if t.pc.AddTokens? then Min(t.pc.add, c.maxTokens)
    else if BeforeExchange(t.pc) && t.now < from then c.maxTokens
    else 0
  }

  function Shares(c: Config, from: nat, threads: seq<Thread>): nat {
    if threads == [] then 0 else Share(c, from, threads[0]) + Shares(c, from, threads[1..])
  }

  lemma {:induction false} SharesUpdate(c: Config, from: nat, threads: seq<Thread>, i: nat, t: Thread)
    requires i < |threads|
    ensures Shares(c, from, threads[i := t]) + Share(c, from, threads[i])
         == Shares(c, from, threads) + Share(c, from, t)
  {
    if i == 0 {
      assert threads[0 := t][1..] == threads[1..];
    } else {
      SharesUpdate(c, from, threads[1..], i - 1, t);
      assert threads[i := t][1..] == threads[1..][i - 1 := t];
    }
  }

  lemma {:induction false} SharesSnoc(c: Config, from: nat, threads: seq<Thread>, t: Thread)
    ensures Shares(c, from, threads + [t]) == Shares(c, from, threads) + Share(c, from, t)
  {
    if threads == [] {
      assert threads + [t] == [t] && [t][1..] == [];
    } else {
      SharesSnoc(c, from, threads[1..], t);
      assert (threads + [t])[1..] == threads[1..] + [t];
    }
  }

  lemma {:induction false} SharesBound(c: Config, from: nat, threads: seq<Thread>)
    ensures Shares(c, from, threads) <= c.maxTokens * CountStalled(threads, from)
  {
    if threads != [] {
      SharesBound(c, from, threads[1..]);
      var rest := CountStalled(threads[1..], from);
      assert c.maxTokens * (1 + rest) == c.maxTokens + c.maxTokens * rest;
    }
  }

  // ---------------------------------------------------------------- the bound

  /** What can still be consumed up to time `to`. */
  function Ahead(c: Config, w: World, from: nat, to: nat): nat {
    Potential(c, w.bucket, from, to) + Shares(c, from, w.threads)
  }

  /** An exchange grants what the time since the last refill is worth, or what the thread was expected to add. */
  lemma ExchangeAhead(c: Config, b: Bucket, t: Thread, from: nat, to: nat)
    requires t.pc.CompareExchange? && t.pc.last == b.lastRefill <= t.now <= to
    requires t.pc.add <= Earned(c, t.now - t.pc.last)
    ensures Potential(c, b.(lastRefill := t.now), from, to) + Share(c, from, Thread(t.now, AddTokens(t.pc.add)))
         <= Potential(c, b, from, to) + Share(c, from, t)
  {
    if from <= t.now {
      if b.lastRefill < from {
        EarnedAdds(c, t.now - from, to - t.now);
      } else {
        EarnedAdds(c, t.now - b.lastRefill, to - t.now);
      }
    }
  }

  /** One step pays for the token it takes. */
  lemma AtomicAhead(c: Config, b: Bucket, t: Thread, from: nat, to: nat)
    requires b.tokens <= c.maxTokens && t.now <= to
    requires t.pc.CompareExchange? ==> t.pc.last <= t.now && t.pc.add <= Earned(c, t.now - t.pc.last)
    ensures var (b1, pc) := Atomic(c, b, t.now, t.pc);
            var t1 := Thread(t.now, pc);
            Took(t1) + Potential(c, b1, from, to) + Share(c, from, t1)
            <= Took(t) + Potential(c, b, from, to) + Share(c, from, t)
  {
    if t.pc.AddTokens? {
      RefilledBound(c, b.tokens, t.pc.add);
    } else if t.pc.CompareExchange? && b.lastRefill == t.pc.last {
      ExchangeAhead(c, b, t, from, to);
    }
  }

  lemma MoveAhead(c: Config, w: World, i: nat, from: nat, to: nat)
    requires WorldInv(c, w) && w.clock <= to && i < |w.threads|
    ensures var w1 := Next(c, w, Move(i));
            Sum(Took, w1.threads) + Ahead(c, w1, from, to) <= Sum(Took, w.threads) + Ahead(c, w, from, to)
  {
    var t, t1 := w.threads[i], Next(c, w, Move(i)).threads[i];
    assert ThreadInv(c, w.clock, t);
    AtomicAhead(c, w.bucket, t, from, to);
    SumUpdate(Took, w.threads, i, t1);
    SharesUpdate(c, from, w.threads, i, t1);
  }

  /** Calls made in the window read the clock in the window. */
  ghost predicate InTime(actions: seq<Action>, from: nat) {
    forall i | 0 <= i < |actions| && actions[i].Call? :: from <= actions[i].now
  }

  lemma {:induction false} ClockGrows(c: Config, w: World, actions: seq<Action>)
    ensures w.clock <= Run(c, w, actions).clock
    decreases |actions|
  {
    if actions != [] {
      ClockGrows(c, Next(c, w, actions[0]), actions[1..]);
    }
  }

  lemma {:induction false} RunAhead(c: Config, w: World, actions: seq<Action>, from: nat, to: nat)
    requires WorldInv(c, w) && InTime(actions, from) && Run(c, w, actions).clock <= to
    ensures Sum(Took, Run(c, w, actions).threads) <= Sum(Took, w.threads) + Ahead(c, w, from, to)
    decreases |actions|
  {
    if actions != [] {
      var w1 := Next(c, w, actions[0]);
      ClockGrows(c, w, actions);
      NextInv(c, w, actions[0]);
      match actions[0] {
        case Tick(_) =>
        case Call(now) =>
          SumSnoc(Took, w.threads, Thread(now, TryConsume(false)));
          SharesSnoc(c, from, w.threads, Thread(now, TryConsume(false)));
        case Move(i) =>
          if i < |w.threads| {
            MoveAhead(c, w, i, from, to);
          }
      }
      RunAhead(c, w1, actions[1..], from, to);
    }
  }

  /** In every interleaving, what is consumed in a window is at most twice the capacity, plus what its length
      is worth, plus the capacity once for every check that was stalled when the window began. */
  lemma InterleavedWindowBound(c: Config, created: nat, before: seq<Action>, during: seq<Action>)
    requires InTime(during, Run(c, NewWorld(c, created), before).clock)
    ensures var w := Run(c, NewWorld(c, created), before);
            var w1 := Run(c, w, during);
            && w.clock <= w1.clock
            && Sum(Took, w1.threads) <= Sum(Took, w.threads) + 2 * c.maxTokens + Earned(c, w1.clock - w.clock)
                              + c.maxTokens * CountStalled(w.threads, w.clock)
  {
    var w0 := NewWorld(c, created);
    var w := Run(c, w0, before);
    var to := Run(c, w, during).clock;
    assert Earned(c, 0) == 0;
    RunInv(c, w0, before);
    ClockGrows(c, w, during);
    RunAhead(c, w, during, w.clock, to);
    SharesBound(c, w.clock, w.threads);
  }

  // ---------------------------------------------------------------- the bound is reached

  /** A schedule of calls and moves at one instant. */
  ghost predicate AtOnce(actions: seq<Action>, now: nat) {
    forall i | 0 <= i < |actions| :: !actions[i].Tick? && (actions[i].Call? ==> actions[i].now == now)
  }

  /** `w1` is `w` with some tokens consumed, by new checks. */
  ghost predicate Spent(w: World, w1: World, k: nat) {
    && k <= w.bucket.tokens && w1.bucket == w.bucket.(tokens := w.bucket.tokens - k)
    && w1.clock == w.clock && Sum(Took, w1.threads) == Sum(Took, w.threads) + k
    && |w.threads| <= |w1.threads| && w1.threads[..|w.threads|] == w.threads
    && forall i | |w.threads| <= i < |w1.threads| :: w1.threads[i].pc.SwapCount?
  }

  lemma {:induction false} Spend(c: Config, w: World, k: nat) returns (actions: seq<Action>)
    requires k <= w.bucket.tokens
    ensures AtOnce(actions, w.clock) && Spent(w, Run(c, w, actions), k)
  {
    actions := [];
    if k == 0 {
      assert w.threads[..|w.threads|] == w.threads;
    } else {
      var before := Spend(c, w, k - 1);
      var w1 := Run(c, w, before);
      var one := [Call(w.clock), Move(|w1.threads|)];
      RunTwo(c, w1, one[0], one[1]);
      RunConcat(c, w, before, one);
      actions := before + one;
      assert Run(c, w, actions).threads == w1.threads + [Thread(w.clock, SwapCount)];
      SumSnoc(Took, w1.threads, Thread(w.clock, SwapCount));
    }
  }

  /** The time that earns a full bucket. */
  function FullTime(c: Config): nat {
    c.interval * c.maxTokens
  }

  lemma FullTimeEarns(c: Config)
    requires 0 < c.interval
    ensures FullTime(c) / c.interval == c.maxTokens
    ensures 0 < c.maxTokens ==> 0 < FullTime(c)
  {
    DivExact(c.maxTokens, c.interval);
    if 0 < c.maxTokens {
      MulStrict(c.interval, 0, c.maxTokens);
    }
  }

  predicate Refillable(c: Config) {
    ValidConfig(c) && 0 < c.maxTokens && 0 < c.interval
  }

  /** With an empty bucket that earned a full refill, a new check exchanges the time and stalls. */
  lemma Exchange(c: Config, w: World) returns (actions: seq<Action>)
    requires Refillable(c) && w.bucket.tokens == 0 && w.bucket.lastRefill + FullTime(c) == w.clock
    ensures AtOnce(actions, w.clock)
    ensures Run(c, w, actions)
         == w.(bucket := w.bucket.(lastRefill := w.clock),
               threads := w.threads + [Thread(w.clock, AddTokens(c.maxTokens))])
  {
    FullTimeEarns(c);
    var k := |w.threads|;
    var w2 := Next(c, Next(c, w, Call(w.clock)), Move(k));
    assert w2 == w.(threads := w.threads + [Thread(w.clock, LoadRefill)]);
    var w4 := Next(c, Next(c, w2, Move(k)), Move(k));
    RunTwo(c, w, Call(w.clock), Move(k));
    RunTwo(c, w2, Move(k), Move(k));
    RunConcat(c, w, [Call(w.clock), Move(k)], [Move(k), Move(k)]);
    actions := [Call(w.clock), Move(k)] + [Move(k), Move(k)];
    assert Next(c, w2, Move(k))
        == w.(threads := w.threads + [Thread(w.clock, CompareExchange(w.bucket.lastRefill, c.maxTokens))]);
  }

  /** Whether the threads from `p` on, `s` of them, are about to add a full bucket. */
  ghost predicate Loaded(c: Config, w: World, p: nat, s: nat) {
    p + s <= |w.threads| && forall i | p <= i < p + s :: w.threads[i].pc == AddTokens(c.maxTokens)
  }

  /** Stalls `s` checks, each after the time of a full refill. */
  lemma {:induction false} StallMany(c: Config, w: World, s: nat) returns (actions: seq<Action>)
    requires Refillable(c) && w.bucket.tokens == 0 && w.bucket.lastRefill == w.clock
    ensures var w1 := Run(c, w, actions);
            && w1.bucket == w.bucket.(lastRefill := w1.clock) && Sum(Took, w1.threads) == Sum(Took, w.threads)
            && |w1.threads| == |w.threads| + s && w1.threads[..|w.threads|] == w.threads
            && Loaded(c, w1, |w.threads|, s)
  {
    actions := [];
    if s == 0 {
      assert w.threads[..|w.threads|] == w.threads;
    } else {
      actions := StallMany(c, w, s - 1);
      var w1 := Run(c, w, actions);
      var w2 := Next(c, w1, Tick(FullTime(c)));
      RunOne(c, w1, Tick(FullTime(c)));
      RunConcat(c, w, actions, [Tick(FullTime(c))]);
      actions := actions + [Tick(FullTime(c))];
      var more := Exchange(c, w2);
      SumSnoc(Took, w2.threads, Thread(w2.clock, AddTokens(c.maxTokens)));
      RunConcat(c, w, actions, more);
      actions := actions + more;
    }
  }

  /** A stalled check fills the empty bucket. */
  lemma Release(c: Config, w: World, i: nat)
    requires Refillable(c) && w.bucket.tokens == 0 && i < |w.threads| && w.threads[i].pc == AddTokens(c.maxTokens)
    ensures Run(c, w, [Move(i)])
         == w.(bucket := w.bucket.(tokens := c.maxTokens),
               threads := w.threads[i := Thread(w.threads[i].now, TryConsume(true))])
  {
    RunOne(c, w, Move(i));
    assert c.maxTokens % U32_LIMIT == c.maxTokens;
  }

  /** All stalled checks, one after the other, fill the bucket, which is emptied each time. */
  lemma {:induction false} SpendLoaded(c: Config, w: World, p: nat, s: nat) returns (actions: seq<Action>)
    requires Refillable(c) && w.bucket.tokens == 0 && Loaded(c, w, p, s)
    ensures AtOnce(actions, w.clock)
    ensures var w1 := Run(c, w, actions);
            && w1.bucket == w.bucket && w1.clock == w.clock
            && Sum(Took, w1.threads) == Sum(Took, w.threads) + c.maxTokens * s
    decreases s
  {
    actions := [];
    if s != 0 {
      Release(c, w, p);
      SumUpdate(Took, w.threads, p, Thread(w.threads[p].now, TryConsume(true)));
      var w1 := Run(c, w, [Move(p)]);
      var spend := Spend(c, w1, c.maxTokens);
      RunConcat(c, w, [Move(p)], spend);
      actions := [Move(p)] + spend;
      var w2 := Run(c, w, actions);
      forall i | p < i < p + s
        ensures w2.threads[i].pc == AddTokens(c.maxTokens)
      {
        assert w2.threads[i] == w1.threads[i];
      }
      var more := SpendLoaded(c, w2, p + 1, s - 1);
      RunConcat(c, w, actions, more);
      actions := actions + more;
      assert c.maxTokens * s == c.maxTokens + c.maxTokens * (s - 1);
    }
  }

  lemma {:induction false} CountConcat(a: seq<Thread>, b: seq<Thread>, from: nat)
    ensures CountStalled(a + b, from) == CountStalled(a, from) + CountStalled(b, from)
  {
    if a == [] {
      assert a + b == b;
    } else {
      CountConcat(a[1..], b, from);
      assert (a + b)[1..] == a[1..] + b;
    }
  }

  lemma {:induction false} CountUniform(threads: seq<Thread>, from: nat, stalled: bool)
    requires forall i | 0 <= i < |threads| :: Stalled(threads[i], from) == stalled
    ensures CountStalled(threads, from) == if stalled then |threads| else 0
  {
    if threads != [] {
      CountUniform(threads[1..], from, stalled);
    }
  }

  /** A full bucket, a full refill earned, and exactly `s` checks stalled with a full bucket each. */
  ghost predicate Charged(c: Config, w: World, p: nat, s: nat) {
    && w.bucket.tokens == c.maxTokens && w.bucket.lastRefill + FullTime(c) == w.clock
    && Loaded(c, w, p, s) && CountStalled(w.threads, w.clock) == s
  }

  /** The threads of such a state: done with the counters, loaded, and one that filled the bucket. */
  ghost predicate Arranged(c: Config, threads: seq<Thread>, p: nat, s: nat) {
    && |threads| == p + s + 1
    && (forall i | 0 <= i < p :: threads[i].pc.SwapCount?)
    && (forall i | p <= i < p + s :: threads[i].pc == AddTokens(c.maxTokens))
    && threads[p + s].pc == TryConsume(true)
  }

  lemma CountSplit(threads: seq<Thread>, k: nat, from: nat)
    requires k <= |threads|
    ensures CountStalled(threads, from) == CountStalled(threads[..k], from) + CountStalled(threads[k..], from)
  {
    assert threads == threads[..k] + threads[k..];
    CountConcat(threads[..k], threads[k..], from);
  }

  lemma ArrangedCount(c: Config, threads: seq<Thread>, p: nat, s: nat, from: nat)
    requires Arranged(c, threads, p, s)
    ensures CountStalled(threads, from) == s
  {
    var front := threads[..p + s];
    CountSplit(threads, p + s, from);
    CountSplit(front, p, from);
    assert forall i | 0 <= i < s :: front[p..][i] == threads[p + i];
    CountUniform(front[..p], from, false);
    CountUniform(front[p..], from, true);
    CountUniform(threads[p + s..], from, false);
  }

  /** Empties the bucket and stalls `s + 1` checks. */
  lemma Load(c: Config, created: nat, s: nat) returns (actions: seq<Action>, p: nat)
    requires Refillable(c)
    ensures var w := Run(c, NewWorld(c, created), actions);
            && w.bucket.tokens == 0 && w.bucket.lastRefill == w.clock
            && |w.threads| == p + s + 1 && Loaded(c, w, p, s + 1)
            && forall i | 0 <= i < p :: w.threads[i].pc.SwapCount?
  {
    var w0 := NewWorld(c, created);
    actions := Spend(c, w0, c.maxTokens);
    var w1 := Run(c, w0, actions);
    p := |w1.threads|;
    var stall := StallMany(c, w1, s + 1);
    var w2 := Run(c, w1, stall);
    RunConcat(c, w0, actions, stall);
    actions := actions + stall;
    forall i | 0 <= i < p
      ensures w2.threads[i].pc.SwapCount?
    {
      assert w2.threads[i] == w2.threads[..p][i];
    }
  }

  lemma Charge(c: Config, created: nat, s: nat) returns (before: seq<Action>, p: nat)
    requires Refillable(c)
    ensures Charged(c, Run(c, NewWorld(c, created), before), p, s)
  {
    var w0 := NewWorld(c, created);
    before, p := Load(c, created, s);
    var w1 := Run(c, w0, before);
    Release(c, w1, p + s);
    var w2 := Run(c, w1, [Move(p + s)]);
    RunConcat(c, w0, before, [Move(p + s)]);
    before := before + [Move(p + s)];
    RunOne(c, w2, Tick(FullTime(c)));
    RunConcat(c, w0, before, [Tick(FullTime(c))]);
    before := before + [Tick(FullTime(c))];
    assert Arranged(c, w2.threads, p, s);
    ArrangedCount(c, w2.threads, p, s, w2.clock + FullTime(c));
  }

  /** From such a state, at one instant, the bucket is emptied once for its tokens, once for every stalled
      check and once for the refill it has earned. */
  lemma Burst(c: Config, w: World, p: nat, s: nat) returns (during: seq<Action>)
    requires Refillable(c) && Charged(c, w, p, s)
    ensures AtOnce(during, w.clock)
    ensures var w1 := Run(c, w, during);
            w1.clock == w.clock && Sum(Took, w1.threads) == Sum(Took, w.threads) + 2 * c.maxTokens + c.maxTokens * s
  {
    during := Spend(c, w, c.maxTokens);
    var w1 := Run(c, w, during);
    forall i | p <= i < p + s
      ensures w1.threads[i].pc == AddTokens(c.maxTokens)
    {
      assert w1.threads[i] == w.threads[i];
    }
    var more := SpendLoaded(c, w1, p, s);
    var w2 := Run(c, w1, more);
    RunConcat(c, w, during, more);
    during := during + more;
    var refill := Exchange(c, w2);
    SumSnoc(Took, w2.threads, Thread(w2.clock, AddTokens(c.maxTokens)));
    var w3 := Run(c, w2, refill);
    RunConcat(c, w, during, refill);
    during := during + refill;
    Release(c, w3, |w2.threads|);
    SumUpdate(Took, w3.threads, |w2.threads|, Thread(w2.clock, TryConsume(true)));
    var w4 := Run(c, w3, [Move(|w2.threads|)]);
    RunConcat(c, w, during, [Move(|w2.threads|)]);
    during := during + [Move(|w2.threads|)];
    var last := Spend(c, w4, c.maxTokens);
    RunConcat(c, w, during, last);
    during := during + last;
  }

  /** For every number of stalled checks the bound is reached, in a window of no length. */
  lemma InterleavedBoundReached(c: Config, created: nat, s: nat) returns (before: seq<Action>, during: seq<Action>)
    requires Refillable(c)
    ensures var w := Run(c, NewWorld(c, created), before);
            var w1 := Run(c, w, during);
            && InTime(during, w.clock) && w1.clock == w.clock && CountStalled(w.threads, w.clock) == s
            && Sum(Took, w1.threads) == Sum(Took, w.threads) + 2 * c.maxTokens + c.maxTokens * s
  {
    var p;
    before, p := Charge(c, created, s);
    during := Burst(c, Run(c, NewWorld(c, created), before), p, s);
  }
}
