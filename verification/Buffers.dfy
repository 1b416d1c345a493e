/** Input buffers and how they are split.

A leaf buffer holds records and a byte count and splits exactly: `Take` below is
the split that the record streams of the engine implement.  A vector of leaf buffers
is itself an input buffer; it splits by asking its elements in turn and draining the
elements it believes to be used up.  This module shows what that drain loses, for one
call and for every sequence of calls.
*/
module Buffers {
  import opened Arithmetic
  import opened Options
  import opened Sequences

  /** A leaf buffer: its records, in order, and the bytes attributed to them. */
  datatype Buffer<+R> = Buffer(records: seq<R>, bytes: nat)

  // ---------------------------------------------------------------- leaf buffers

  lemma FractionBound(num: nat, denom: nat, mul: nat)
    requires num <= denom && 0 < denom
    ensures num * mul <= denom * mul
    ensures num * mul / denom <= mul
    ensures denom * mul / denom == mul
  {
    MulMonotone(mul, num, denom);
    DivMonotone(num * mul, denom * mul, denom);
    DivExact(mul, denom);
  }

  /** The share `num/denom` of `mul`, rounded down. */
  function Fraction(num: nat, denom: nat, mul: nat): (share: nat)
    requires num <= denom
    ensures share <= mul
    ensures 0 < denom && num == denom ==> share == mul
    ensures num == 0 ==> share == 0
  {
    if denom != 0 then
      FractionBound(num, denom, mul);
      num * mul / denom
    else 0
  }

  /** A proper part of some bytes leaves some. */
  lemma FractionStrict(num: nat, denom: nat, mul: nat)
    requires num < denom && 0 < mul
    ensures Fraction(num, denom, mul) < mul
  {
    var q := num * mul / denom;
    DivModSum(num * mul, denom);
    MulStrict(mul, num, denom);
    if mul <= q {
      MulMonotone(denom, mul, q);
    }
  }

  /** Removes the first `n` records; the result is what was removed and what stays. */
  function Take<R>(b: Buffer<R>, n: nat): (r: (Option<Buffer<R>>, Buffer<R>))
    ensures r.0.None? <==> b.records == []
    ensures r.0.None? ==> r.1 == b
    ensures r.0.Some? ==> r.0.value.records == b.records[..Min(n, |b.records|)]
    ensures r.0.Some? ==> r.1.records == b.records[Min(n, |b.records|)..]
    ensures r.0.Some? ==> r.0.value.bytes + r.1.bytes == b.bytes
    ensures r.0.Some? && |b.records| <= n ==> r.1 == Buffer([], 0)
  {
    if b.records != [] then
      var m := Min(n, |b.records|);
      var headBytes := Fraction(m, |b.records|, b.bytes);
      (Some(Buffer(b.records[..m], headBytes)), Buffer(b.records[m..], b.bytes - headBytes))
    else
      (None, b)
  }

  /** The bytes that go with the records taken are their exact share, rounded down. */
  lemma TakeShare<R>(b: Buffer<R>, n: nat)
    requires b.records != []
    ensures var head, len := Take(b, n).0.value, |b.records|;
            head.bytes * len <= Min(n, len) * b.bytes < (head.bytes + 1) * len
  {
    var len := |b.records|;
    var part := Min(n, len) * b.bytes;
    var share := Take(b, n).0.value.bytes;
    assert share == part / len;
    DivModSum(part, len);
    assert len * share == share * len && (share + 1) * len == share * len + len;
  }

  // ---------------------------------------------------------------- vectors of buffers

  /** The records of a vector of buffers, in order. */
  function Flatten<R>(bs: seq<Buffer<R>>): seq<R> {
    if bs == [] then [] else bs[0].records + Flatten(bs[1..])
  }

  /** The number of records. */
  function RecordCount<R>(bs: seq<Buffer<R>>): nat {
    if bs == [] then 0 else |bs[0].records| + RecordCount(bs[1..])
  }

  function Bytes<R>(bs: seq<Buffer<R>>): nat {
    if bs == [] then 0 else bs[0].bytes + Bytes(bs[1..])
  }

  /** What the sweep over the elements takes, and the elements as the sweep leaves them. */
  datatype Swept<+R> = Swept(taken: seq<Buffer<R>>, left: seq<Buffer<R>>)

  /** The sweep: every element is asked for what is still missing, until nothing is. */
  function Sweep<R>(bs: seq<Buffer<R>>, remaining: nat): (s: Swept<R>)
    ensures |s.left| == |bs| && |s.taken| <= |bs|
  {
    if bs == [] || remaining == 0 then Swept([], bs)
    else
      var (head, rest) := Take(bs[0], remaining);
      if head.Some? then
        var s := Sweep(bs[1..], remaining - |head.value.records|);
        Swept([head.value] + s.taken, [rest] + s.left)
      else
        var s := Sweep(bs[1..], remaining);
        Swept(s.taken, [rest] + s.left)
  }

  /** One call: the buffers returned, and the elements that survive the drain. */
  function VecTake<R>(bs: seq<Buffer<R>>, n: nat): (seq<Buffer<R>>, seq<Buffer<R>>) {
    var s := Sweep(bs, n);
    (s.taken, s.left[|s.taken|..])
  }

  /** A sweep under way: what was taken, the elements it is done with as it leaves them, and those still to come. */
  datatype Progress<+R> = Progress(result: seq<Buffer<R>>, done: seq<Buffer<R>>, todo: seq<Buffer<R>>, remaining: nat)

  /** What the sweep amounts to when it goes on to the end. */
  function Finish<R>(at: Progress<R>): Swept<R> {
    var s := Sweep(at.todo, at.remaining);
    Swept(at.result + s.taken, at.done + s.left)
  }

  /** The sweep after one more element. */
  function StepSweep<R>(at: Progress<R>): Progress<R>
    requires at.todo != [] && at.remaining != 0
  {
    var (head, rest) := Take(at.todo[0], at.remaining);
    if head.Some? then
      Progress(at.result + [head.value], at.done + [rest], at.todo[1..], at.remaining - |head.value.records|)
    else Progress(at.result, at.done + [rest], at.todo[1..], at.remaining)
  }

  lemma FinishStart<R>(bs: seq<Buffer<R>>, n: nat)
    ensures Finish(Progress([], [], bs, n)) == Sweep(bs, n)
    ensures bs == [] + bs
  {
    var s := Sweep(bs, n);
    assert [] + s.taken == s.taken && [] + s.left == s.left;
  }

  lemma FinishStep<R>(at: Progress<R>)
    requires at.todo != [] && at.remaining != 0
    ensures Finish(StepSweep(at)) == Finish(at)
  {
    var (head, rest) := Take(at.todo[0], at.remaining);
    var next := StepSweep(at);
    var t := Sweep(next.todo, next.remaining);
    Assoc(at.done, [rest], t.left);
    if head.Some? {
      Assoc(at.result, [head.value], t.taken);
    }
  }

  lemma FinishEnd<R>(at: Progress<R>)
    requires at.todo == [] || at.remaining == 0
    ensures Finish(at) == Swept(at.result, at.done + at.todo)
  {
    assert at.result + [] == at.result;
  }

  /** A vector of buffers used as one input buffer. */
  class VecBuffer<R> {
    var items: seq<Buffer<R>>

    constructor (items: seq<Buffer<R>>)
      ensures this.items == items
    {
      this.items := items;
    }

    method TakeSome(n: nat) returns (head: Option<seq<Buffer<R>>>)
      modifies this
      ensures head == if VecTake(old(items), n).0 == [] then None else Some(VecTake(old(items), n).0)
      ensures items == VecTake(old(items), n).1
    {
      var result: seq<Buffer<R>> := [];
      var remaining: nat := n;
      // Number of elements to drain.
      var index: nat := 0;
      var i: nat := 0;
      ghost var at := Progress([], [], items, n);
      FinishStart(items, n);
      while i < |items| && remaining != 0
        invariant items == at.done + at.todo && i == |at.done|
        invariant at.result == result && at.remaining == remaining
        invariant Finish(at) == Sweep(old(items), n)
        invariant index == |result|
      {
        var (buf, rest) := Take(items[i], remaining);
        FinishStep(at);
        UpdateBehind(at.done, at.todo, rest);
        at := StepSweep(at);
        items := items[i := rest];
        if buf.Some? {
          var len := |buf.value.records|;
          if remaining >= len {
            index := index + 1;
          }
          remaining := SaturatingSub(remaining, len);
          result := result + [buf.value];
        }
        i := i + 1;
      }
      FinishEnd(at);
      items := items[index..];
      head := if result == [] then None else Some(result);
    }
  }

  // ------------------------------------------------ what one call returns and loses

  lemma FlattenCons<R>(b: Buffer<R>, bs: seq<Buffer<R>>)
    ensures Flatten([b] + bs) == b.records + Flatten(bs)
    ensures Bytes([b] + bs) == b.bytes + Bytes(bs)
    ensures RecordCount([b] + bs) == |b.records| + RecordCount(bs)
  {
    assert ([b] + bs)[1..] == bs;
  }

  lemma {:induction false} FlattenConcat<R>(a: seq<Buffer<R>>, b: seq<Buffer<R>>)
    ensures Flatten(a + b) == Flatten(a) + Flatten(b)
    ensures Bytes(a + b) == Bytes(a) + Bytes(b)
    ensures RecordCount(a + b) == RecordCount(a) + RecordCount(b)
  {
    if a == [] {
      assert a + b == b;
    } else {
      FlattenConcat(a[1..], b);
      assert a + b == [a[0]] + (a[1..] + b);
      FlattenCons(a[0], a[1..] + b);
      Assoc(a[0].records, Flatten(a[1..]), Flatten(b));
    }
  }

  lemma {:induction false} FlattenCut<R>(bs: seq<Buffer<R>>, k: nat)
    requires k <= |bs|
    ensures Flatten(bs) == Flatten(bs[..k]) + Flatten(bs[k..])
    ensures Bytes(bs) == Bytes(bs[..k]) + Bytes(bs[k..])
    ensures RecordCount(bs) == RecordCount(bs[..k]) + RecordCount(bs[k..])
  {
    var a, b := bs[..k], bs[k..];
    assert a + b == bs;
    FlattenConcat(a, b);
  }

  lemma {:induction false} FlattenEmpty<R>(bs: seq<Buffer<R>>)
    requires forall j | 0 <= j < |bs| :: bs[j].records == []
    ensures Flatten(bs) == []
  {
    if bs != [] {
      FlattenEmpty(bs[1..]);
    }
  }

  lemma FlattenOne<R>(b: Buffer<R>)
    ensures Flatten([b]) == b.records && Bytes([b]) == b.bytes && RecordCount([b]) == |b.records|
  {
    assert [b] == [b] + [];
    FlattenCons(b, []);
  }

  lemma {:induction false} RecordCountIsLength<R>(bs: seq<Buffer<R>>)
    ensures RecordCount(bs) == |Flatten(bs)|
  {
    if bs != [] {
      RecordCountIsLength(bs[1..]);
    }
  }

  /** The sweep goes beyond its first element. */
  lemma SweepBeyond<R>(bs: seq<Buffer<R>>, n: nat)
    requires bs != [] && |bs[0].records| < n
    ensures var t := Sweep(bs[1..], n - |bs[0].records|);
            && Sweep(bs, n).left == [Take(bs[0], n).1] + t.left
            && Sweep(bs, n).taken == (if bs[0].records != [] then [Take(bs[0], n).0.value] + t.taken else t.taken)
  {
  }

  /** The sweep ends in its first element. */
  lemma SweepWithin<R>(bs: seq<Buffer<R>>, n: nat)
    requires bs != [] && 0 < n <= |bs[0].records|
    ensures Sweep(bs, n) == Swept([Take(bs[0], n).0.value], [Take(bs[0], n).1] + bs[1..])
  {
    assert Sweep(bs[1..], 0) == Swept([], bs[1..]);
  }

  /** Cutting a concatenation at `n` cuts its two parts. */
  lemma CutConcat<T>(a: seq<T>, b: seq<T>, n: nat)
    ensures var m := Min(n, |a|);
            && (a + b)[..Min(n, |a + b|)] == a[..m] + b[..Min(n - m, |b|)]
            && (a + b)[Min(n, |a + b|)..] == a[m..] + b[Min(n - m, |b|)..]
  {
  }

  lemma {:induction false} SweepTakes<R>(bs: seq<Buffer<R>>, n: nat)
    ensures Flatten(Sweep(bs, n).taken) == Flatten(bs)[..Min(n, |Flatten(bs)|)]
  {
    if bs != [] && n != 0 {
      var len := |bs[0].records|;
      CutConcat(bs[0].records, Flatten(bs[1..]), n);
      if n <= len {
        SweepWithin(bs, n);
        FlattenOne(Take(bs[0], n).0.value);
      } else {
        SweepBeyond(bs, n);
        SweepTakes(bs[1..], n - len);
        if len != 0 {
          FlattenCons(Take(bs[0], n).0.value, Sweep(bs[1..], n - len).taken);
        }
      }
    }
  }

  lemma {:induction false} SweepLeaves<R>(bs: seq<Buffer<R>>, n: nat)
    ensures Flatten(Sweep(bs, n).left) == Flatten(bs)[Min(n, |Flatten(bs)|)..]
  {
    if bs != [] && n != 0 {
      var len := |bs[0].records|;
      CutConcat(bs[0].records, Flatten(bs[1..]), n);
      if n <= len {
        SweepWithin(bs, n);
        FlattenCons(Take(bs[0], n).1, bs[1..]);
      } else {
        SweepBeyond(bs, n);
        SweepLeaves(bs[1..], n - len);
        FlattenCons(Take(bs[0], n).1, Sweep(bs[1..], n - len).left);
      }
    }
  }

  lemma {:induction false} SweepBytes<R>(bs: seq<Buffer<R>>, n: nat)
    ensures Bytes(Sweep(bs, n).taken) + Bytes(Sweep(bs, n).left) == Bytes(bs)
  {
    if bs != [] && n != 0 {
      var len := |bs[0].records|;
      if n <= len {
        SweepWithin(bs, n);
        FlattenOne(Take(bs[0], n).0.value);
        FlattenCons(Take(bs[0], n).1, bs[1..]);
      } else {
        var t := Sweep(bs[1..], n - len);
        SweepBeyond(bs, n);
        SweepBytes(bs[1..], n - len);
        FlattenCons(Take(bs[0], n).1, t.left);
        if len != 0 {
          FlattenCons(Take(bs[0], n).0.value, t.taken);
        }
      }
    }
  }

  /** The sweep splits the records and the bytes of the vector exactly; nothing is lost yet. */
  lemma SweepSplits<R>(bs: seq<Buffer<R>>, n: nat)
    ensures Flatten(Sweep(bs, n).taken) == Flatten(bs)[..Min(n, |Flatten(bs)|)]
    ensures Flatten(Sweep(bs, n).left) == Flatten(bs)[Min(n, |Flatten(bs)|)..]
    ensures Bytes(Sweep(bs, n).taken) + Bytes(Sweep(bs, n).left) == Bytes(bs)
  {
    SweepTakes(bs, n);
    SweepLeaves(bs, n);
    SweepBytes(bs, n);
  }

  /** Limit `n` falls strictly inside one of the nonempty elements the vector starts with. */
  predicate Cuts<R>(bs: seq<Buffer<R>>, n: nat) {
    && bs != [] && bs[0].records != [] && n != 0
    && (n < |bs[0].records| || Cuts(bs[1..], n - |bs[0].records|))
  }

  /** The drain removes elements already used up, except perhaps the last one it removes. */
  lemma {:induction false} DrainedAreEmpty<R>(bs: seq<Buffer<R>>, n: nat, j: nat)
    requires j + 1 < |Sweep(bs, n).taken|
    ensures Sweep(bs, n).left[j].records == []
  {
    var (head, rest) := Take(bs[0], n);
    var m := Min(n, |bs[0].records|);
    if j > 0 && n != m {
      DrainedAreEmpty(bs[1..], n - m, j - 1);
    }
  }

  lemma DrainedPrefix<R>(bs: seq<Buffer<R>>, n: nat, m: nat)
    requires m < |Sweep(bs, n).taken|
    ensures Flatten(Sweep(bs, n).left[..m]) == []
  {
    var left := Sweep(bs, n).left;
    forall j | 0 <= j < m
      ensures left[j].records == []
    {
      DrainedAreEmpty(bs, n, j);
    }
    FlattenEmpty(left[..m]);
  }

  lemma PrefixCons<R>(bs: seq<Buffer<R>>, p: nat)
    requires 0 < p <= |bs|
    ensures Flatten(bs[..p]) == bs[0].records + Flatten(bs[1..][..p - 1])
    ensures Bytes(bs[..p]) == bs[0].bytes + Bytes(bs[1..][..p - 1])
    ensures RecordCount(bs[..p]) == |bs[0].records| + RecordCount(bs[1..][..p - 1])
  {
    assert bs[..p] == [bs[0]] + bs[1..][..p - 1];
    FlattenCons(bs[0], bs[1..][..p - 1]);
  }

  /** What the drain throws away is empty exactly when the limit does not cut a leading element. */
  lemma {:induction false} DrainedRecords<R>(bs: seq<Buffer<R>>, n: nat)
    ensures var s := Sweep(bs, n);
            Flatten(s.left[..|s.taken|]) == [] <==> !Cuts(bs, n)
  {
    var s := Sweep(bs, n);
    if bs != [] && n != 0 {
      var (head, rest) := Take(bs[0], n);
      var m := Min(n, |bs[0].records|);
      var t := Sweep(bs[1..], n - m);
      if head.None? {
        if s.taken != [] {
          DrainedPrefix(bs[1..], n, |s.taken| - 1);
          PrefixCons(s.left, |s.taken|);
          assert s.left[1..] == t.left;
        }
      } else {
        assert s.left[..|s.taken|] == [rest] + t.left[..|t.taken|];
        FlattenCons(rest, t.left[..|t.taken|]);
        if |bs[0].records| <= n {
          DrainedRecords(bs[1..], n - m);
        }
      }
    }
  }

  /** A sequence cut in three survives without its middle part exactly when that part is empty. */
  lemma ThreeParts<T>(s: seq<T>, m: nat, b: seq<T>, c: seq<T>)
    requires m <= |s| && s[m..] == b + c
    ensures s[..m] + c == s <==> b == []
    ensures b != [] ==> |s[..m]| + |c| < |s|
  {
    if b == [] {
      assert b + c == c;
      assert s[..m] + s[m..] == s;
    } else {
      assert |s[..m] + c| < |s|;
    }
  }

  /** A call returns the first records in order, and conserves the rest exactly when it does not cut. */
  lemma VecTakeConserves<R>(bs: seq<Buffer<R>>, n: nat)
    ensures var (taken, rest) := VecTake(bs, n);
            && Flatten(taken) == Flatten(bs)[..Min(n, |Flatten(bs)|)]
            && (Flatten(taken) + Flatten(rest) == Flatten(bs) <==> !Cuts(bs, n))
            && (Cuts(bs, n) ==> |Flatten(taken)| + |Flatten(rest)| < |Flatten(bs)|)
  {
    var s := Sweep(bs, n);
    SweepSplits(bs, n);
    DrainedRecords(bs, n);
    FlattenCut(s.left, |s.taken|);
    ThreeParts(Flatten(bs), Min(n, |Flatten(bs)|), Flatten(s.left[..|s.taken|]), Flatten(s.left[|s.taken|..]));
  }

  /** How a call treats a nonempty first element: it is drained, whether used up or not. */
  lemma VecTakeCons<R>(bs: seq<Buffer<R>>, n: nat)
    requires bs != [] && bs[0].records != [] && n != 0
    ensures n < |bs[0].records| ==>
              VecTake(bs, n) == ([Take(bs[0], n).0.value], bs[1..])
    ensures |bs[0].records| <= n ==>
              var (taken, rest) := VecTake(bs[1..], n - |bs[0].records|);
              VecTake(bs, n) == ([bs[0]] + taken, rest)
  {
    var len := |bs[0].records|;
    if n < len {
      var (head, rest) := Take(bs[0], n);
      assert Sweep(bs[1..], n - |head.value.records|) == Swept([], bs[1..]);
      assert Sweep(bs, n) == Swept([head.value], [rest] + bs[1..]);
    } else {
      assert bs[0].records[..len] == bs[0].records;
      var t := Sweep(bs[1..], n - len);
      assert ([Take(bs[0], n).1] + t.left)[1 + |t.taken|..] == t.left[|t.taken|..];
    }
  }

  /**
   * A call that cuts element `p` takes only `m` of its records: the others are lost, and later
   * elements are intact.
   */
  lemma {:induction false} VecTakeLoses<R>(bs: seq<Buffer<R>>, n: nat) returns (p: nat, m: nat)
    requires Cuts(bs, n)
    ensures p < |bs| && 0 < m < |bs[p].records|
    ensures |Flatten(bs[..p])| + m == n
    ensures Flatten(VecTake(bs, n).0) == Flatten(bs[..p]) + bs[p].records[..m]
    ensures VecTake(bs, n).1 == bs[p + 1..]
    ensures Bytes(VecTake(bs, n).0) == Bytes(bs[..p]) + Fraction(m, |bs[p].records|, bs[p].bytes)
  {
    VecTakeCons(bs, n);
    var len := |bs[0].records|;
    if n < len {
      p, m := 0, n;
      FlattenCons(Take(bs[0], n).0.value, []);
    } else {
      p, m := VecTakeLoses(bs[1..], n - len);
      PrefixCons(bs, p + 1);
      FlattenCons(bs[0], VecTake(bs[1..], n - len).0);
      Assoc(bs[0].records, Flatten(bs[1..][..p]), bs[1..][p].records[..m]);
      assert bs[1..][p + 1..] == bs[p + 2..];
      p := p + 1;
    }
  }

  /** No element carries bytes without records. */
  predicate WellSized<R>(bs: seq<Buffer<R>>) {
    forall j | 0 <= j < |bs| :: bs[j].records == [] ==> bs[j].bytes == 0
  }

  lemma {:induction false} SweepWellSized<R>(bs: seq<Buffer<R>>, n: nat)
    requires WellSized(bs)
    ensures WellSized(Sweep(bs, n).left)
  {
    if bs != [] && n != 0 {
      SweepWellSized(bs[1..], n - Min(n, |bs[0].records|));
    }
  }

  lemma {:induction false} NoRecordsNoBytes<R>(bs: seq<Buffer<R>>)
    requires WellSized(bs) && Flatten(bs) == []
    ensures Bytes(bs) == 0
  {
    if bs != [] {
      assert bs[0].records == [];
      NoRecordsNoBytes(bs[1..]);
    }
  }

  /** How many elements give records to a call, which is how many it drains. */
  function Reached<R>(bs: seq<Buffer<R>>, n: nat): (k: nat)
    ensures k <= |bs|
  {
    if bs == [] || n == 0 then 0
    else if n <= |bs[0].records| then 1
    else (if bs[0].records == [] then 0 else 1) + Reached(bs[1..], n - |bs[0].records|)
  }

  /** The sweep ends in its first element. */
  lemma SweepStops<R>(bs: seq<Buffer<R>>, n: nat, m: nat)
    requires 0 < m <= |bs| && 0 < n <= |bs[0].records|
    ensures RecordCount(Sweep(bs, n).left[..m]) == RecordCount(bs[..m]) - n
    ensures |Sweep(bs, n).taken| == 1
  {
    var s := Sweep(bs, n);
    SweepWithin(bs, n);
    PrefixCons(bs, m);
    PrefixCons(s.left, m);
    assert s.left[1..] == bs[1..];
  }

  /** The sweep uses up its first element. */
  lemma SweepGoesOn<R>(bs: seq<Buffer<R>>, n: nat, m: nat)
    requires 0 < m <= |bs| && |bs[0].records| < n
    ensures var len := |bs[0].records|;
            var s, t := Sweep(bs, n), Sweep(bs[1..], n - len);
            && RecordCount(s.left[..m]) == RecordCount(t.left[..m - 1])
            && RecordCount(bs[..m]) == len + RecordCount(bs[1..][..m - 1])
            && |s.taken| == |t.taken| + (if len == 0 then 0 else 1)
  {
    var s, t := Sweep(bs, n), Sweep(bs[1..], n - |bs[0].records|);
    SweepBeyond(bs, n);
    PrefixCons(bs, m);
    PrefixCons(s.left, m);
    assert s.left[1..] == t.left;
  }

  lemma {:induction false} ReachedIsTaken<R>(bs: seq<Buffer<R>>, n: nat)
    ensures Reached(bs, n) == |Sweep(bs, n).taken|
  {
    if bs != [] && n != 0 {
      if n <= |bs[0].records| {
        SweepStops(bs, n, 1);
      } else {
        SweepGoesOn(bs, n, 1);
        ReachedIsTaken(bs[1..], n - |bs[0].records|);
      }
    }
  }

  /** Element `j` ends up without bytes if it has none, or if all its records are taken. */
  predicate Emptied<R>(bs: seq<Buffer<R>>, n: nat, j: nat)
    requires j < |bs|
  {
    bs[j].bytes == 0 || (bs[j].records != [] && RecordCount(bs[..j + 1]) <= n)
  }

  /** A leaf is left without bytes if it had none, or if all its records are taken. */
  lemma RestBytes<R>(b: Buffer<R>, n: nat)
    ensures Take(b, n).1.bytes == 0 <==> b.bytes == 0 || (b.records != [] && |b.records| <= n)
  {
    if n < |b.records| && 0 < b.bytes {
      FractionStrict(n, |b.records|, b.bytes);
    }
  }

  lemma LeftFirst<R>(bs: seq<Buffer<R>>, n: nat)
    requires bs != [] && 0 < n
    ensures Sweep(bs, n).left[0].bytes == 0 <==> Emptied(bs, n, 0)
  {
    RestBytes(bs[0], n);
    assert bs[..1] == [bs[0]];
    FlattenOne(bs[0]);
  }

  lemma SomeRecords<R>(bs: seq<Buffer<R>>, j: nat)
    requires j < |bs|
    ensures bs[j].records != [] ==> 0 < RecordCount(bs[..j + 1])
  {
    FlattenCut(bs[..j + 1], j);
    assert bs[..j + 1][j..] == [bs[j]] + [];
    FlattenCons(bs[j], []);
  }

  lemma LeftWithin<R>(bs: seq<Buffer<R>>, n: nat, j: nat)
    requires 0 < j < |bs| && 0 < n <= |bs[0].records|
    ensures Sweep(bs, n).left[j] == bs[j]
    ensures Emptied(bs, n, j) <==> bs[j].bytes == 0
  {
    SweepWithin(bs, n);
    PrefixCons(bs, j + 1);
    SomeRecords(bs[1..], j - 1);
  }

  lemma LeftBeyond<R>(bs: seq<Buffer<R>>, n: nat, j: nat)
    requires 0 < j < |bs| && |bs[0].records| < n
    ensures Sweep(bs, n).left[j] == Sweep(bs[1..], n - |bs[0].records|).left[j - 1]
    ensures Emptied(bs, n, j) <==> Emptied(bs[1..], n - |bs[0].records|, j - 1)
  {
    SweepBeyond(bs, n);
    PrefixCons(bs, j + 1);
  }

  /** The sweep leaves an element without bytes exactly when it is emptied. */
  lemma {:induction false} LeftBytes<R>(bs: seq<Buffer<R>>, n: nat, j: nat)
    requires j < |bs|
    ensures Sweep(bs, n).left[j].bytes == 0 <==> Emptied(bs, n, j)
  {
    if n == 0 {
      SomeRecords(bs, j);
    } else if j == 0 {
      LeftFirst(bs, n);
    } else if n <= |bs[0].records| {
      LeftWithin(bs, n, j);
    } else {
      LeftBytes(bs[1..], n - |bs[0].records|, j - 1);
      LeftBeyond(bs, n, j);
    }
  }

  lemma {:induction false} NoBytes<R>(bs: seq<Buffer<R>>)
    ensures Bytes(bs) == 0 <==> forall j | 0 <= j < |bs| :: bs[j].bytes == 0
  {
    if bs != [] {
      NoBytes(bs[1..]);
      assert forall j | 0 < j < |bs| :: bs[j] == bs[1..][j - 1];
    }
  }

  /** The byte accounting rule of input buffers holds exactly when every element that is drained is emptied. */
  lemma VecTakeBytes<R>(bs: seq<Buffer<R>>, n: nat)
    ensures var (taken, rest) := VecTake(bs, n);
            && (Bytes(taken) + Bytes(rest) == Bytes(bs) <==> forall j | 0 <= j < Reached(bs, n) :: Emptied(bs, n, j))
            && Bytes(taken) + Bytes(rest) <= Bytes(bs)
  {
    var s := Sweep(bs, n);
    var drained := s.left[..|s.taken|];
    SweepBytes(bs, n);
    FlattenCut(s.left, |s.taken|);
    ReachedIsTaken(bs, n);
    NoBytes(drained);
    forall j | 0 <= j < |drained|
      ensures drained[j].bytes == 0 <==> Emptied(bs, n, j)
    {
      LeftBytes(bs, n, j);
    }
  }

  /** In particular the rule holds whenever the call does not cut, if no element has bytes without records. */
  lemma UncutKeepsBytes<R>(bs: seq<Buffer<R>>, n: nat)
    requires WellSized(bs) && !Cuts(bs, n)
    ensures Bytes(VecTake(bs, n).0) + Bytes(VecTake(bs, n).1) == Bytes(bs)
    ensures WellSized(VecTake(bs, n).1)
  {
    var s := Sweep(bs, n);
    SweepSplits(bs, n);
    DrainedRecords(bs, n);
    FlattenCut(s.left, |s.taken|);
    SweepWellSized(bs, n);
    NoRecordsNoBytes(s.left[..|s.taken|]);
  }

  /** Taking everything never cuts. */
  lemma {:induction false} TakeAllNeverCuts<R>(bs: seq<Buffer<R>>, n: nat)
    requires |Flatten(bs)| <= n
    ensures !Cuts(bs, n)
    ensures Flatten(VecTake(bs, n).0) == Flatten(bs) && Flatten(VecTake(bs, n).1) == []
  {
    if bs != [] && bs[0].records != [] && n != 0 {
      TakeAllNeverCuts(bs[1..], n - |bs[0].records|);
    }
    VecTakeConserves(bs, n);
  }

  /** The smallest loss, of a record and of a byte: one element of two records, of which one is asked for. */
  lemma TakeSomeCanLose()
    ensures var bs := [Buffer([7, 8], 2)];
            && Cuts(bs, 1) && !Emptied(bs, 1, 0)
            && VecTake(bs, 1) == ([Buffer([7], 1)], [])
            && Flatten(bs) == [7, 8]
            && Bytes(VecTake(bs, 1).0) + Bytes(VecTake(bs, 1).1) == 1 < Bytes(bs)
  {
    var bs := [Buffer([7, 8], 2)];
    VecTakeCons(bs, 1);
    assert bs == [bs[0]] + [];
    FlattenCons(bs[0], []);
    FlattenCons(Buffer([7], 1), []);
    assert bs[..1] == bs && [Buffer([7], 1)] == [Buffer([7], 1)] + [];
    assert bs[0].records[..1] == [7] && Fraction(1, 2, 2) == 1;
  }

  // ------------------------------------------------ every sequence of calls

  /** What a caller gets who takes `ns[0]`, `ns[1]`, ... records and finally all that is left. */
  ghost function TakeRun<R>(bs: seq<Buffer<R>>, ns: seq<nat>): seq<R>
    decreases |ns|
  {
    if ns == [] then Flatten(bs)
    else Flatten(VecTake(bs, ns[0]).0) + TakeRun(VecTake(bs, ns[0]).1, ns[1..])
  }

  /** Every prefix of the vector has at most as many records as elements. */
  ghost predicate Light<R>(bs: seq<Buffer<R>>) {
    forall p | 0 <= p <= |bs| :: RecordCount(bs[..p]) <= p
  }

  lemma {:induction false} CutIsHeavy<R>(bs: seq<Buffer<R>>, n: nat) returns (p: nat)
    requires Cuts(bs, n)
    ensures p <= |bs| && p < RecordCount(bs[..p])
  {
    if n < |bs[0].records| {
      PrefixCons(bs, 1);
      p := 1;
    } else {
      var q := CutIsHeavy(bs[1..], n - |bs[0].records|);
      PrefixCons(bs, q + 1);
      p := q + 1;
    }
  }

  /** The prefix is used up, or each buffer taken removes at least one of its records. */
  ghost predicate Removes<R>(bs: seq<Buffer<R>>, n: nat, m: nat)
    requires m <= |bs|
  {
    var left := RecordCount(Sweep(bs, n).left[..m]);
    left == 0 || left + |Sweep(bs, n).taken| <= RecordCount(bs[..m])
  }

  lemma RemovesBeyond<R>(bs: seq<Buffer<R>>, n: nat, m: nat)
    requires 0 < m <= |bs| && |bs[0].records| < n && Removes(bs[1..], n - |bs[0].records|, m - 1)
    ensures Removes(bs, n, m)
  {
    SweepGoesOn(bs, n, m);
  }

  lemma NothingLeft<R>(bs: seq<Buffer<R>>, n: nat, m: nat)
    requires m < |Sweep(bs, n).taken|
    ensures RecordCount(Sweep(bs, n).left[..m]) == 0
  {
    DrainedPrefix(bs, n, m);
    RecordCountIsLength(Sweep(bs, n).left[..m]);
  }

  lemma {:induction false} SweepRemoves<R>(bs: seq<Buffer<R>>, n: nat, m: nat)
    requires |Sweep(bs, n).taken| <= m <= |bs|
    ensures Removes(bs, n, m)
  {
    if m != 0 && n != 0 {
      if n <= |bs[0].records| {
        SweepStops(bs, n, m);
      } else {
        SweepGoesOn(bs, n, m);
        if |Sweep(bs[1..], n - |bs[0].records|).taken| < m {
          SweepRemoves(bs[1..], n - |bs[0].records|, m - 1);
        } else {
          NothingLeft(bs[1..], n - |bs[0].records|, m - 1);
        }
        RemovesBeyond(bs, n, m);
      }
    }
  }

  /** What a sweep leaves behind the drained elements starts with few records. */
  lemma LeftLight<R>(bs: seq<Buffer<R>>, n: nat, j: nat)
    requires Light(bs) && |Sweep(bs, n).taken| + j <= |bs|
    ensures RecordCount(VecTake(bs, n).1[..j]) <= j
  {
    var s := Sweep(bs, n);
    var k := |s.taken|;
    var m := k + j;
    SweepRemoves(bs, n, m);
    FlattenCut(s.left[..m], k);
    assert s.left[..m][k..] == s.left[k..][..j];
    assert RecordCount(bs[..m]) <= m;
  }

  /** A call on a light vector does not cut, and leaves a light vector. */
  lemma LightKept<R>(bs: seq<Buffer<R>>, n: nat)
    requires Light(bs)
    ensures !Cuts(bs, n)
    ensures Light(VecTake(bs, n).1)
  {
    if Cuts(bs, n) {
      var p := CutIsHeavy(bs, n);
    }
    var rest := VecTake(bs, n).1;
    forall j | 0 <= j <= |rest|
      ensures RecordCount(rest[..j]) <= j
    {
      LeftLight(bs, n, j);
    }
  }

  lemma {:induction false} LightIsLossless<R>(bs: seq<Buffer<R>>, ns: seq<nat>)
    requires Light(bs)
    ensures TakeRun(bs, ns) == Flatten(bs)
    decreases |ns|
  {
    if ns != [] {
      LightKept(bs, ns[0]);
      VecTakeConserves(bs, ns[0]);
      LightIsLossless(VecTake(bs, ns[0]).1, ns[1..]);
    }
  }

  /** Sweeping for one record takes one buffer, and one record from any prefix that has some. */
  lemma {:induction false} UnitSweep<R>(bs: seq<Buffer<R>>, p: nat)
    requires p <= |bs| && 0 < RecordCount(bs[..p])
    ensures |Sweep(bs, 1).taken| == 1
    ensures RecordCount(Sweep(bs, 1).left[..p]) == RecordCount(bs[..p]) - 1
  {
    if bs[0].records == [] {
      SweepGoesOn(bs, 1, p);
      UnitSweep(bs[1..], p - 1);
    } else {
      SweepStops(bs, 1, p);
    }
  }

  lemma HeavyKept<R>(bs: seq<Buffer<R>>)
    requires !Light(bs) && !Cuts(bs, 1)
    ensures !Light(VecTake(bs, 1).1)
    ensures |Flatten(VecTake(bs, 1).1)| < |Flatten(bs)|
  {
    var s := Sweep(bs, 1);
    var p :| 0 <= p <= |bs| && p < RecordCount(bs[..p]);
    UnitSweep(bs, p);
    DrainedRecords(bs, 1);
    RecordCountIsLength(s.left[..1]);
    FlattenCut(s.left[..p], 1);
    assert s.left[..p][..1] == s.left[..1];
    assert s.left[..p][1..] == s.left[1..][..p - 1];
    assert RecordCount(s.left[1..][..p - 1]) > p - 1;
    FlattenCut(bs, p);
    FlattenCut(s.left, 1);
    SweepSplits(bs, 1);
    RecordCountIsLength(bs[..p]);
  }

  /** Taking one record at a time from a vector that is not light loses a record sooner or later. */
  lemma {:induction false} HeavyLoses<R>(bs: seq<Buffer<R>>) returns (ns: seq<nat>)
    requires !Light(bs)
    ensures |TakeRun(bs, ns)| < |Flatten(bs)|
    decreases |Flatten(bs)|
  {
    var (taken, rest) := VecTake(bs, 1);
    VecTakeConserves(bs, 1);
    if Cuts(bs, 1) {
      ns := [1];
      assert ns[1..] == [];
    } else {
      HeavyKept(bs);
      var tail := HeavyLoses(rest);
      ns := [1] + tail;
      assert ns[1..] == tail;
    }
  }

  /** A vector survives every sequence of calls exactly when it is light. */
  lemma LosslessIffLight<R>(bs: seq<Buffer<R>>)
    ensures (forall ns :: TakeRun(bs, ns) == Flatten(bs)) <==> Light(bs)
  {
    if Light(bs) {
      forall ns
        ensures TakeRun(bs, ns) == Flatten(bs)
      {
        LightIsLossless(bs, ns);
      }
    } else {
      var ns := HeavyLoses(bs);
    }
  }

  // ------------------------------------------------ bytes over every sequence of calls

  /** The bytes of all that such a caller gets. */
  ghost function TakeRunBytes<R>(bs: seq<Buffer<R>>, ns: seq<nat>): nat
    decreases |ns|
  {
    if ns == [] then Bytes(bs)
    else Bytes(VecTake(bs, ns[0]).0) + TakeRunBytes(VecTake(bs, ns[0]).1, ns[1..])
  }

  /** Elements have bytes exactly when they have records. */
  predicate Weighed<R>(bs: seq<Buffer<R>>) {
    forall j | 0 <= j < |bs| :: bs[j].records == [] <==> bs[j].bytes == 0
  }

  lemma TakeWeighed<R>(b: Buffer<R>, n: nat)
    requires b.records == [] <==> b.bytes == 0
    ensures Take(b, n).1.records == [] <==> Take(b, n).1.bytes == 0
  {
    RestBytes(b, n);
  }

  lemma WeighedCons<R>(b: Buffer<R>, bs: seq<Buffer<R>>)
    requires (b.records == [] <==> b.bytes == 0) && Weighed(bs)
    ensures Weighed([b] + bs)
  {
  }

  lemma {:induction false} SweepWeighed<R>(bs: seq<Buffer<R>>, n: nat)
    requires Weighed(bs)
    ensures Weighed(Sweep(bs, n).left)
  {
    if bs != [] && n != 0 {
      var tail := bs[1..];
      TakeWeighed(bs[0], n);
      if n <= |bs[0].records| {
        SweepWithin(bs, n);
        WeighedCons(Take(bs[0], n).1, tail);
      } else {
        var missing := n - |bs[0].records|;
        SweepBeyond(bs, n);
        SweepWeighed(tail, missing);
        WeighedCons(Take(bs[0], n).1, Sweep(tail, missing).left);
      }
    }
  }

  lemma {:induction false} LightKeepsBytes<R>(bs: seq<Buffer<R>>, ns: seq<nat>)
    requires WellSized(bs) && Light(bs)
    ensures TakeRunBytes(bs, ns) == Bytes(bs)
    decreases |ns|
  {
    if ns != [] {
      LightKept(bs, ns[0]);
      UncutKeepsBytes(bs, ns[0]);
      LightKeepsBytes(VecTake(bs, ns[0]).1, ns[1..]);
    }
  }

  lemma CutLosesBytes<R>(bs: seq<Buffer<R>>, n: nat)
    requires Weighed(bs) && Cuts(bs, n)
    ensures Bytes(VecTake(bs, n).0) + Bytes(VecTake(bs, n).1) < Bytes(bs)
  {
    var p, m := VecTakeLoses(bs, n);
    FractionStrict(m, |bs[p].records|, bs[p].bytes);
    FlattenCut(bs, p);
    FlattenCons(bs[p], bs[p + 1..]);
    assert bs[p..] == [bs[p]] + bs[p + 1..];
  }

  lemma {:induction false} HeavyLosesBytes<R>(bs: seq<Buffer<R>>) returns (ns: seq<nat>)
    requires Weighed(bs) && !Light(bs)
    ensures TakeRunBytes(bs, ns) < Bytes(bs)
    decreases |Flatten(bs)|
  {
    var rest := VecTake(bs, 1).1;
    if Cuts(bs, 1) {
      CutLosesBytes(bs, 1);
      ns := [1];
      assert ns[1..] == [];
    } else {
      HeavyKept(bs);
      UncutKeepsBytes(bs, 1);
      SweepWeighed(bs, 1);
      var tail := HeavyLosesBytes(rest);
      ns := [1] + tail;
      assert ns[1..] == tail;
    }
  }

  /** A vector with bytes for its records keeps its bytes in every sequence of calls exactly when it is light. */
  lemma BytesIffLight<R>(bs: seq<Buffer<R>>)
    requires Weighed(bs)
    ensures (forall ns :: TakeRunBytes(bs, ns) == Bytes(bs)) <==> Light(bs)
  {
    if Light(bs) {
      forall ns
        ensures TakeRunBytes(bs, ns) == Bytes(bs)
      {
        LightKeepsBytes(bs, ns);
      }
    } else {
      var ns := HeavyLosesBytes(bs);
    }
  }
}
