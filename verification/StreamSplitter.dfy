/** Breaking a byte stream into chunks of complete records.

A splitter looks for record boundaries in the data it is shown; a stream splitter keeps
the bytes that are not returned yet in one buffer that it compacts in place.  The class
is proved to refine a view of the stream as a plain sequence with two offsets, and what
the splitter promises is proved about every sequence of calls on that view.
*/
module StreamSplitters {
  import opened Arithmetic
  import opened Options
  import opened Sequences

  type Byte = x: int | 0 <= x < 256

  /** A splitter: its cleared state, and how it reacts to data. */
  datatype Splitter<!S> = Splitter(cleared: S, input: (S, seq<Byte>) -> (S, Option<nat>))

  function Split<S>(sp: Splitter<S>, st: S, data: seq<Byte>): (S, Option<nat>) {
    sp.input(st, data)
  }

  /** Splits are nonempty and lie within the data shown. */
  ghost predicate Legal<S(!new)>(sp: Splitter<S>) {
    forall st, data :: Split(sp, st, data).1.Some? ==> 0 < Split(sp, st, data).1.value <= |data|
  }

  // ---------------------------------------------------------------- the view

  /** The stream since the last seek: bytes before `pos` were returned, bytes before `fed` were accepted by the
      splitter. */
  datatype View<+S> = View(state: S, stream: seq<Byte>, pos: nat, fed: nat)

  predicate Ordered<S>(v: View<S>) {
    v.pos <= v.fed <= |v.stream|
  }

  function Appended<S>(v: View<S>, data: seq<Byte>): View<S> {
    v.(stream := v.stream + data)
  }

  /** The next chunk, if there is one; at the end of the input the rest is a chunk too. */
  function Next<S(!new)>(sp: Splitter<S>, v: View<S>, eoi: bool): (r: (View<S>, Option<seq<Byte>>))
    requires Legal(sp) && Ordered(v)
    ensures Ordered(r.0) && r.0.stream == v.stream
    ensures r.1.Some? ==> v.pos < r.0.pos && r.1.value == v.stream[v.pos..r.0.pos]
    ensures r.1.None? ==> r.0.pos == v.pos && r.0.fed == |v.stream|
    ensures r.1.None? && eoi ==> r.0.pos == |v.stream|
  {
    var (st, split) := Split(sp, v.state, v.stream[v.fed..]);
    match split
    case Some(n) =>
      (View(st, v.stream, v.fed + n, v.fed + n), Some(v.stream[v.pos..v.fed + n]))
    case None =>
      var end := |v.stream|;
      if eoi && v.pos < end then (View(st, v.stream, end, end), Some(v.stream[v.pos..]))
      else (View(st, v.stream, v.pos, end), None)
  }

  // ---------------------------------------------------------------- the object

  /** Copies `buffer[lo..hi]` to the start of the buffer, in place. */
  function CopyToStart(buffer: seq<Byte>, lo: nat, hi: nat): (r: seq<Byte>)
    requires lo <= hi <= |buffer|
    ensures |r| == |buffer|
    ensures r[..hi - lo] == buffer[lo..hi]
  {
    buffer[lo..hi] + buffer[hi - lo..]
  }

  function Resize(buffer: seq<Byte>, len: nat): (r: seq<Byte>)
    ensures |r| == len
    ensures r[..Min(len, |buffer|)] == buffer[..Min(len, |buffer|)]
  {
    if len <= |buffer| then buffer[..len] else buffer + seq(len - |buffer|, _ => 0)
  }

  /** Data that mirrors the end of the stream can be cut anywhere. */
  lemma SliceEnd(buffer: seq<Byte>, lo: nat, mid: nat, hi: nat, stream: seq<Byte>, from: nat, at: nat)
    requires lo <= mid <= hi <= |buffer| && from <= at <= |stream| && at - from == mid - lo
    requires buffer[lo..hi] == stream[from..]
    ensures buffer[lo..mid] == stream[from..at] && buffer[mid..hi] == stream[at..]
  {
    var data := buffer[lo..hi];
    assert buffer[lo..mid] == data[..mid - lo] && buffer[mid..hi] == data[mid - lo..];
    assert stream[from..at] == stream[from..][..at - from] && stream[at..] == stream[from..][at - from..];
  }

  lemma NextFound<S(!new)>(sp: Splitter<S>, v: View<S>, eoi: bool, st: S, n: nat)
    requires Legal(sp) && Ordered(v) && Split(sp, v.state, v.stream[v.fed..]) == (st, Some(n))
    ensures 0 < n && v.fed + n <= |v.stream|
    ensures Next(sp, v, eoi) == (View(st, v.stream, v.fed + n, v.fed + n), Some(v.stream[v.pos..v.fed + n]))
  {
  }

  lemma NextNotFound<S(!new)>(sp: Splitter<S>, v: View<S>, eoi: bool, st: S)
    requires Legal(sp) && Ordered(v) && Split(sp, v.state, v.stream[v.fed..]) == (st, None)
    ensures var end := |v.stream|;
            if eoi && v.pos < end then Next(sp, v, eoi) == (View(st, v.stream, end, end), Some(v.stream[v.pos..end]))
            else Next(sp, v, eoi) == (View(st, v.stream, v.pos, end), None)
  {
    assert v.stream[v.pos..] == v.stream[v.pos..|v.stream|];
  }

  class StreamSplitter<S(!new)> {
    const splitter: Splitter<S>
    var state: S
    var buffer: seq<Byte>
    /** Stream position of the start of the buffer. */
    var start: nat
    /** The part of the buffer that holds data not returned yet. */
    var fragmentStart: nat
    var fragmentEnd: nat
    /** How much of the buffer the splitter accepted. */
    var fed: nat

    /** What the fields stand for, and where in its stream the buffer starts. */
    ghost var view: View<S>
    ghost var base: nat

    ghost predicate Valid()
      reads this
    {
      && Legal(splitter)
      && fragmentStart <= fed <= fragmentEnd <= |buffer|
      && base <= start
      && view.state == state && view.pos == base + fragmentStart && view.fed == base + fed
      && |view.stream| == base + fragmentEnd
      && buffer[fragmentStart..fragmentEnd] == view.stream[view.pos..]
    }

    /** Where the last seek went. */
    ghost function Origin(): nat
      requires Valid()
      reads this
    {
      start - base
    }

    constructor (splitter: Splitter<S>)
      requires Legal(splitter)
      ensures Valid() && this.splitter == splitter
      ensures view == View(splitter.cleared, [], 0, 0) && Origin() == 0
    {
      this.splitter, this.state := splitter, splitter.cleared;
      buffer, start, fragmentStart, fragmentEnd, fed := [], 0, 0, 0, 0;
      base, view := 0, View(splitter.cleared, [], 0, 0);
    }

    method NextChunk(eoi: bool) returns (chunk: Option<seq<Byte>>)
      requires Valid()
      modifies this
      ensures Valid() && Origin() == old(Origin())
      ensures view == Next(splitter, old(view), eoi).0
      ensures chunk == Next(splitter, old(view), eoi).1
    {
      ghost var v := view;
      SliceEnd(buffer, fragmentStart, fed, fragmentEnd, v.stream, v.pos, v.fed);
      var (st, split) := Split(splitter, state, buffer[fed..fragmentEnd]);
      state := st;
      view := v.(state := st);
      match split {
        case Some(n) =>
          NextFound(splitter, v, eoi, st, n);
          var bytes := ReturnTo(fed + n, v.fed + n);
          chunk := Some(bytes);
        case None =>
          NextNotFound(splitter, v, eoi, st);
          chunk := ReturnRest(eoi);
      }
    }

    /** All data is accepted; at the end of the input, what is left of it is returned. */
    method ReturnRest(eoi: bool) returns (chunk: Option<seq<Byte>>)
      requires Valid()
      modifies `fed, `fragmentStart, `view
      ensures Valid()
      ensures var v, end := old(view), |old(view).stream|;
              if eoi && v.pos < end then view == v.(pos := end, fed := end) && chunk == Some(v.stream[v.pos..end])
              else view == v.(fed := end) && chunk == None
    {
      fed := fragmentEnd;
      view := view.(fed := |view.stream|);
      chunk := None;
      if eoi && fragmentStart < fragmentEnd {
        var bytes := ReturnTo(fragmentEnd, |view.stream|);
        chunk := Some(bytes);
      }
    }

    /** Returns the data up to `end`, which is position `at` of the stream, and starts the next fragment there. */
    method ReturnTo(end: nat, ghost at: nat) returns (chunk: seq<Byte>)
      requires Valid() && fed <= end <= fragmentEnd && at == base + end
      modifies `fed, `fragmentStart, `view
      ensures Valid() && view == old(view).(pos := at, fed := at)
      ensures chunk == old(view).stream[old(view).pos..at]
    {
      SliceEnd(buffer, fragmentStart, end, fragmentEnd, view.stream, view.pos, at);
      chunk := buffer[fragmentStart..end];
      fed := end;
      fragmentStart := end;
      view := view.(pos := at, fed := at);
    }

    method Append(data: seq<Byte>)
      requires Valid()
      modifies this
      ensures Valid() && Origin() == old(Origin())
      ensures view == Appended(old(view), data)
    {
      var length := fragmentEnd - fragmentStart;
      ghost var fragment := buffer[fragmentStart..fragmentEnd];
      buffer := CopyToStart(buffer, fragmentStart, fragmentEnd);
      buffer := Resize(buffer, length);
      assert buffer == fragment;
      buffer := buffer + data;
      fed := fed - fragmentStart;
      start := start + fragmentStart;
      base := base + fragmentStart;
      fragmentStart, fragmentEnd := 0, |buffer|;
      view := Appended(view, data);
    }

    /** Moves the data to the beginning of the buffer and makes sure there is some space after it. */
    method MakeRoom(bufferSize: nat, capacity: nat)
      requires Valid() && |buffer| <= capacity
      modifies this
      ensures Valid() && Origin() == old(Origin()) && view == old(view)
      ensures fragmentStart == 0
      // A buffer that is full of data grows to twice its capacity, and at least to the given size.
      ensures var length := old(fragmentEnd - fragmentStart);
              && fragmentEnd == length
              && |buffer| == if length < |old(buffer)| then |old(buffer)| else Max(bufferSize, 2 * capacity)
      ensures 0 < bufferSize || 0 < capacity ==> fragmentEnd < |buffer|
    {
      if fragmentStart != 0 {
        buffer := CopyToStart(buffer, fragmentStart, fragmentEnd);
        fed := fed - fragmentStart;
        start := start + fragmentStart;
        base := base + fragmentStart;
        fragmentStart, fragmentEnd := 0, fragmentEnd - fragmentStart;
      }
      if fragmentEnd == |buffer| {
        ghost var fragment := buffer;
        buffer := Resize(buffer, Max(bufferSize, capacity * 2));
        assert buffer[..fragmentEnd] == fragment;
      }
    }

    /** Reads from a file that has `available` bytes ready, or fails; `capacity` is the capacity of the buffer. */
    method Read(available: Option<seq<Byte>>, bufferSize: nat, limit: nat, capacity: nat) returns (n: Option<nat>)
      requires Valid() && |buffer| <= capacity
      modifies this
      ensures Valid() && Origin() == old(Origin())
      ensures n.None? <==> available.None?
      ensures n.None? ==> view == old(view)
      ensures n.Some? ==> n.value <= |available.value| && n.value <= limit
      ensures n.Some? ==> view == Appended(old(view), available.value[..n.value])
      // All data that is there is read, unless the limit or the end of the buffer is reached.
      ensures n.Some? ==> n.value == |available.value| || n.value == limit || fragmentEnd == |buffer|
      // Some of it is read, provided there is room to read it into.
      ensures n.Some? && available.value != [] && 0 < limit && (0 < bufferSize || 0 < capacity) ==> 0 < n.value
    {
      MakeRoom(bufferSize, capacity);
      var space := Min(|buffer| - fragmentEnd, limit);
      match available {
        case None =>
          n := None;
        case Some(bytes) =>
          var got := Min(|bytes|, space);
          ghost var fragment := buffer[..fragmentEnd];
          buffer := buffer[..fragmentEnd] + bytes[..got] + buffer[fragmentEnd + got..];
          fragmentEnd := fragmentEnd + got;
          assert buffer[..fragmentEnd] == fragment + bytes[..got];
          view := Appended(view, bytes[..got]);
          n := Some(got);
      }
    }

    method Position() returns (position: nat)
      requires Valid()
      ensures position == Origin() + view.pos
    {
      position := start + fragmentStart;
    }

    method Seek(offset: nat)
      requires Valid()
      modifies this
      ensures Valid()
      ensures view == View(splitter.cleared, [], 0, 0) && Origin() == offset
    {
      start := offset;
      fragmentStart, fragmentEnd := 0, 0;
      fed := 0;
      state := splitter.cleared;
      base, view := 0, View(splitter.cleared, [], 0, 0);
    }
  }

  // ---------------------------------------------------------------- every sequence of calls

  /** Data arrives, by `append` or by a file read, or a chunk is asked for. */
  datatype Call = AppendCall(data: seq<Byte>) | NextCall(eoi: bool)

  /** The view, with all that was appended, all chunks returned and all bytes the splitter accepted. */
  datatype Trace<+S> = Trace(view: View<S>, received: seq<seq<Byte>>, chunks: seq<seq<Byte>>, accepted: seq<seq<Byte>>)

  /** The bytes the splitter accepts when it is shown the rest of the stream. */
  function Accepted<S(!new)>(sp: Splitter<S>, v: View<S>): seq<Byte>
    requires Legal(sp) && Ordered(v)
  {
    var data := v.stream[v.fed..];
    match Split(sp, v.state, data).1
    case Some(n) => data[..n]
    case None => data
  }

  function Perform<S(!new)>(sp: Splitter<S>, t: Trace<S>, call: Call): (r: Trace<S>)
    requires Legal(sp) && Ordered(t.view)
    ensures Ordered(r.view)
  {
    match call
    case AppendCall(data) => t.(view := Appended(t.view, data), received := t.received + [data])
    case NextCall(eoi) =>
      var (v, chunk) := Next(sp, t.view, eoi);
      Trace(v, t.received, if chunk.Some? then t.chunks + [chunk.value] else t.chunks,
            t.accepted + [Accepted(sp, t.view)])
  }

  function PerformAll<S(!new)>(sp: Splitter<S>, t: Trace<S>, calls: seq<Call>): (r: Trace<S>)
    requires Legal(sp) && Ordered(t.view)
    ensures Ordered(r.view)
    decreases |calls|
  {
    if calls == [] then t else PerformAll(sp, Perform(sp, t, calls[0]), calls[1..])
  }

  /** The chunks are the stream up to the position, cut up; the splitter saw the stream up to `fed`, without gap
      or repeat. */
  ghost predicate FaithfulTrace<S>(t: Trace<S>) {
    && Ordered(t.view)
    && t.view.stream == Join(t.received)
    && Join(t.chunks) == t.view.stream[..t.view.pos]
    && Join(t.accepted) == t.view.stream[..t.view.fed]
  }

  lemma AcceptedSlice<S(!new)>(sp: Splitter<S>, v: View<S>, eoi: bool)
    requires Legal(sp) && Ordered(v)
    ensures v.fed <= Next(sp, v, eoi).0.fed
    ensures Accepted(sp, v) == v.stream[v.fed..Next(sp, v, eoi).0.fed]
  {
  }

  lemma PerformFaithful<S(!new)>(sp: Splitter<S>, t: Trace<S>, call: Call)
    requires Legal(sp) && FaithfulTrace(t)
    ensures FaithfulTrace(Perform(sp, t, call))
  {
    match call
    case AppendCall(data) =>
      JoinSnoc(t.received, data);
    case NextCall(eoi) =>
      var stream, pos, fed := t.view.stream, t.view.pos, t.view.fed;
      var (v, chunk) := Next(sp, t.view, eoi);
      AcceptedSlice(sp, t.view, eoi);
      JoinSnoc(t.accepted, Accepted(sp, t.view));
      SliceConcat(stream, 0, fed, v.fed);
      if chunk.Some? {
        JoinSnoc(t.chunks, chunk.value);
        SliceConcat(stream, 0, pos, v.pos);
      }
  }

  /** After a seek, every sequence of calls cuts the received stream into consecutive chunks. */
  lemma {:induction false} CallsFaithful<S(!new)>(sp: Splitter<S>, t: Trace<S>, calls: seq<Call>)
    requires Legal(sp) && FaithfulTrace(t)
    ensures FaithfulTrace(PerformAll(sp, t, calls))
    decreases |calls|
  {
    if calls != [] {
      PerformFaithful(sp, t, calls[0]);
      CallsFaithful(sp, Perform(sp, t, calls[0]), calls[1..]);
    }
  }

  function AfterSeek<S>(sp: Splitter<S>): (t: Trace<S>)
    ensures FaithfulTrace(t)
  {
    Trace(View(sp.cleared, [], 0, 0), [], [], [])
  }

  // ---------------------------------------------------------------- the line splitter

  const NEWLINE: Byte := 10

  /** As many complete lines as there are: the length up to the last newline. */
  function LineInput(data: seq<Byte>): (r: Option<nat>)
    ensures r.None? ==> forall i | 0 <= i < |data| :: data[i] != NEWLINE
    ensures r.Some? ==> 0 < r.value <= |data| && data[r.value - 1] == NEWLINE
    ensures r.Some? ==> forall i | r.value <= i < |data| :: data[i] != NEWLINE
  {
    if data == [] then None
    else if data[|data| - 1] == NEWLINE then Some(|data|)
    else LineInput(data[..|data| - 1])
  }

  const LINE_SPLITTER: Splitter<()> := Splitter((), (_, data) => ((), LineInput(data)))

  /** The splitter that never finds a boundary. */
  const SPONGE_SPLITTER: Splitter<()> := Splitter((), (_, _) => ((), None))

  lemma ConcreteSplittersLegal()
    ensures Legal(LINE_SPLITTER) && Legal(SPONGE_SPLITTER)
  {
  }

  /** The position just after the last newline. */
  function AfterLastNewline(stream: seq<Byte>): nat {
    match LineInput(stream)
    case Some(n) => n
    case None => 0
  }

  lemma {:induction false} LastNewlineOfConcat(a: seq<Byte>, b: seq<Byte>)
    ensures AfterLastNewline(a + b)
         == if LineInput(b).Some? then |a| + LineInput(b).value else AfterLastNewline(a)
  {
    if b == [] {
      assert a + b == a;
    } else {
      var c := b[..|b| - 1];
      assert (a + b)[..|a + b| - 1] == a + c && (a + b)[|a + b| - 1] == b[|b| - 1];
      if b[|b| - 1] != NEWLINE {
        LastNewlineOfConcat(a, c);
      }
    }
  }

  /** Asks for chunks until there are none, in the middle of the stream. */
  function Drain<S(!new)>(sp: Splitter<S>, v: View<S>): (r: (View<S>, seq<seq<Byte>>))
    requires Legal(sp) && Ordered(v)
    ensures Ordered(r.0) && r.0.stream == v.stream
    decreases |v.stream| - v.pos
  {
    var (w, chunk) := Next(sp, v, false);
    if chunk.None? then (w, [])
    else
      var (u, chunks) := Drain(sp, w);
      (u, [chunk.value] + chunks)
  }

  /** Appends one part after the other, draining after each. */
  function Feed<S(!new)>(sp: Splitter<S>, v: View<S>, parts: seq<seq<Byte>>): (r: (View<S>, seq<seq<Byte>>))
    requires Legal(sp) && Ordered(v)
    ensures Ordered(r.0)
    decreases |parts|
  {
    if parts == [] then (v, [])
    else
      var (w, chunks) := Drain(sp, Appended(v, parts[0]));
      var (u, more) := Feed(sp, w, parts[1..]);
      (u, chunks + more)
  }

  ghost predicate WholeLines(chunks: seq<seq<Byte>>) {
    forall i | 0 <= i < |chunks| :: chunks[i] != [] && chunks[i][|chunks[i]| - 1] == NEWLINE
  }

  /** All data was accepted, and exactly the complete lines were returned. */
  predicate LinesReturned(v: View<()>) {
    Ordered(v) && v.fed == |v.stream| && v.pos == AfterLastNewline(v.stream)
  }

  /** Draining returns the stream from the old position to the new one. */
  lemma {:induction false} DrainJoins<S(!new)>(sp: Splitter<S>, v: View<S>)
    requires Legal(sp) && Ordered(v)
    ensures v.pos <= Drain(sp, v).0.pos
    ensures Join(Drain(sp, v).1) == v.stream[v.pos..Drain(sp, v).0.pos]
    decreases |v.stream| - v.pos
  {
    var (w, chunk) := Next(sp, v, false);
    if chunk.Some? {
      DrainJoins(sp, w);
      var (u, chunks) := Drain(sp, w);
      JoinCons(chunk.value, chunks);
      SliceConcat(v.stream, v.pos, w.pos, u.pos);
    }
  }

  lemma SlicePrefix<T>(s: seq<T>, more: seq<T>, a: nat, b: nat)
    requires a <= b <= |s|
    ensures (s + more)[a..b] == s[a..b]
  {
  }

  /** Feeding returns the stream from the old position to the new one. */
  lemma {:induction false} FeedJoins<S(!new)>(sp: Splitter<S>, v: View<S>, parts: seq<seq<Byte>>)
    requires Legal(sp) && Ordered(v)
    ensures Feed(sp, v, parts).0.stream == v.stream + Join(parts)
    ensures v.pos <= Feed(sp, v, parts).0.pos
    ensures Join(Feed(sp, v, parts).1) == Feed(sp, v, parts).0.stream[v.pos..Feed(sp, v, parts).0.pos]
    decreases |parts|
  {
    if parts != [] {
      var a := Appended(v, parts[0]);
      var (w, chunks) := Drain(sp, a);
      DrainJoins(sp, a);
      FeedJoins(sp, w, parts[1..]);
      var (u, more) := Feed(sp, w, parts[1..]);
      assert Feed(sp, v, parts) == (u, chunks + more);
      Assoc(v.stream, parts[0], Join(parts[1..]));
      JoinConcat(chunks, more);
      SlicePrefix(w.stream, Join(parts[1..]), v.pos, w.pos);
      SliceConcat(u.stream, v.pos, w.pos, u.pos);
    }
  }

  lemma NextLine(v: View<()>)
    requires Ordered(v)
    ensures Legal(LINE_SPLITTER)
    ensures var split, (w, chunk) := LineInput(v.stream[v.fed..]), Next(LINE_SPLITTER, v, false);
            && (split.None? ==> chunk.None? && w == View((), v.stream, v.pos, |v.stream|))
            && (split.Some? ==> chunk.Some? && w == View((), v.stream, v.fed + split.value, v.fed + split.value))
  {
    ConcreteSplittersLegal();
  }

  /** Nothing is returned while no newline is there. */
  lemma DrainNothing(v: View<()>)
    requires Ordered(v) && LineInput(v.stream[v.fed..]).None?
    ensures Legal(LINE_SPLITTER)
    ensures Drain(LINE_SPLITTER, v) == (View((), v.stream, v.pos, |v.stream|), [])
  {
    NextLine(v);
  }

  /** Behind the last newline there is none. */
  lemma NoMoreLines(stream: seq<Byte>, fed: nat)
    requires fed <= |stream| && LineInput(stream[fed..]).Some?
    ensures var at := fed + LineInput(stream[fed..]).value; at <= |stream| && LineInput(stream[at..]).None?
  {
    var at := fed + LineInput(stream[fed..]).value;
    assert stream[at..] == stream[fed..][at - fed..];
  }

  /** Draining complete lines returns at most one chunk, which ends with the last newline. */
  lemma DrainLine(v: View<()>)
    requires Ordered(v)
    ensures Legal(LINE_SPLITTER)
    ensures var split, (w, chunks) := LineInput(v.stream[v.fed..]), Drain(LINE_SPLITTER, v);
            && w.fed == |v.stream|
            && (split.None? ==> chunks == [] && w.pos == v.pos)
            && (split.Some? ==> w.pos == v.fed + split.value && chunks == [v.stream[v.pos..w.pos]])
  {
    if LineInput(v.stream[v.fed..]).None? {
      DrainNothing(v);
    } else {
      NextLine(v);
      var (w, chunk) := Next(LINE_SPLITTER, v, false);
      NoMoreLines(v.stream, v.fed);
      DrainNothing(w);
      assert Drain(LINE_SPLITTER, v) == (View((), v.stream, w.pos, |v.stream|), [chunk.value] + []);
    }
  }

  /** What is returned when a newline arrives ends with it. */
  lemma EndsWithNewline(stream: seq<Byte>, data: seq<Byte>, pos: nat)
    requires pos <= |stream| && LineInput(data).Some?
    ensures var chunk := (stream + data)[pos..|stream| + LineInput(data).value];
            WholeLines([chunk])
  {
    var end := |stream| + LineInput(data).value;
    assert (stream + data)[end - 1] == data[LineInput(data).value - 1];
  }

  /** Returning what came up to the last newline in `data`, if there is one, returns exactly the complete lines. */
  lemma LinesStep(v: View<()>, data: seq<Byte>, w: View<()>, chunks: seq<seq<Byte>>)
    requires LinesReturned(v) && w.stream == v.stream + data && w.fed == |w.stream|
    requires LineInput(data).None? ==> chunks == [] && w.pos == v.pos
    requires LineInput(data).Some? ==>
               && w.pos == |v.stream| + LineInput(data).value
               && chunks == [w.stream[v.pos..w.pos]]
    ensures LinesReturned(w) && WholeLines(chunks)
  {
    LastNewlineOfConcat(v.stream, data);
    if LineInput(data).Some? {
      EndsWithNewline(v.stream, data, v.pos);
    }
  }

  lemma DrainLines(v: View<()>, data: seq<Byte>)
    requires LinesReturned(v)
    ensures Legal(LINE_SPLITTER)
    ensures LinesReturned(Drain(LINE_SPLITTER, Appended(v, data)).0)
    ensures WholeLines(Drain(LINE_SPLITTER, Appended(v, data)).1)
  {
    var u := Appended(v, data);
    assert u.stream[u.fed..] == data;
    DrainLine(u);
    LinesStep(v, data, Drain(LINE_SPLITTER, u).0, Drain(LINE_SPLITTER, u).1);
  }

  lemma {:induction false} FeedLines(v: View<()>, parts: seq<seq<Byte>>)
    requires LinesReturned(v)
    ensures Legal(LINE_SPLITTER)
    ensures LinesReturned(Feed(LINE_SPLITTER, v, parts).0)
    ensures WholeLines(Feed(LINE_SPLITTER, v, parts).1)
    decreases |parts|
  {
    ConcreteSplittersLegal();
    if parts != [] {
      DrainLines(v, parts[0]);
      FeedLines(Drain(LINE_SPLITTER, Appended(v, parts[0])).0, parts[1..]);
    }
  }

  /** However the bytes arrive, the position ends up just after the last newline received,
      and what was returned are exactly the complete lines. */
  lemma LinesIndependentOfArrival(parts: seq<seq<Byte>>)
    ensures Legal(LINE_SPLITTER)
    ensures var (w, chunks) := Feed(LINE_SPLITTER, AfterSeek(LINE_SPLITTER).view, parts);
            && w.pos == AfterLastNewline(Join(parts))
            && WholeLines(chunks)
            && w.pos <= |Join(parts)| && Join(chunks) == Join(parts)[..w.pos]
  {
    ConcreteSplittersLegal();
    var v := AfterSeek(LINE_SPLITTER).view;
    FeedLines(v, parts);
    FeedJoins(LINE_SPLITTER, v, parts);
    assert [] + Join(parts) == Join(parts);
  }
}
