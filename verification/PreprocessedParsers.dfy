/** The two parsers that run a preprocessor first and then cut its output into chunks for an
inner parser: one keeps a stream splitter across calls, one starts with a fresh splitter
for every message. */
module PreprocessedParsers {
  import opened Options
  import opened Buffers
  import opened Sequences
  import opened StreamSplitters

  /** What the inner parser makes of one chunk. */
  datatype Parsed<+R, +E> = Parsed(buffer: Option<Buffer<R>>, errors: seq<E>)

  /** An inner parser: how it reacts, in a state, to a chunk. */
  type InnerParser<!P, !R, !E> = (P, seq<Byte>) -> (P, Parsed<R, E>)

  /** The state of the inner parser after some chunks, with the buffers and errors it made of them. */
  datatype Gathered<+P, +R, +E> = Gathered(state: P, buffers: seq<Buffer<R>>, errors: seq<E>)

  /** Cuts `data` at the splits; what follows the last split is a chunk too. */
  function Chunks<S(!new)>(sp: Splitter<S>, st: S, data: seq<Byte>): seq<seq<Byte>>
    requires Legal(sp)
    decreases |data|
  {
    if data == [] then []
    else
      var (st1, split) := Split(sp, st, data);
      var n := if split.Some? then split.value else |data|;
      [data[..n]] + Chunks(sp, st1, data[n..])
  }

  /** What is gathered once the inner parser has seen one more chunk. */
  function ParseChunk<P, R, E>(parser: InnerParser<P, R, E>, g: Gathered<P, R, E>, chunk: seq<Byte>)
    : Gathered<P, R, E>
  {
    var (state, parsed) := parser(g.state, chunk);
    var buffers := if parsed.buffer.Some? then g.buffers + [parsed.buffer.value] else g.buffers;
    Gathered(state, buffers, g.errors + parsed.errors)
  }

  /** The inner parser is given the chunks one after the other. */
  function Gather<P, R, E>(parser: InnerParser<P, R, E>, g: Gathered<P, R, E>, chunks: seq<seq<Byte>>)
    : Gathered<P, R, E>
    decreases |chunks|
  {
    if chunks == [] then g else Gather(parser, ParseChunk(parser, g, chunks[0]), chunks[1..])
  }

  /** The vector of buffers is itself returned as one input buffer, if there is anything in it. */
  function NonEmpty<R>(buffers: seq<Buffer<R>>): Option<seq<Buffer<R>>> {
    if buffers == [] then None else Some(buffers)
  }

  /** Everything received was returned and accepted. */
  predicate AtEnd<S>(v: View<S>) {
    v.pos == v.fed == |v.stream|
  }

  /** Asking a stream splitter at the end of input for a chunk takes one chunk off the front. */
  lemma NextIsChunk<S(!new)>(sp: Splitter<S>, v: View<S>)
    requires Legal(sp) && Ordered(v) && v.pos == v.fed
    ensures var (w, chunk) := Next(sp, v, true);
            && w.pos == w.fed
            && var chunks := Chunks(sp, v.state, v.stream[v.fed..]);
               if chunk.None? then chunks == [] && AtEnd(w)
               else && chunks != [] && chunks[0] == chunk.value
                    && chunks[1..] == Chunks(sp, w.state, w.stream[w.fed..])
  {
    var data := v.stream[v.fed..];
    var (w, chunk) := Next(sp, v, true);
    if chunk.Some? {
      var n := w.fed - v.fed;
      assert data[..n] == chunk.value && data[n..] == w.stream[w.fed..];
      assert Chunks(sp, v.state, data) == [chunk.value] + Chunks(sp, w.state, data[n..]);
    }
  }

  class StreamingParser<S(!new), P, R, E> {
    const streamSplitter: StreamSplitter<S>
    const parser: InnerParser<P, R, E>
    var state: P

    constructor (splitter: Splitter<S>, parser: InnerParser<P, R, E>, state: P)
      requires Legal(splitter)
      ensures streamSplitter.Valid() && fresh(streamSplitter) && this.parser == parser && this.state == state
      ensures streamSplitter.splitter == splitter && streamSplitter.view == View(splitter.cleared, [], 0, 0)
    {
      this.streamSplitter := new StreamSplitter(splitter);
      this.parser, this.state := parser, state;
    }

    /** Parses the output `pre` of the preprocessor, which reported `preErrors`. */
    method ParseOutput(pre: seq<Byte>, preErrors: seq<E>) returns (result: Option<seq<Buffer<R>>>, errors: seq<E>)
      requires streamSplitter.Valid() && AtEnd(streamSplitter.view)
      modifies this, streamSplitter
      ensures streamSplitter.Valid() && AtEnd(streamSplitter.view)
      ensures var chunks := Chunks(streamSplitter.splitter, old(streamSplitter.view).state, pre);
              var g := Gather(parser, Gathered(old(state), [], preErrors), chunks);
              state == g.state && result == NonEmpty(g.buffers) && errors == g.errors
    {
      streamSplitter.Append(pre);
      var parsed: seq<Buffer<R>> := [];
      errors := preErrors;
      ghost var sp, v := streamSplitter.splitter, streamSplitter.view;
      assert v.stream[v.fed..] == pre;
      ghost var g := Gathered(state, [], preErrors);
      ghost var goal := Gather(parser, g, Chunks(sp, v.state, pre));
      var more := true;
      while more
        invariant streamSplitter.Valid() && streamSplitter.view == v && v.pos == v.fed
        invariant g == Gathered(state, parsed, errors)
        invariant Gather(parser, g, Chunks(sp, v.state, v.stream[v.fed..])) == goal
        invariant !more ==> AtEnd(v)
        decreases more, |v.stream| - v.pos
      {
        NextIsChunk(sp, v);
        var chunk := streamSplitter.NextChunk(true);
        v := streamSplitter.view;
        if chunk.None? {
          more := false;
        } else {
          g := ParseChunk(parser, g, chunk.value);
          var (state1, out) := parser(state, chunk.value);
          state := state1;
          errors := errors + out.errors;
          if out.buffer.Some? {
            parsed := parsed + [out.buffer.value];
          }
        }
      }
      result := NonEmpty(parsed);
    }
  }

  /** The message-oriented parser, which splits every message with a cleared splitter. */
  class MessageParser<S(!new), P, R, E> {
    const splitter: Splitter<S>
    const parser: InnerParser<P, R, E>
    var state: P

    constructor (splitter: Splitter<S>, parser: InnerParser<P, R, E>, state: P)
      ensures this.splitter == splitter && this.parser == parser && this.state == state
    {
      this.splitter, this.parser, this.state := splitter, parser, state;
    }

    method ParseOutput(pre: seq<Byte>, preErrors: seq<E>) returns (result: Option<seq<Buffer<R>>>, errors: seq<E>)
      requires Legal(splitter)
      modifies this
      ensures var g := Gather(parser, Gathered(old(state), [], preErrors), Chunks(splitter, splitter.cleared, pre));
              state == g.state && result == NonEmpty(g.buffers) && errors == g.errors
    {
      var parsed: seq<Buffer<R>> := [];
      errors := preErrors;
      var splitterState := splitter.cleared;
      var remaining := pre;
      ghost var g := Gathered(state, [], preErrors);
      ghost var goal := Gather(parser, g, Chunks(splitter, splitterState, pre));
      while remaining != []
        invariant g == Gathered(state, parsed, errors)
        invariant Gather(parser, g, Chunks(splitter, splitterState, remaining)) == goal
        decreases |remaining|
      {
        var (st, split) := Split(splitter, splitterState, remaining);
        var offset := if split.Some? then split.value else |remaining|;
        var chunk := remaining[..offset];
        ghost var chunks := Chunks(splitter, st, remaining[offset..]);
        assert Chunks(splitter, splitterState, remaining) == [chunk] + chunks && ([chunk] + chunks)[1..] == chunks;
        splitterState, remaining := st, remaining[offset..];
        g := ParseChunk(parser, g, chunk);
        var (state1, out) := parser(state, chunk);
        state := state1;
        errors := errors + out.errors;
        if out.buffer.Some? {
          parsed := parsed + [out.buffer.value];
        }
      }
      result := NonEmpty(parsed);
    }
  }

  // ---------------------------------------------------------------- what is handed over and gathered

  /** The chunk is the data between two positions, and the splitter, in state `st`, puts a split at its end; only
      the last chunk may end without a split, at the end of the data. */
  ghost predicate Piece<S(!new)>(sp: Splitter<S>, data: seq<Byte>, chunk: seq<Byte>, st: S, from: nat,
                                 next: S, to: nat, last: bool) {
    && from < to <= |data| && chunk == data[from..to]
    && Split(sp, st, data[from..]).0 == next
    && (Split(sp, st, data[from..]).1 == Some(to - from)
        || (Split(sp, st, data[from..]).1.None? && last && to == |data|))
  }

  /** The chunks cover the data, cut where the splitter says, in the states it goes through. */
  ghost predicate CutAtSplits<S(!new)>(sp: Splitter<S>, st: S, data: seq<Byte>, chunks: seq<seq<Byte>>,
                                       states: seq<S>, at: seq<nat>) {
    && |states| == |at| == |chunks| + 1 && states[0] == st && at[0] == 0 && at[|chunks|] == |data|
    && forall i | 0 <= i < |chunks| ::
         Piece(sp, data, chunks[i], states[i], at[i], states[i + 1], at[i + 1], i == |chunks| - 1)
  }

  /** A piece of what follows the first `n` bytes is a piece of the whole. */
  lemma PieceBehind<S(!new)>(sp: Splitter<S>, data: seq<Byte>, n: nat, chunk: seq<Byte>, st: S, from: nat,
                             next: S, to: nat, last: bool)
    requires n <= |data| && Piece(sp, data[n..], chunk, st, from, next, to, last)
    ensures Piece(sp, data, chunk, st, n + from, next, n + to, last)
  {
    assert data[n..][from..] == data[n + from..] && data[n..][from..to] == data[n + from..n + to];
  }

  function Shift(at: seq<nat>, n: nat): (r: seq<nat>)
    ensures |r| == |at| && forall i | 0 <= i < |at| :: r[i] == n + at[i]
  {
    seq(|at|, i requires 0 <= i < |at| => n + at[i])
  }

  lemma LaterPiece<S(!new)>(sp: Splitter<S>, data: seq<Byte>, n: nat, next: S, rest: seq<seq<Byte>>, states: seq<S>,
                            at: seq<nat>, j: nat)
    requires n <= |data| && CutAtSplits(sp, next, data[n..], rest, states, at) && j < |rest|
    ensures Piece(sp, data, rest[j], states[j], n + at[j], states[j + 1], n + at[j + 1], j == |rest| - 1)
  {
    PieceBehind(sp, data, n, rest[j], states[j], at[j], states[j + 1], at[j + 1], j == |rest| - 1);
  }

  /** A first chunk, before chunks that cover what follows it. */
  lemma CutFirst<S(!new)>(sp: Splitter<S>, st: S, data: seq<Byte>, n: nat, next: S, rest: seq<seq<Byte>>,
                          states: seq<S>, at: seq<nat>)
    requires n <= |data| && CutAtSplits(sp, next, data[n..], rest, states, at)
    requires Piece(sp, data, data[..n], st, 0, next, n, rest == [])
    ensures CutAtSplits(sp, st, data, [data[..n]] + rest, [st] + states, [0] + Shift(at, n))
  {
    var chunks, all, cuts := [data[..n]] + rest, [st] + states, [0] + Shift(at, n);
    assert all[1] == next && cuts[1] == n;
    forall i | 0 <= i < |chunks|
      ensures Piece(sp, data, chunks[i], all[i], cuts[i], all[i + 1], cuts[i + 1], i == |chunks| - 1)
    {
      if i > 0 {
        var j := i - 1;
        LaterPiece(sp, data, n, next, rest, states, at, j);
        assert chunks[i] == rest[j] && all[i] == states[j] && cuts[i] == n + at[j];
        assert all[i + 1] == states[j + 1] && cuts[i + 1] == n + at[j + 1];
      }
    }
  }

  /** The output is handed over in pieces that end where the splitter puts its splits. */
  lemma {:induction false} ChunksAtSplits<S(!new)>(sp: Splitter<S>, st: S, data: seq<Byte>)
    returns (states: seq<S>, at: seq<nat>)
    requires Legal(sp)
    ensures CutAtSplits(sp, st, data, Chunks(sp, st, data), states, at)
    decreases |data|
  {
    if data == [] {
      states, at := [st], [0];
    } else {
      var (next, split) := Split(sp, st, data);
      var n := if split.Some? then split.value else |data|;
      var rest := data[n..];
      var moreStates, more := ChunksAtSplits(sp, next, rest);
      assert data[0..] == data && data[0..n] == data[..n];
      CutFirst(sp, st, data, n, next, Chunks(sp, next, rest), moreStates, more);
      states, at := [st] + moreStates, [0] + Shift(more, n);
    }
  }

  /** The states the inner parser goes through. */
  ghost predicate States<P, R, E>(parser: InnerParser<P, R, E>, state: P, chunks: seq<seq<Byte>>, states: seq<P>) {
    && |states| == |chunks| + 1 && states[0] == state
    && forall i | 0 <= i < |chunks| :: states[i + 1] == parser(states[i], chunks[i]).0
  }

  function Made<R, E>(out: Parsed<R, E>): seq<Buffer<R>> {
    if out.buffer.Some? then [out.buffer.value] else []
  }

  /** What the inner parser makes of each chunk: its buffer, if there is one, and its errors. */
  ghost function BuffersMade<P, R, E>(parser: InnerParser<P, R, E>, chunks: seq<seq<Byte>>, states: seq<P>)
    : seq<seq<Buffer<R>>>
    requires |states| == |chunks| + 1
  {
    seq(|chunks|, i requires 0 <= i < |chunks| =>
      Made(parser(states[i], chunks[i]).1))
  }

  ghost function ErrorsMade<P, R, E>(parser: InnerParser<P, R, E>, chunks: seq<seq<Byte>>, states: seq<P>)
    : seq<seq<E>>
    requires |states| == |chunks| + 1
  {
    seq(|chunks|, i requires 0 <= i < |chunks| => parser(states[i], chunks[i]).1.errors)
  }

  lemma MadeCons<P, R, E>(parser: InnerParser<P, R, E>, state: P, chunk: seq<Byte>, chunks: seq<seq<Byte>>,
                          states: seq<P>)
    requires |states| == |chunks| + 1
    ensures var out := parser(state, chunk).1;
            && BuffersMade(parser, [chunk] + chunks, [state] + states)
            == [Made(out)] + BuffersMade(parser, chunks, states)
            && ErrorsMade(parser, [chunk] + chunks, [state] + states)
            == [out.errors] + ErrorsMade(parser, chunks, states)
  {
  }

  /** One more chunk adds its buffer and its errors at the end. */
  lemma ParsedAdds<P, R, E>(parser: InnerParser<P, R, E>, g: Gathered<P, R, E>, chunk: seq<Byte>)
    ensures var (state, out) := parser(g.state, chunk);
            ParseChunk(parser, g, chunk) == Gathered(state, g.buffers + Made(out), g.errors + out.errors)
  {
    assert g.buffers + [] == g.buffers;
  }

  /** The results of one chunk followed by those of the others are the results of all. */
  lemma GatheredCons<P, R, E>(parser: InnerParser<P, R, E>, g: Gathered<P, R, E>, chunk: seq<Byte>,
                              chunks: seq<seq<Byte>>, states: seq<P>)
    requires |states| == |chunks| + 1
    ensures var out, all, through := parser(g.state, chunk).1, [chunk] + chunks, [g.state] + states;
            && g.buffers + Made(out) + Join(BuffersMade(parser, chunks, states))
            == g.buffers + Join(BuffersMade(parser, all, through))
            && g.errors + out.errors + Join(ErrorsMade(parser, chunks, states))
            == g.errors + Join(ErrorsMade(parser, all, through))
  {
    var out := parser(g.state, chunk).1;
    var buffers, errors := BuffersMade(parser, chunks, states), ErrorsMade(parser, chunks, states);
    MadeCons(parser, g.state, chunk, chunks, states);
    JoinCons(Made(out), buffers);
    JoinCons(out.errors, errors);
    Assoc(g.buffers, Made(out), Join(buffers));
    Assoc(g.errors, out.errors, Join(errors));
  }

  lemma StatesCons<P, R, E>(parser: InnerParser<P, R, E>, state: P, chunk: seq<Byte>, chunks: seq<seq<Byte>>,
                            states: seq<P>)
    requires States(parser, parser(state, chunk).0, chunks, states)
    ensures States(parser, state, [chunk] + chunks, [state] + states)
  {
  }

  /** What is gathered in `r` are the buffers and the errors of all chunks, in chunk order, behind what was there
      before; `states` are those the inner parser goes through. */
  ghost predicate GatheredOf<P, R, E>(parser: InnerParser<P, R, E>, g: Gathered<P, R, E>, chunks: seq<seq<Byte>>,
                                      states: seq<P>, r: Gathered<P, R, E>) {
    && States(parser, g.state, chunks, states)
    && r.state == states[|chunks|]
    && r.buffers == g.buffers + Join(BuffersMade(parser, chunks, states))
    && r.errors == g.errors + Join(ErrorsMade(parser, chunks, states))
  }

  lemma GatheredOfCons<P, R, E>(parser: InnerParser<P, R, E>, g: Gathered<P, R, E>, chunk: seq<Byte>,
                                chunks: seq<seq<Byte>>, states: seq<P>, r: Gathered<P, R, E>)
    requires GatheredOf(parser, ParseChunk(parser, g, chunk), chunks, states, r)
    ensures GatheredOf(parser, g, [chunk] + chunks, [g.state] + states, r)
  {
    ParsedAdds(parser, g, chunk);
    StatesCons(parser, g.state, chunk, chunks, states);
    GatheredCons(parser, g, chunk, chunks, states);
  }

  lemma GatheredOfNone<P, R, E>(parser: InnerParser<P, R, E>, g: Gathered<P, R, E>)
    ensures GatheredOf(parser, g, [], [g.state], g)
  {
    assert g.buffers + [] == g.buffers && g.errors + [] == g.errors;
  }

  /** Nothing the inner parser makes is lost, repeated or reordered. */
  lemma {:induction false} GatheredInOrder<P, R, E>(parser: InnerParser<P, R, E>, g: Gathered<P, R, E>,
                                                    chunks: seq<seq<Byte>>) returns (states: seq<P>)
    ensures GatheredOf(parser, g, chunks, states, Gather(parser, g, chunks))
    decreases |chunks|
  {
    if chunks == [] {
      GatheredOfNone(parser, g);
      states := [g.state];
    } else {
      var chunk, rest := chunks[0], chunks[1..];
      var more := GatheredInOrder(parser, ParseChunk(parser, g, chunk), rest);
      assert chunks == [chunk] + rest;
      GatheredOfCons(parser, g, chunk, rest, more, Gather(parser, g, chunks));
      states := [g.state] + more;
    }
  }

  // ---------------------------------------------------------------- agreement

  /** The chunks given to the inner parser are the preprocessor's output, cut up into nonempty pieces. */
  lemma {:induction false} ChunksJoin<S(!new)>(sp: Splitter<S>, st: S, data: seq<Byte>)
    requires Legal(sp)
    ensures Join(Chunks(sp, st, data)) == data
    ensures forall i | 0 <= i < |Chunks(sp, st, data)| :: Chunks(sp, st, data)[i] != []
    decreases |data|
  {
    if data != [] {
      var (st1, split) := Split(sp, st, data);
      var n := if split.Some? then split.value else |data|;
      ChunksJoin(sp, st1, data[n..]);
      JoinCons(data[..n], Chunks(sp, st1, data[n..]));
    }
  }

  /** Where the splitter puts a split does not depend on what it was shown before. */
  ghost predicate Stateless<S(!new)>(sp: Splitter<S>) {
    forall st, other, data :: Split(sp, st, data).1 == Split(sp, other, data).1
  }

  lemma {:induction false} StateIrrelevant<S(!new)>(sp: Splitter<S>, st: S, other: S, data: seq<Byte>)
    requires Legal(sp) && Stateless(sp)
    ensures Chunks(sp, st, data) == Chunks(sp, other, data)
    decreases |data|
  {
    if data != [] {
      var (st1, split) := Split(sp, st, data);
      var (other1, split1) := Split(sp, other, data);
      assert split == split1;
      StateIrrelevant(sp, st1, other1, data[if split.Some? then split.value else |data|..]);
    }
  }

  /** With a stateless splitter both parsers hand the inner parser the same chunks, on every call. */
  lemma ParsersAgree<S(!new)>(sp: Splitter<S>, kept: S, data: seq<Byte>)
    requires Legal(sp) && Stateless(sp)
    ensures Chunks(sp, kept, data) == Chunks(sp, sp.cleared, data)
  {
    StateIrrelevant(sp, kept, sp.cleared, data);
  }

  /** What a parser makes of a sequence of preprocessor outputs, with the splitter in state `kept[i]` before
      output `i`. */
  function Calls<S(!new), P, R, E>(sp: Splitter<S>, parser: InnerParser<P, R, E>, kept: seq<S>, state: P,
                                   outputs: seq<seq<Byte>>): seq<Gathered<P, R, E>>
    requires Legal(sp) && |kept| == |outputs|
    decreases |outputs|
  {
    if outputs == [] then []
    else
      var g := Gather(parser, Gathered(state, [], []), Chunks(sp, kept[0], outputs[0]));
      [g] + Calls(sp, parser, kept[1..], g.state, outputs[1..])
  }

  /** Over every sequence of calls, a stateless splitter makes both parsers return the same buffers and errors,
      and leaves their inner parsers in the same states, whatever the splitters were left in. */
  lemma {:induction false} CallsAgree<S(!new), P, R, E>(sp: Splitter<S>, parser: InnerParser<P, R, E>, kept: seq<S>,
                                                        other: seq<S>, state: P, outputs: seq<seq<Byte>>)
    requires Legal(sp) && Stateless(sp) && |kept| == |other| == |outputs|
    ensures Calls(sp, parser, kept, state, outputs) == Calls(sp, parser, other, state, outputs)
    decreases |outputs|
  {
    if outputs != [] {
      StateIrrelevant(sp, kept[0], other[0], outputs[0]);
      var g := Gather(parser, Gathered(state, [], []), Chunks(sp, kept[0], outputs[0]));
      CallsAgree(sp, parser, kept[1..], other[1..], g.state, outputs[1..]);
    }
  }

  // ---------------------------------------------------------------- lines cut at the ends of outputs

  predicate EndsLine(data: seq<Byte>) {
    data == [] || data[|data| - 1] == NEWLINE
  }

  /** The first chunk of a nonempty output. */
  lemma LineChunk(data: seq<Byte>, n: nat)
    requires data != [] && n == (if LineInput(data).Some? then LineInput(data).value else |data|)
    ensures Legal(LINE_SPLITTER) && n <= |data|
    ensures Chunks(LINE_SPLITTER, (), data) == [data[..n]] + Chunks(LINE_SPLITTER, (), data[n..])
  {
    ConcreteSplittersLegal();
    assert Split(LINE_SPLITTER, (), data) == ((), LineInput(data));
  }

  /** Data without a newline, or up to its last one, is a single chunk. */
  lemma OneChunk(data: seq<Byte>)
    requires data != [] && (LineInput(data).None? || LineInput(data) == Some(|data|))
    ensures Legal(LINE_SPLITTER)
    ensures Chunks(LINE_SPLITTER, (), data) == [data]
  {
    LineChunk(data, |data|);
    assert data[..|data|] == data && data[|data|..] == [];
    assert [data] + [] == [data];
  }

  lemma TwoChunks(data: seq<Byte>, n: nat)
    requires LineInput(data) == Some(n) && n < |data|
    ensures Legal(LINE_SPLITTER)
    ensures Chunks(LINE_SPLITTER, (), data) == [data[..n], data[n..]]
  {
    // No newline follows the last one, so the rest is one chunk.
    LineChunk(data, n);
    OneChunk(data[n..]);
    assert [data[..n]] + [data[n..]] == [data[..n], data[n..]];
  }

  /** The chunks of one output: its complete lines together, and what follows the last newline. */
  lemma OutputChunks(data: seq<Byte>)
    ensures Legal(LINE_SPLITTER)
    ensures var n := AfterLastNewline(data);
            && n <= |data|
            && Chunks(LINE_SPLITTER, (), data)
            == if data == [] then [] else if n == 0 || n == |data| then [data] else [data[..n], data[n..]]
  {
    ConcreteSplittersLegal();
    var n := AfterLastNewline(data);
    if data == [] {
    } else if n == 0 || n == |data| {
      OneChunk(data);
    } else {
      TwoChunks(data, n);
    }
  }

  /** The chunks of one output are whole lines exactly when the output ends with one. */
  lemma OutputWholeIff(data: seq<Byte>)
    ensures Legal(LINE_SPLITTER)
    ensures WholeLines(Chunks(LINE_SPLITTER, (), data)) <==> EndsLine(data)
  {
    OutputChunks(data);
    var n := AfterLastNewline(data);
    var chunks := Chunks(LINE_SPLITTER, (), data);
    if 0 < n < |data| {
      assert chunks[1] == data[n..] && data[n..][|data| - n - 1] == data[|data| - 1];
    } else if data != [] {
      assert chunks[0] == data;
    }
  }

  /** All chunks that the line parser is handed over a sequence of outputs. */
  function LineChunks(outputs: seq<seq<Byte>>): seq<seq<Byte>> {
    ConcreteSplittersLegal();
    if outputs == [] then [] else Chunks(LINE_SPLITTER, (), outputs[0]) + LineChunks(outputs[1..])
  }

  lemma WholeLinesConcat(a: seq<seq<Byte>>, b: seq<seq<Byte>>)
    ensures WholeLines(a + b) <==> WholeLines(a) && WholeLines(b)
  {
    var both := a + b;
    if WholeLines(both) {
      assert forall i | 0 <= i < |a| :: both[i] == a[i];
      assert forall i | 0 <= i < |b| :: both[|a| + i] == b[i];
    }
  }

  /** Since every call is taken for the end of the input, the chunks are whole lines exactly when every output of
      the preprocessor ends with one, unlike those of a stream that is split as it arrives. */
  lemma {:induction false} LinesWholeIff(outputs: seq<seq<Byte>>)
    ensures WholeLines(LineChunks(outputs)) <==> forall i | 0 <= i < |outputs| :: EndsLine(outputs[i])
  {
    if outputs != [] {
      OutputWholeIff(outputs[0]);
      LinesWholeIff(outputs[1..]);
      WholeLinesConcat(Chunks(LINE_SPLITTER, (), outputs[0]), LineChunks(outputs[1..]));
      assert forall i | 0 < i < |outputs| :: outputs[i] == outputs[1..][i - 1];
    }
  }

  /** A line that arrives in two outputs is cut: "ab" and "c" with its newline are two chunks. */
  lemma CutLine()
    ensures !WholeLines(LineChunks([[97, 98], [99, NEWLINE]])) && EndsLine([97, 98] + [99, NEWLINE])
  {
    var outputs: seq<seq<Byte>> := [[97, 98], [99, NEWLINE]];
    assert !EndsLine(outputs[0]);
    LinesWholeIff(outputs);
  }
}
