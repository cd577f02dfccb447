/** What a ChunkedBodyParser is at any moment, and what one `read` does to it, as values. */
module ChunkedBody {
  import opened Strings
  import opened Ezio
  import opened Machine

  datatype Phase = ChunkHdr | ChunkData | Trailer

  datatype Chunked = Chunked(
    buffer: string,    // parser_buffer_
    size: uint32,      // current_chunk_size_
    phase: Phase,      // state_
    trailers: bool,    // trailers_enabled_
    parsed: nat,       // parsed_so_far_
    acked: nat)        // acked_so_far_

  /** What `read` reports: the whole input belongs to the body (npos), the body ends after
      `n` bytes of the input, or an exception or failed assertion. */
  datatype Outcome = More | Done(n: nat) | Bad

  /** A chunk of this size or more has `size + 2` wrap around in 32 bits; with fewer bytes
      than that buffered, the substr that follows is out of range and throws. */
  const OVERSIZE: nat := UINT32 - 2

  /** The size in a chunk header line, CRLF included; None is the exception of myatoi. */
  function ChunkSize(line: string): Option<uint32>
  {
    var semicolon := Find(line, ";");
    var end := if semicolon.Some? then semicolon else Find(line, CRLF);
    if end.None? then None
    else
      var hex := line[..end.value];
      var space := Find(hex, " ");
      var digits := if space.Some? then hex[..space.value] else hex;
      match Myatoi(digits, 16)
      case None => None
      case Some(v) => Some(v % UINT32)
  }

  function Terminator(trailers: bool): string
  {
    if trailers then CRLF + CRLF else CRLF
  }

  datatype StepResult = Advance(next: Chunked) | Wait | Finish(parsed: nat) | Fail

  function HeaderStep(c: Chunked): (r: StepResult)
    ensures r.Advance? ==> |r.next.buffer| + 2 <= |c.buffer| && r.next.acked == c.acked
  {
    match Find(c.buffer, CRLF)
    case None => Wait
    case Some(i) =>
      match ChunkSize(c.buffer[..i + 2])
      case None => Fail
      case Some(n) =>
        Advance(Chunked(c.buffer[i + 2..], n, if n == 0 then Trailer else ChunkData,
                        c.trailers, c.parsed + i + 2, c.acked))
  }

  function DataStep(c: Chunked): (r: StepResult)
    ensures r.Advance? ==> |r.next.buffer| + 2 <= |c.buffer| && r.next.acked == c.acked
  {
    var n := c.size;
    if n >= OVERSIZE then Fail
    else if |c.buffer| < n + 2 then Wait
    else if c.buffer[n..n + 2] != CRLF then Fail
    else Advance(Chunked(c.buffer[n + 2..], n, ChunkHdr, c.trailers, c.parsed + n + 2, c.acked))
  }

  function TrailerStep(c: Chunked): (r: StepResult)
    ensures !r.Advance?
  {
    match Find(c.buffer, Terminator(c.trailers))
    case None => Wait
    case Some(i) => Finish(c.parsed + i + |Terminator(c.trailers)|)
  }

  /** One turn of the loop in `read`. */
  function Step(c: Chunked): (r: StepResult)
    ensures r.Advance? ==> |r.next.buffer| + 2 <= |c.buffer| && r.next.acked == c.acked
  {
    if c.buffer == "" then Wait
    else match c.phase
      case ChunkHdr => HeaderStep(c)
      case ChunkData => DataStep(c)
      case Trailer => TrailerStep(c)
  }

  datatype LoopResult = Settled(c: Chunked) | Finished(parsed: nat) | Failed

  /** The whole loop of `read`. */
  function Loop(c: Chunked): LoopResult
    decreases |c.buffer|
  {
    match Step(c)
    case Advance(next) => Loop(next)
    case Wait => Settled(c)
    case Finish(parsed) => Finished(parsed)
    case Fail => Failed
  }

  function Fed(c: Chunked, input: string): Chunked
  {
    c.(buffer := c.buffer + input)
  }

  datatype ReadResult = ReadResult(next: Chunked, outcome: Outcome)

  /** `read`: the loop on the buffered bytes and the input, then the acknowledgement. The
      Bad outcome covers the assertion parsed_so_far_ > acked_so_far_. */
  function Read(c: Chunked, input: string): ReadResult
  {
    match Loop(Fed(c, input))
    case Settled(d) => ReadResult(d.(acked := d.acked + |input|), More)
    case Finished(parsed) => ReadResult(c, if parsed > c.acked then Done(parsed - c.acked) else Bad)
    case Failed => ReadResult(c, Bad)
  }

  /** ChunkedBodyParser( trailers ) */
  function Fresh(trailers: bool): Chunked
  {
    Chunked("", 0, ChunkHdr, trailers, 0, 0)
  }

  /** Between calls: the loop has nothing to do, and the bytes acknowledged are exactly the
      bytes parsed and the bytes still buffered. */
  ghost predicate AtRest(c: Chunked)
  {
    Step(c).Wait? && c.acked == c.parsed + |c.buffer|
  }

  /** ---- Fragmentation ---- */

  lemma HeaderStepAppend(c: Chunked, t: string)
    requires !HeaderStep(c).Wait?
    ensures HeaderStep(c).Advance? ==> HeaderStep(Fed(c, t)) == Advance(Fed(HeaderStep(c).next, t))
    ensures !HeaderStep(c).Advance? ==> HeaderStep(Fed(c, t)) == HeaderStep(c)
  {
    hide ChunkSize;
    var b := c.buffer;
    FindStable(b, t, CRLF);
    var i := Find(b, CRLF).value;
    assert (b + t)[..i + 2] == b[..i + 2];
    assert (b + t)[i + 2..] == b[i + 2..] + t;
  }

  lemma DataStepAppend(c: Chunked, t: string)
    requires !DataStep(c).Wait?
    ensures DataStep(c).Advance? ==> DataStep(Fed(c, t)) == Advance(Fed(DataStep(c).next, t))
    ensures !DataStep(c).Advance? ==> DataStep(Fed(c, t)) == DataStep(c)
  {
    var b, n := c.buffer, c.size;
    if n < OVERSIZE {
      assert (b + t)[n..n + 2] == b[n..n + 2];
      assert (b + t)[n + 2..] == b[n + 2..] + t;
    }
  }

  /** A turn of the loop does not depend on the bytes after those it consumes. */
  lemma StepAppend(c: Chunked, t: string)
    requires !Step(c).Wait?
    ensures Step(c).Advance? ==> Step(Fed(c, t)) == Advance(Fed(Step(c).next, t))
    ensures !Step(c).Advance? ==> Step(Fed(c, t)) == Step(c)
  {
    match c.phase
    case ChunkHdr => HeaderStepAppend(c, t);
    case ChunkData => DataStepAppend(c, t);
    case Trailer => FindStable(c.buffer, t, Terminator(c.trailers));
  }

  lemma {:induction false} LoopAppend(c: Chunked, t: string)
    ensures Loop(c).Settled? ==> Loop(Fed(c, t)) == Loop(Fed(Loop(c).c, t)) && Step(Loop(c).c).Wait?
    ensures !Loop(c).Settled? ==> Loop(Fed(c, t)) == Loop(c)
    decreases |c.buffer|
  {
    if !Step(c).Wait? {
      StepAppend(c, t);
    }
    if Step(c).Advance? {
      LoopAppend(Step(c).next, t);
    }
  }

  lemma StepConserves(c: Chunked)
    ensures Step(c).Advance? ==> var d := Step(c).next;
      d.parsed + |d.buffer| == c.parsed + |c.buffer| && d.parsed >= c.parsed && d.trailers == c.trailers
    ensures Step(c).Finish? ==> c.parsed < Step(c).parsed <= c.parsed + |c.buffer|
  {
    hide ChunkSize;
    hide Find;
    if c.phase == Trailer {
      TerminatorInside(c.buffer, c.trailers);
    } else if c.phase == ChunkHdr {
      LineInside(c.buffer);
    }
  }

  lemma TerminatorInside(s: string, trailers: bool)
    ensures var i := Find(s, Terminator(trailers));
      i.Some? ==> |Terminator(trailers)| > 0 && i.value + |Terminator(trailers)| <= |s|
  {
  }

  lemma LineInside(s: string)
    ensures Find(s, CRLF).Some? ==> Find(s, CRLF).value + 2 <= |s|
  {
  }

  /** The loop loses no byte, and only ever moves forward. */
  lemma {:induction false} LoopConserves(c: Chunked)
    ensures Loop(c).Settled? ==> var d := Loop(c).c;
      d.parsed + |d.buffer| == c.parsed + |c.buffer| && d.parsed >= c.parsed
      && d.acked == c.acked && d.trailers == c.trailers
    ensures Loop(c).Finished? ==> c.parsed < Loop(c).parsed <= c.parsed + |c.buffer|
    decreases |c.buffer|
  {
    hide Step;
    StepConserves(c);
    if Step(c).Advance? {
      LoopConserves(Step(c).next);
    }
  }

  /** A body that ends only once `t` has been fed ends inside `t`. */
  lemma FinishedBeyond(c: Chunked, t: string)
    requires Step(c).Wait? && Loop(Fed(c, t)).Finished?
    ensures Loop(Fed(c, t)).parsed > c.parsed + |c.buffer|
  {
    hide ChunkSize;
    var d := Fed(c, t);
    LoopConserves(d);
    if c.buffer != "" {
      match c.phase {
        case ChunkHdr => FindBeyond(c.buffer, t, CRLF);
        case ChunkData =>
        case Trailer => FindBeyond(c.buffer, t, Terminator(c.trailers));
      }
      if Step(d).Advance? {
        LoopConserves(Step(d).next);
      }
    }
  }

  /** The first turn on new input leaves no more than the input, and meets an oversized chunk
      only with nothing but the input buffered. */
  lemma StepReachesInput(c: Chunked, input: string)
    requires Step(c).Wait?
    ensures Step(Fed(c, input)).Advance? ==> |Step(Fed(c, input)).next.buffer| <= |input|
    ensures c.phase == ChunkData && c.size >= OVERSIZE ==> c.buffer == ""
  {
    hide ChunkSize;
    if c.buffer != "" && c.phase == ChunkHdr {
      if Step(Fed(c, input)).Advance? {
        FindBeyond(c.buffer, input, CRLF);
      }
    }
  }

  /** From rest, the final count lies inside the fragment, the assertion on the counters
      holds, and otherwise the parser is at rest again. */
  lemma ReadExact(c: Chunked, input: string)
    requires AtRest(c)
    ensures var r := Read(c, input);
      && (r.outcome.Done? ==> 0 < r.outcome.n <= |input|)
      && (r.outcome.More? ==> AtRest(r.next) && r.next.acked == c.acked + |input|)
      && (r.outcome.Bad? <==> Loop(Fed(c, input)).Failed?)
  {
    hide HeaderStep;
    hide DataStep;
    hide TrailerStep;
    LoopConserves(Fed(c, input));
    LoopAppend(Fed(c, input), "");
    if Loop(Fed(c, input)).Settled? {
      var d := Loop(Fed(c, input)).c;
      StepAcked(d, d.acked + |input|);
    }
    if Loop(Fed(c, input)).Finished? {
      FinishedBeyond(c, input);
    }
  }

  /** Reading `a` then `b` is reading `a + b`: same verdict, same place where the body ends,
      same parser state. */
  lemma ReadSplit(c: Chunked, a: string, b: string)
    requires AtRest(c)
    ensures var first, whole := Read(c, a), Read(c, a + b);
      match first.outcome
      case Done(n) => whole.outcome == Done(n)
      case Bad => whole.outcome == Bad
      case More =>
        var second := Read(first.next, b);
        match second.outcome
        case Done(n) => whole.outcome == Done(|a| + n)
        case Bad => whole.outcome == Bad
        case More => whole == second
  {
    hide Step;
    assert Fed(Fed(c, a), b) == Fed(c, a + b) by {
      assert c.buffer + a + b == c.buffer + (a + b);
    }
    LoopAppend(Fed(c, a), b);
    LoopConserves(Fed(c, a));
    ReadExact(c, a);
    var first := Read(c, a);
    if first.outcome.More? {
      var d := Loop(Fed(c, a)).c;
      ReadExact(first.next, b);
      LoopConserves(Fed(d, b));
      LoopAcked(Fed(d, b), first.next.acked);
      assert Fed(first.next, b) == Fed(d, b).(acked := first.next.acked);
    }
  }

  lemma StepAcked(c: Chunked, n: nat)
    ensures Step(c.(acked := n))
         == if Step(c).Advance? then Advance(Step(c).next.(acked := n)) else Step(c)
  {
    hide ChunkSize;
    hide Find;
    hide Terminator;
  }

  /** The loop neither reads nor writes the acknowledgement counter. */
  lemma {:induction false} LoopAcked(c: Chunked, n: nat)
    ensures Loop(c.(acked := n))
         == if Loop(c).Settled? then Settled(Loop(c).c.(acked := n)) else Loop(c)
    decreases |c.buffer|
  {
    hide Step;
    StepAcked(c, n);
    if Step(c).Advance? {
      LoopAcked(Step(c).next, n);
    }
  }

  function Concat(parts: seq<string>): string
  {
    if parts == [] then "" else parts[0] + Concat(parts[1..])
  }

  /** What a caller learns by reading fragment after fragment until the body ends: the bytes
      acknowledged over all the reads, the last count, and the fragment it falls in. */
  datatype BodyEnd = Unfinished | Broken | Ended(total: nat, last: nat, index: nat)

  function ReadAll(c: Chunked, fragments: seq<string>): BodyEnd
    decreases |fragments|
  {
    if fragments == [] then Unfinished
    else
      var r := Read(c, fragments[0]);
      match r.outcome
      case Done(n) => Ended(n, n, 0)
      case Bad => Broken
      case More =>
        match ReadAll(r.next, fragments[1..])
        case Ended(total, last, index) => Ended(|fragments[0]| + total, last, index + 1)
        case other => other
  }

  /** However a body is cut into fragments, the acknowledged counts add up to what one read
      of the whole text reports, and the last count lies in its own fragment. */
  lemma {:induction false} ReadAllExact(c: Chunked, fragments: seq<string>)
    requires AtRest(c)
    ensures var whole := Read(c, Concat(fragments)).outcome;
      match ReadAll(c, fragments)
      case Unfinished => whole == More
      case Broken => whole == Bad
      case Ended(total, last, index) =>
        whole == Done(total) && index < |fragments| && 1 <= last <= |fragments[index]|
        && total == |Concat(fragments[..index])| + last
    decreases |fragments|
  {
    if fragments == [] {
      assert Fed(c, "") == c by { assert c.buffer + "" == c.buffer; }
    } else {
      var a, b := fragments[0], Concat(fragments[1..]);
      ReadExact(c, a);
      ReadSplit(c, a, b);
      var r := Read(c, a);
      if r.outcome.More? {
        ReadAllExact(r.next, fragments[1..]);
        var rest := ReadAll(r.next, fragments[1..]);
        if rest.Ended? {
          assert fragments[..rest.index + 1][1..] == fragments[1..][..rest.index];
        }
      }
    }
  }
}
