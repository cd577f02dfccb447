/** What the parser can emit: every message it completes is made of whole lines and has
    exactly the body its headers announce, so printing it gives text that parses back to it. */
module HttpEmitted {
  import opened Strings
  import opened HttpHeader
  import ChunkedBody
  import opened HttpMessage
  import opened HttpMessageSequence
  import opened HttpRoundTrip

  /** A header as the parser reads it off a line. */
  ghost predicate ReadHeader(h: Header)
  {
    IsLine(h.key) && IsLine(h.value) && ':' !in h.key && (Blank(h.value) || h.value[0] != ' ')
  }

  ghost predicate ReadHeaders(headers: seq<Header>)
  {
    forall i :: 0 <= i < |headers| ==> ReadHeader(headers[i])
  }

  /** Made of whole lines, and a response with the request it answers. */
  ghost predicate Spelled(role: Role, r: Record)
  {
    IsLine(r.firstLine) && ReadHeaders(r.headers) && (r.request.Some? <==> role == Response)
  }

  /** A message with exactly the body its headers announce. */
  ghost predicate Emitted(role: Role, r: Record)
  {
    Spelled(role, r) && Framed(role, r)
  }

  /** A response ended by the end of file: one of rule 5, or a chunked one cut short. */
  ghost predicate EndedByEof(role: Role, r: Record)
  {
    Spelled(role, r) && role == Response && OpenEnded(r)
  }

  /** What is known of a message in progress from the bytes it was made of. */
  ghost predicate Traced(m: Message)
  {
    && (m.state == FirstLinePending ==> m == NewMessage(m.role))
    && (m.state != FirstLinePending ==> IsLine(m.firstLine) && (m.request.Some? <==> m.role == Response))
    && ReadHeaders(m.headers)
    && (m.state == BodyPending ==> BodySoFar(m))
    && (m.state == Complete ==> Framed(m.role, RecordOf(m)))
  }

  /** The framing is the announced one, advanced by the body read so far. */
  ghost predicate BodySoFar(m: Message)
  {
    match FramingOf(m.role, m.firstLine, m.headers, m.request)
    case None => false
    case Some(ByChunks(c)) =>
      m.framing.ByChunks? && ChunkedBody.Read(c, m.body) == ChunkedBody.ReadResult(m.framing.parser, ChunkedBody.More)
    case Some(f) => m.framing == f
  }

  lemma SliceIsLine(line: string, a: nat, b: nat)
    requires IsLine(line) && a <= b <= |line|
    ensures IsLine(line[a..b])
  {
    forall i ensures !OccursAt(line[a..b], CRLF, i)
    {
      if 0 <= i && i + 2 <= b - a {
        SliceOfSlice(line, a, b, i, i + 2);
        assert !OccursAt(line, CRLF, a + i);
      }
    }
  }

  lemma StrippedSlice(s: string)
    ensures exists a :: 0 <= a <= |s| && StripSpaces(s) == s[a..|s|]
  {
    if s != "" && s[0] == ' ' {
      StrippedSlice(s[1..]);
      var a :| 0 <= a <= |s[1..]| && StripSpaces(s[1..]) == s[1..][a..|s[1..]|];
      assert s[1..][a..|s[1..]|] == s[a + 1..|s|];
    } else {
      assert s == s[0..|s|];
    }
  }

  lemma HeaderRead(line: string)
    requires IsLine(line) && ParseHeader(line).Some?
    ensures ReadHeader(ParseHeader(line).value)
  {
    hide IsLine;
    var h := ParseHeader(line).value;
    ColonSplitsKey(line);
    var i := Find(line, ":").value;
    SliceIsLine(line, 0, i);
    assert line[0..i] == line[..i];
    SliceIsLine(line, i + 1, |line|);
    var value := line[i + 1..];
    assert line[i + 1..|line|] == value;
    if !Blank(value) {
      StrippedSlice(value);
      var a :| 0 <= a <= |value| && StripSpaces(value) == value[a..|value|];
      SliceIsLine(value, a, |value|);
      StripSpacesExact(value);
    }
  }

  lemma PoppedIsLine(buffer: string, i: nat)
    requires Find(buffer, CRLF) == Some(i)
    ensures IsLine(buffer[..i])
  {
    forall j ensures !OccursAt(buffer[..i], CRLF, j)
    {
      if 0 <= j && j + 2 <= i {
        assert buffer[..i][j..j + 2] == buffer[j..j + 2];
        assert !OccursAt(buffer, CRLF, j);
      }
    }
  }

  lemma EmptyRead(trailers: bool)
    ensures var c := ChunkedBody.Fresh(trailers);
      ChunkedBody.Read(c, "") == ChunkedBody.ReadResult(c, ChunkedBody.More)
  {
  }

  lemma HeadersDone(m: Message)
    requires Traced(m) && m.state == HeadersPending && m.body == "" && WithoutMoreHeaders(m).Some?
    ensures Traced(WithoutMoreHeaders(m).value)
  {
    hide FramingOf;
    hide ChunkedBody.Read;
    hide IsLine;
    FramingIsFresh(m.role, m.firstLine, m.headers, m.request);
    EmptyRead(true);
    EmptyRead(false);
  }

  lemma HeaderAdded(m: Message, line: string)
    requires Traced(m) && m.state == HeadersPending && IsLine(line) && WithHeader(m, line).Some?
    ensures Traced(WithHeader(m, line).value)
  {
    hide IsLine;
    hide ParseHeader;
    HeaderRead(line);
  }

  /** A verdict reached within a prefix is the verdict on the prefix alone. */
  lemma ReadPrefix(c: ChunkedBody.Chunked, text: string, n: nat)
    requires ChunkedBody.AtRest(c) && n <= |text| && ChunkedBody.Read(c, text).outcome == ChunkedBody.Done(n)
    ensures ChunkedBody.Read(c, text[..n]).outcome == ChunkedBody.Done(n)
  {
    hide ChunkedBody.Read;
    var a, b := text[..n], text[n..];
    assert a + b == text;
    ChunkedBody.ReadSplit(c, a, b);
    ChunkedBody.ReadExact(c, a);
    var first := ChunkedBody.Read(c, a);
    if first.outcome.More? {
      ChunkedBody.ReadExact(first.next, b);
    }
  }

  lemma ChunkedRead(m: Message, c: ChunkedBody.Chunked, input: string)
    requires m.state == BodyPending && m.framing.ByChunks? && ChunkedBody.AtRest(c) && ReadInBody(m, input).Took?
    requires ChunkedBody.Read(c, m.body) == ChunkedBody.ReadResult(m.framing.parser, ChunkedBody.More)
    ensures var t := ReadInBody(m, input).message;
      if t.state == Complete then ChunkedBody.Read(c, t.body).outcome == ChunkedBody.Done(|t.body|)
      else t.framing.ByChunks?
           && ChunkedBody.Read(c, t.body) == ChunkedBody.ReadResult(t.framing.parser, ChunkedBody.More)
  {
    hide ChunkedBody.Read;
    ChunkedBody.ReadSplit(c, m.body, input);
    var r := ChunkedBody.Read(m.framing.parser, input);
    if r.outcome.Done? {
      var n := |m.body| + r.outcome.n;
      ReadPrefix(c, m.body + input, n);
      assert (m.body + input)[..n] == m.body + input[..r.outcome.n];
    }
  }

  lemma BodyTraced(m: Message, input: string)
    requires Traced(m) && m.state == BodyPending && InProgress(m) && ReadInBody(m, input).Took?
    ensures Traced(ReadInBody(m, input).message)
  {
    hide FramingOf;
    hide ChunkedBody.Read;
    hide IsLine;
    hide ReadHeaders;
    FramingIsFresh(m.role, m.firstLine, m.headers, m.request);
    if m.framing.ByChunks? {
      ChunkedRead(m, FramingOf(m.role, m.firstLine, m.headers, m.request).value.parser, input);
    }
  }

  /** A step appends the complete message, if there is one, and nothing else. */
  ghost predicate Appends(p: Parser, q: Parser)
    requires p.Running?
  {
    q.complete == if p.message.state == Complete then p.complete + [RecordOf(p.message)] else p.complete
  }

  /** Every step of the parser keeps the trace. */
  lemma StepTraces(p: Parser)
    requires p.Running? && Sound(p) && Traced(p.message)
    ensures !Step(p).Throw? ==> Traced(Step(p).next.message) && Appends(p, Step(p).next)
  {
    hide Find;
    hide IsLine;
    hide FramingOf;
    hide WithHeader;
    hide WithoutMoreHeaders;
    hide ReadInBody;
    hide BodySoFar;
    match p.message.state
    case FirstLinePending =>
      if Find(p.buffer, CRLF).Some? {
        PoppedIsLine(p.buffer, Find(p.buffer, CRLF).value);
      }
    case HeadersPending =>
      if Find(p.buffer, CRLF).Some? {
        var line := p.buffer[..Find(p.buffer, CRLF).value];
        PoppedIsLine(p.buffer, |line|);
        HeaderStepTraced(p.message, line);
      }
    case BodyPending =>
      if ReadInBody(p.message, p.buffer).Took? {
        BodyTraced(p.message, p.buffer);
        ReadKeepsRole(p.message, p.buffer);
      }
    case Complete =>
  }

  lemma HeaderStepTraced(m: Message, line: string)
    requires Traced(m) && m.state == HeadersPending && m.body == "" && IsLine(line)
    ensures WithHeader(m, line).Some? ==>
      Traced(WithHeader(m, line).value) && WithHeader(m, line).value.role == m.role
    ensures WithoutMoreHeaders(m).Some? ==>
      Traced(WithoutMoreHeaders(m).value) && WithoutMoreHeaders(m).value.role == m.role
  {
    hide IsLine;
    hide FramingOf;
    hide Traced;
    hide ParseHeader;
    if WithHeader(m, line).Some? {
      HeaderAdded(m, line);
    }
    if WithoutMoreHeaders(m).Some? {
      HeadersDone(m);
    }
  }

  lemma ReadKeepsRole(m: Message, input: string)
    requires ReadInBody(m, input).Took?
    ensures ReadInBody(m, input).message.role == m.role
  {
    hide ChunkedBody.Read;
  }

  /** `after` adds to `before` nothing but messages with the body they announce. */
  ghost predicate NewlyEmitted(role: Role, before: seq<Record>, after: seq<Record>)
  {
    before <= after && forall i :: |before| <= i < |after| ==> Emitted(role, after[i])
  }

  lemma {:induction false} RunEmits(p: Parser)
    requires p.Running? && Sound(p) && Traced(p.message)
    ensures NewlyEmitted(p.message.role, p.complete, Run(p).complete)
    ensures Reachable(Run(p), p.message.role)
    decreases |p.buffer|, Rank(p.message.state)
  {
    hide FirstLineStep;
    hide HeaderStep;
    hide BodyStep;
    hide Emitted;
    hide Sound;
    hide Traced;
    StepSound(p);
    StepTraces(p);
    StepKeepsRole(p);
    match Step(p)
    case Continue(q) =>
      RunEmits(q);
      if p.message.state == Complete {
        CompleteEmitted(p.message);
      }
    case Stop(q) => StopCompletesNothing(p);
    case Throw =>
  }

  lemma CompleteEmitted(m: Message)
    requires Traced(m) && m.state == Complete
    ensures Emitted(m.role, RecordOf(m))
  {
    hide IsLine;
    hide Framed;
  }

  lemma StopCompletesNothing(p: Parser)
    requires p.Running? && Step(p).Stop?
    ensures p.message.state != Complete
  {
  }

  /** What holds of a parser of this role between calls. */
  ghost predicate Reachable(p: Parser, role: Role)
  {
    p.Running? ==> Sound(p) && Traced(p.message) && p.message.role == role
  }

  lemma StepKeepsRole(p: Parser)
    requires p.Running?
    ensures !Step(p).Throw? ==> Step(p).next.message.role == p.message.role
  {
    hide Find;
    hide FramingOf;
    hide ParseHeader;
    hide ReadInBody;
    if p.message.state == BodyPending && ReadInBody(p.message, p.buffer).Took? {
      ReadKeepsRole(p.message, p.buffer);
    }
  }

  /** Responses are matched with requests in order: the i-th completed response carries the
      i-th request ever queued, the message in progress the next one, and the rest wait. */
  ghost predicate Paired(p: Parser, all: seq<Record>)
  {
    var n := |p.complete|;
    && n <= |all|
    && (forall i :: 0 <= i < n ==> p.complete[i].request == Some(all[i]))
    && (p.Running? && p.message.state == FirstLinePending ==> p.requests == all[n..])
    && (p.Running? && p.message.state != FirstLinePending ==>
          n < |all| && p.message.request == Some(all[n]) && p.requests == all[n + 1..])
  }

  lemma StepPairs(p: Parser, all: seq<Record>)
    requires p.Running? && p.message.role == Response && Paired(p, all)
    ensures !Step(p).Throw? ==> Paired(Step(p).next, all)
  {
    hide Find;
    hide FramingOf;
    hide ParseHeader;
    hide ReadInBody;
    if p.message.state == BodyPending && ReadInBody(p.message, p.buffer).Took? {
      ReadKeepsRequest(p.message, p.buffer);
    }
  }

  lemma ReadKeepsRequest(m: Message, input: string)
    requires m.state == BodyPending && ReadInBody(m, input).Took?
    ensures var t := ReadInBody(m, input).message;
      t.request == m.request && t.state != FirstLinePending
  {
    hide ChunkedBody.Read;
  }

  lemma {:induction false} RunPairs(p: Parser, all: seq<Record>)
    requires p.Running? && p.message.role == Response && Paired(p, all)
    ensures Paired(Run(p), all)
    decreases |p.buffer|, Rank(p.message.state)
  {
    hide FirstLineStep;
    hide HeaderStep;
    hide BodyStep;
    StepPairs(p, all);
    StepKeepsRole(p);
    if Step(p).Continue? {
      RunPairs(Step(p).next, all);
    }
  }

  /** Requests may be queued at any moment. */
  lemma ArrivalPairs(p: Parser, all: seq<Record>, r: Record)
    requires Paired(p, all)
    ensures Paired(NewRequestArrived(p, r), all + [r])
  {
  }

  /** An end of file leaves the message it completes with its request. */
  lemma EofPairs(p: Parser, all: seq<Record>)
    requires p.Running? && p.message.role == Response && Paired(p, all) && AtEof(p.message).Some?
    ensures Paired(p.(message := AtEof(p.message).value), all) && AtEof(p.message).value.role == Response
  {
  }

  /** ---- Runs ---- */

  /** What a connection hands the parser: bytes, or none at the end of file, and requests. */
  datatype Event = Feed(bytes: string) | Arrive(request: Record)

  function Handle(p: Parser, e: Event): Parser
  {
    match e
    case Feed(bytes) => Parse(p, bytes)
    case Arrive(r) => NewRequestArrived(p, r)
  }

  function RunEvents(p: Parser, events: seq<Event>): Parser
    decreases |events|
  {
    if events == [] then p else RunEvents(Handle(p, events[0]), events[1..])
  }

  function Arrivals(events: seq<Event>): seq<Record>
  {
    if events == [] then []
    else (if events[0].Arrive? then [events[0].request] else []) + Arrivals(events[1..])
  }

  /** The message in progress has a body that an end of file would complete. */
  predicate OpenBody(p: Parser)
  {
    p.Running? && p.message.state == BodyPending && (p.message.framing.ByChunks? || p.message.framing.UntilEof?)
  }

  /** No end of file comes while such a body is being read. */
  predicate CleanEnds(p: Parser, events: seq<Event>)
    decreases |events|
  {
    events == [] || ((events[0] == Feed("") ==> !OpenBody(p)) && CleanEnds(Handle(p, events[0]), events[1..]))
  }

  /** An open body is, so far, one that only an end of file can end here. */
  lemma OpenBodyRecord(m: Message)
    requires Traced(m) && m.state == BodyPending && (m.framing.ByChunks? || m.framing.UntilEof?)
    requires InProgress(m)
    ensures EndedByEof(m.role, RecordOf(m)) && !Emitted(m.role, RecordOf(m))
  {
    hide FramingOf;
    hide ChunkedBody.Read;
    hide IsLine;
    hide ReadHeaders;
  }

  /** An end of file during an open body completes it as it stands, however much of it is
      missing; any other end of file completes nothing. */
  lemma EofEmits(p: Parser)
    requires p.Running? && Reachable(p, p.message.role)
    ensures Reachable(Parse(p, ""), p.message.role)
    ensures OpenBody(p) ==> EndedByEof(p.message.role, RecordOf(p.message))
    ensures OpenBody(p) ==> !Emitted(p.message.role, RecordOf(p.message))
    ensures OpenBody(p) ==> NewlyEmitted(p.message.role, p.complete + [RecordOf(p.message)], Parse(p, "").complete)
    ensures !OpenBody(p) ==> NewlyEmitted(p.message.role, p.complete, Parse(p, "").complete)
  {
    hide Emitted;
    hide Run;
    hide Traced;
    hide EndedByEof;
    if OpenBody(p) {
      OpenBodyRecord(p.message);
      var q := p.(message := p.message.(state := Complete, framing := Unset));
      RunComplete(q);
      FreshTraced(p.message.role);
      RunEmits(CompleteStep(q));
    } else if p.message.state == FirstLinePending {
      RunEmits(p);
    }
  }

  lemma RunComplete(p: Parser)
    requires p.Running? && p.message.state == Complete
    ensures Run(p) == Run(CompleteStep(p))
  {
    assert Step(p) == Continue(CompleteStep(p));
  }

  lemma FreshTraced(role: Role)
    ensures Traced(NewMessage(role)) && InProgress(NewMessage(role))
  {
  }

  /** One event: what it adds to the completed messages. */
  lemma EventEmits(p: Parser, role: Role, e: Event)
    requires Reachable(p, role)
    ensures Reachable(Handle(p, e), role) && p.complete <= Handle(p, e).complete
    ensures !(e == Feed("") && OpenBody(p)) ==> NewlyEmitted(role, p.complete, Handle(p, e).complete)
    ensures e == Feed("") && OpenBody(p) ==>
      EndedByEof(role, RecordOf(p.message)) && !Emitted(role, RecordOf(p.message))
      && NewlyEmitted(role, p.complete + [RecordOf(p.message)], Handle(p, e).complete)
  {
    hide Emitted;
    hide EndedByEof;
    hide Traced;
    hide Run;
    hide EndOfFile;
    if p.Running? && e.Feed? {
      if e.bytes == "" {
        EofEmits(p);
      } else {
        RunEmits(Fed(p, e.bytes));
      }
    }
  }

  ghost predicate AllEmitted(role: Role, records: seq<Record>, from: nat)
  {
    forall i :: from <= i < |records| ==> Emitted(role, records[i])
  }

  ghost predicate AllAccounted(role: Role, records: seq<Record>, from: nat)
  {
    forall i :: from <= i < |records| ==> Emitted(role, records[i]) || EndedByEof(role, records[i])
  }

  /** Over any run, from any reachable state: everything completed has the body it announces or
      was ended by an end of file, and the first holds of all of it exactly when no end of file
      came during an open body. */
  lemma {:induction false} RunAccounts(p: Parser, role: Role, events: seq<Event>)
    requires Reachable(p, role)
    ensures var after := RunEvents(p, events).complete;
      && Reachable(RunEvents(p, events), role) && p.complete <= after
      && AllAccounted(role, after, |p.complete|)
      && (AllEmitted(role, after, |p.complete|) <==> CleanEnds(p, events))
    decreases |events|
  {
    hide Emitted;
    hide EndedByEof;
    hide Reachable;
    hide OpenBody;
    hide Handle;
    if events != [] {
      var q := Handle(p, events[0]);
      EventEmits(p, role, events[0]);
      RunAccounts(q, role, events[1..]);
      if events[0] == Feed("") && OpenBody(p) {
        OpenIsRunning(p);
        var r := RecordOf(p.message);
        assert q.complete[|p.complete|] == r;
        assert RunEvents(p, events).complete[|p.complete|] == r;
      }
    }
  }

  lemma OpenIsRunning(p: Parser)
    requires OpenBody(p)
    ensures p.Running?
  {
  }

  lemma InitialReachable(role: Role)
    ensures Reachable(Initial(role), role)
  {
    FreshTraced(role);
  }

  /** Over every run of bytes, ends of file and requests: each completed message has exactly the
      body it announces, or is a response that an end of file ended, cut short or not. The
      parser can be relied on for whole messages exactly when no end of file comes during a body
      whose length was not announced. */
  lemma StreamEmits(role: Role, events: seq<Event>)
    ensures var records := RunEvents(Initial(role), events).complete;
      && (forall i :: 0 <= i < |records| ==> Emitted(role, records[i]) || EndedByEof(role, records[i]))
      && ((forall i :: 0 <= i < |records| ==> Emitted(role, records[i])) <==> CleanEnds(Initial(role), events))
  {
    hide Emitted;
    hide EndedByEof;
    hide Reachable;
    hide CleanEnds;
    hide RunEvents;
    InitialReachable(role);
    RunAccounts(Initial(role), role, events);
  }

  /** Over every such run the i-th completed response carries the i-th request to arrive. */
  lemma StreamPairs(role: Role, events: seq<Event>)
    ensures Answers(role, RunEvents(Initial(role), events).complete, Arrivals(events))
  {
    if role == Response {
      RunEventsPairs(Initial(role), [], events);
      assert [] + Arrivals(events) == Arrivals(events);
    }
  }

  lemma {:induction false} RunEventsPairs(p: Parser, all: seq<Record>, events: seq<Event>)
    requires Paired(p, all) && (p.Running? ==> p.message.role == Response)
    ensures Paired(RunEvents(p, events), all + Arrivals(events))
    decreases |events|
  {
    hide Paired;
    hide Handle;
    if events == [] {
      assert all + [] == all;
    } else {
      var e := events[0];
      HandlePairs(p, all, e);
      var more := if e.Arrive? then all + [e.request] else all;
      RunEventsPairs(Handle(p, e), more, events[1..]);
      assert more + Arrivals(events[1..]) == all + Arrivals(events);
    }
  }

  lemma HandlePairs(p: Parser, all: seq<Record>, e: Event)
    requires Paired(p, all) && (p.Running? ==> p.message.role == Response)
    ensures Paired(Handle(p, e), if e.Arrive? then all + [e.request] else all)
    ensures Handle(p, e).Running? ==> Handle(p, e).message.role == Response
  {
    hide Run;
    if e.Arrive? {
      ArrivalPairs(p, all, e.request);
    } else if p.Running? {
      if e.bytes != "" {
        RunPairs(Fed(p, e.bytes), all);
        RunKeepsRole(Fed(p, e.bytes));
      } else if AtEof(p.message).Some? {
        EofPairs(p, all);
        var q := p.(message := AtEof(p.message).value);
        RunPairs(q, all);
        RunKeepsRole(q);
      }
    }
  }

  lemma {:induction false} RunKeepsRole(p: Parser)
    requires p.Running?
    ensures Run(p).Running? ==> Run(p).message.role == p.message.role
    decreases |p.buffer|, Rank(p.message.state)
  {
    hide FirstLineStep;
    hide HeaderStep;
    hide BodyStep;
    StepKeepsRole(p);
    if Step(p).Continue? {
      RunKeepsRole(Step(p).next);
    }
  }
}
