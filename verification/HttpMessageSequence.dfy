/** HTTPMessageSequence: the state machine that turns a byte stream into messages, as values,
    and its independence of how the stream is cut into fragments. */
module HttpMessageSequence {
  import opened Strings
  import opened HttpHeader
  import opened ChunkedBody
  import opened HttpMessage

  /** An exception or failed assertion leaves nothing but the messages already completed. */
  datatype Parser =
    | Running(
        buffer: string,           // bytes that have not been parsed yet
        message: Message,         // message_in_progress_
        complete: seq<Record>,    // complete_messages_
        requests: seq<Record>)    // requests_ of the response parser
    | Failure(complete: seq<Record>)

  function Initial(role: Role): Parser
  {
    Running("", NewMessage(role), [], [])
  }

  datatype StepResult = Continue(next: Parser) | Stop(next: Parser) | Throw

  /** initialize_new_message: a response takes the oldest unanswered request. */
  function InitializeNewMessage(p: Parser): Option<Parser>
    requires p.Running?
  {
    if p.message.role == Request then Some(p)
    else if p.requests == [] then None
    else Some(p.(message := p.message.(request := Some(p.requests[0])), requests := p.requests[1..]))
  }

  function FirstLineStep(p: Parser): (r: StepResult)
    requires p.Running?
    ensures r.Continue? ==> r.next.Running? && |r.next.buffer| < |p.buffer|
  {
    match Find(p.buffer, CRLF)
    case None => Stop(p)
    case Some(i) =>
      match InitializeNewMessage(p)
      case None => Throw
      case Some(q) => Continue(q.(message := WithFirstLine(q.message, p.buffer[..i]), buffer := p.buffer[i + 2..]))
  }

  function HeaderStep(p: Parser): (r: StepResult)
    requires p.Running?
    ensures r.Continue? ==> r.next.Running? && |r.next.buffer| < |p.buffer|
  {
    match Find(p.buffer, CRLF)
    case None => Stop(p)
    case Some(i) =>
      var line := p.buffer[..i];
      match if line == "" then WithoutMoreHeaders(p.message) else WithHeader(p.message, line)
      case None => Throw
      case Some(m) => Continue(p.(message := m, buffer := p.buffer[i + 2..]))
  }

  function BodyStep(p: Parser): (r: StepResult)
    requires p.Running?
    ensures r.Continue? ==> r.next.Running? && |r.next.buffer| <= |p.buffer| && r.next.message.state == Complete
    ensures r.Stop? ==> r.next.Running? && r.next.buffer == ""
  {
    match ReadInBody(p.message, p.buffer)
    case Refused => Throw
    case Took(m, n) =>
      var q := p.(message := m, buffer := p.buffer[n..]);
      if m.state == Complete then Continue(q) else Stop(q)
  }

  function CompleteStep(p: Parser): Parser
    requires p.Running?
  {
    p.(complete := p.complete + [RecordOf(p.message)], message := NewMessage(p.message.role))
  }

  /** parsing_step */
  function Step(p: Parser): (r: StepResult)
    requires p.Running?
    ensures r.Continue? ==> r.next.Running? && |r.next.buffer| <= |p.buffer|
    ensures r.Continue? && |r.next.buffer| == |p.buffer| ==> Rank(r.next.message.state) < Rank(p.message.state)
    ensures r.Stop? ==> r.next.Running?
  {
    match p.message.state
    case FirstLinePending => FirstLineStep(p)
    case HeadersPending => HeaderStep(p)
    case BodyPending => BodyStep(p)
    case Complete => Continue(CompleteStep(p))
  }

  /** A step that consumes no byte moves down this order. */
  function Rank(s: State): nat
  {
    match s
    case FirstLinePending => 0
    case HeadersPending => 0
    case BodyPending => 2
    case Complete => 1
  }

  /** Steps until one says to wait for more bytes. */
  function Run(p: Parser): (r: Parser)
    requires p.Running?
    decreases |p.buffer|, Rank(p.message.state)
  {
    match Step(p)
    case Continue(q) => Run(q)
    case Stop(q) => q
    case Throw => Failure(p.complete)
  }

  function Fed(p: Parser, bytes: string): Parser
    requires p.Running?
  {
    p.(buffer := p.buffer + bytes)
  }

  /** The effect of an end of file on the message in progress. */
  function EndOfFile(p: Parser): Parser
    requires p.Running?
  {
    match AtEof(p.message)
    case None => Failure(p.complete)
    case Some(m) => Run(p.(message := m))
  }

  /** parse: an empty string stands for the end of file. */
  function Parse(p: Parser, bytes: string): Parser
  {
    if p.Failure? then p
    else if bytes == "" then EndOfFile(p)
    else Run(Fed(p, bytes))
  }

  /** new_request_arrived */
  function NewRequestArrived(p: Parser, r: Record): Parser
  {
    if p.Failure? then p else p.(requests := p.requests + [r])
  }

  /** Reachable states: the message in progress keeps its own invariant. */
  ghost predicate Sound(p: Parser)
  {
    p.Running? ==>
      && InProgress(p.message)
      && (p.message.state != BodyPending && p.message.state != Complete ==> p.message.body == "")
  }

  /** ---- Fragmentation ---- */

  lemma LineSteps(p: Parser, t: string, i: nat)
    requires p.Running? && Find(p.buffer, CRLF) == Some(i)
    ensures Find(p.buffer + t, CRLF) == Some(i)
    ensures (p.buffer + t)[..i] == p.buffer[..i] && (p.buffer + t)[i + 2..] == p.buffer[i + 2..] + t
  {
    FindStable(p.buffer, t, CRLF);
  }

  lemma FirstLineStepAppend(p: Parser, t: string)
    requires p.Running? && !FirstLineStep(p).Stop?
    ensures FirstLineStep(p).Throw? ==> FirstLineStep(Fed(p, t)).Throw?
    ensures FirstLineStep(p).Continue? ==> FirstLineStep(Fed(p, t)) == Continue(Fed(FirstLineStep(p).next, t))
  {
    hide Find;
    LineSteps(p, t, Find(p.buffer, CRLF).value);
  }

  lemma HeaderStepAppend(p: Parser, t: string)
    requires p.Running? && !HeaderStep(p).Stop?
    ensures HeaderStep(p).Throw? ==> HeaderStep(Fed(p, t)).Throw?
    ensures HeaderStep(p).Continue? ==> HeaderStep(Fed(p, t)) == Continue(Fed(HeaderStep(p).next, t))
  {
    hide Find;
    hide WithoutMoreHeaders;
    hide WithHeader;
    LineSteps(p, t, Find(p.buffer, CRLF).value);
  }

  lemma BodyStepAppend(p: Parser, t: string)
    requires p.Running? && p.message.state == BodyPending && InProgress(p.message) && !BodyStep(p).Stop?
    ensures BodyStep(p).Throw? ==> BodyStep(Fed(p, t)).Throw?
    ensures BodyStep(p).Continue? ==> BodyStep(Fed(p, t)) == Continue(Fed(BodyStep(p).next, t))
  {
    hide ReadInBody;
    hide InProgress;
    ReadInBodySplit(p.message, p.buffer, t);
    var r := ReadInBody(p.message, p.buffer);
    if r.Took? {
      assert (p.buffer + t)[r.count..] == p.buffer[r.count..] + t;
    }
  }

  /** A step that does not wait is not affected by the bytes that follow. */
  lemma StepAppend(p: Parser, t: string)
    requires p.Running? && InProgress(p.message) && !Step(p).Stop?
    ensures Step(p).Throw? ==> Step(Fed(p, t)).Throw?
    ensures Step(p).Continue? ==> Step(Fed(p, t)) == Continue(Fed(Step(p).next, t))
  {
    hide FirstLineStep;
    hide HeaderStep;
    hide BodyStep;
    hide InProgress;
    match p.message.state
    case FirstLinePending => FirstLineStepAppend(p, t);
    case HeadersPending => HeaderStepAppend(p, t);
    case BodyPending => BodyStepAppend(p, t);
    case Complete =>
  }

  /** Every step keeps the reachable states. */
  lemma StepSound(p: Parser)
    requires p.Running? && Sound(p)
    ensures !Step(p).Throw? ==> Sound(Step(p).next)
  {
    hide Find;
    hide ReadInBody;
    hide WithHeader;
    hide FramingOf;
    match p.message.state
    case FirstLinePending =>
    case HeadersPending =>
      if WithoutMoreHeaders(p.message).Some? {
        FramingInProgress(p.message);
      }
      HeaderKeepsRest(p.message);
    case BodyPending =>
      ReadInBodySplit(p.message, p.buffer, "");
      ReadKeepsRest(p.message, p.buffer);
    case Complete =>
  }

  lemma HeaderKeepsRest(m: Message)
    ensures forall line :: WithHeader(m, line).Some? ==>
      WithHeader(m, line).value == m.(headers := WithHeader(m, line).value.headers)
  {
    hide ParseHeader;
  }

  lemma ReadKeepsRest(m: Message, input: string)
    requires m.state == BodyPending
    ensures ReadInBody(m, input).Took? ==> ReadInBody(m, input).message.state in {BodyPending, Complete}
  {
    hide ChunkedBody.Read;
  }

  /** Waiting for the rest of a body, then reading it, is reading the body at once. */
  lemma BodyStepWaits(p: Parser, t: string)
    requires p.Running? && p.message.state == BodyPending && InProgress(p.message) && Step(p).Stop?
    ensures Step(Fed(p, t)) == Step(Fed(Step(p).next, t))
  {
    hide ReadInBody;
    var q := Step(p).next;
    ReadInBodySplit(p.message, p.buffer, t);
    ReadKeepsRest(p.message, p.buffer);
    assert q.buffer + t == t;
    var second := ReadInBody(q.message, t);
    if second.Took? {
      assert (p.buffer + t)[|p.buffer| + second.count..] == t[second.count..];
    }
  }

  /** Running on, after waiting for more bytes, is running with the bytes there at once. */
  lemma {:induction false} RunAppend(p: Parser, t: string)
    requires p.Running? && Sound(p)
    ensures Run(p).Failure? ==> Run(Fed(p, t)) == Run(p)
    ensures Run(p).Running? ==> Sound(Run(p)) && Run(Fed(p, t)) == Run(Fed(Run(p), t))
    decreases |p.buffer|, Rank(p.message.state)
  {
    hide FirstLineStep;
    hide HeaderStep;
    hide BodyStep;
    StepSound(p);
    match Step(p)
    case Continue(q) =>
      StepAppend(p, t);
      RunAppend(q, t);
      StepComplete(p, t);
    case Throw =>
      StepAppend(p, t);
    case Stop(q) =>
      if p.message.state == BodyPending {
        BodyStepWaits(p, t);
        StepComplete(q, t);
        StopComplete(p);
      } else {
        LineStops(p);
      }
  }

  lemma StepComplete(p: Parser, t: string)
    requires p.Running?
    ensures Fed(p, t).complete == p.complete
  {
  }

  lemma StopComplete(p: Parser)
    requires p.Running? && p.message.state == BodyPending && Step(p).Stop?
    ensures Step(p).next.complete == p.complete
  {
    hide ReadInBody;
  }

  lemma LineStops(p: Parser)
    requires p.Running? && p.message.state != BodyPending && Step(p).Stop?
    ensures Step(p).next == p
  {
    hide Find;
  }

  /** Parsing `a` then `b` is parsing `a + b`. */
  lemma ParseSplit(p: Parser, a: string, b: string)
    requires Sound(p) && a != "" && b != ""
    ensures Sound(Parse(p, a)) && Parse(Parse(p, a), b) == Parse(p, a + b)
  {
    hide Run;
    if p.Running? {
      FedSound(p, a);
      RunAppend(Fed(p, a), b);
      assert p.buffer + a + b == p.buffer + (a + b);
    }
  }

  lemma FedSound(p: Parser, t: string)
    requires p.Running? && Sound(p)
    ensures Sound(Fed(p, t))
  {
  }

  /** parse, called on each fragment in turn. */
  function ParseAll(p: Parser, fragments: seq<string>): Parser
    decreases |fragments|
  {
    if fragments == [] then p else ParseAll(Parse(p, fragments[0]), fragments[1..])
  }

  ghost predicate NonEmpty(fragments: seq<string>)
  {
    forall i :: 0 <= i < |fragments| ==> fragments[i] != ""
  }

  /** However a byte string is cut into non-empty fragments, the parser ends in the state one
      parse of the whole leaves: same completed messages, same message in progress, same
      leftover bytes, same unanswered requests, same failure. */
  lemma {:induction false} FragmentationIndependence(p: Parser, fragments: seq<string>)
    requires Sound(p) && fragments != [] && NonEmpty(fragments)
    ensures Sound(ParseAll(p, fragments)) && ParseAll(p, fragments) == Parse(p, Concat(fragments))
    decreases |fragments|
  {
    hide Parse;
    var a, rest := fragments[0], fragments[1..];
    assert ParseAll(p, fragments) == ParseAll(Parse(p, a), rest);
    if rest == [] {
      assert Concat(fragments) == a + "" == a;
      ParseSplit(p, a, "x");
      assert ParseAll(Parse(p, a), rest) == Parse(p, a);
    } else {
      assert NonEmpty(rest) by { assert forall i :: 0 <= i < |rest| ==> rest[i] == fragments[i + 1]; }
      assert rest[0] != "" && Concat(rest) != "";
      ParseSplit(p, a, Concat(rest));
      FragmentationIndependence(Parse(p, a), rest);
    }
  }

  /** Two ways of cutting the same bytes cannot be told apart. */
  lemma SameForAllFragmentations(p: Parser, xs: seq<string>, ys: seq<string>)
    requires Sound(p) && xs != [] && ys != [] && NonEmpty(xs) && NonEmpty(ys) && Concat(xs) == Concat(ys)
    ensures ParseAll(p, xs) == ParseAll(p, ys)
  {
    hide Parse;
    FragmentationIndependence(p, xs);
    FragmentationIndependence(p, ys);
  }

  /** A request that arrives after some bytes were parsed could have arrived before them. */
  lemma ArrivalsCommute(p: Parser, bytes: string, r: Record)
    requires Parse(p, bytes).Running?
    ensures Parse(NewRequestArrived(p, r), bytes) == NewRequestArrived(Parse(p, bytes), r)
  {
    hide Run;
    if p.Running? {
      if bytes == "" {
        RunArrival(p.(message := AtEof(p.message).value), r);
      } else {
        RunArrival(Fed(p, bytes), r);
      }
    }
  }

  lemma StepArrival(p: Parser, r: Record)
    requires p.Running? && !Step(p).Throw?
    ensures var s, t := Step(p), Step(NewRequestArrived(p, r));
      t == if s.Continue? then Continue(NewRequestArrived(s.next, r)) else Stop(NewRequestArrived(s.next, r))
  {
    hide Find;
    hide ReadInBody;
    hide WithHeader;
    hide WithoutMoreHeaders;
  }

  lemma {:induction false} RunArrival(p: Parser, r: Record)
    requires p.Running? && Run(p).Running?
    ensures Run(NewRequestArrived(p, r)) == NewRequestArrived(Run(p), r)
    decreases |p.buffer|, Rank(p.message.state)
  {
    hide FirstLineStep;
    hide HeaderStep;
    hide BodyStep;
    StepArrival(p, r);
    if Step(p).Continue? {
      RunArrival(Step(p).next, r);
    }
  }
}
