/** HTTPMessageSequence as the object the proxy feeds, for requests or for responses. */
module HttpMessageSequenceObject {
  import opened Strings
  import ChunkedBody
  import opened HttpMessage
  import opened HttpMessageObject
  import opened HttpMessageSequence

  /** Between calls no complete line is left unread and no body byte is left unparsed. */
  ghost predicate Idle(p: Parser)
  {
    p.Running? ==> match p.message.state
      case FirstLinePending => Find(p.buffer, CRLF).None?
      case HeadersPending => Find(p.buffer, CRLF).None?
      case BodyPending => p.buffer == ""
      case Complete => false
  }

  lemma {:induction false} RunIdles(p: Parser)
    requires p.Running?
    ensures Idle(Run(p))
    decreases |p.buffer|, Rank(p.message.state)
  {
    hide FirstLineStep;
    hide HeaderStep;
    hide BodyStep;
    match Step(p)
    case Continue(q) => RunIdles(q);
    case Throw =>
    case Stop(q) => StopIdles(p);
  }

  lemma StopIdles(p: Parser)
    requires p.Running? && Step(p).Stop?
    ensures Idle(Step(p).next)
  {
    hide Find;
    hide ReadInBody;
    if p.message.state == BodyPending {
      ReadKeepsRest(p.message, p.buffer);
    }
  }

  /** The first step on new bytes leaves no more than those bytes in the buffer. */
  lemma StepReachesInput(p: Parser, bytes: string)
    requires p.Running? && Idle(p)
    ensures p.message.state == BodyPending ==> p.buffer == ""
    ensures Step(Fed(p, bytes)).Continue? ==> |Step(Fed(p, bytes)).next.buffer| <= |bytes|
  {
    hide ReadInBody;
    hide WithHeader;
    hide WithoutMoreHeaders;
    if p.message.state != BodyPending && Find(p.buffer + bytes, CRLF).Some? {
      FindBeyond(p.buffer, bytes, CRLF);
    }
  }

  /** Only the bytes of this call can still be in the buffer once a line has been read. */
  ghost predicate Bounded(p: Parser, limit: nat)
  {
    p.Running? &&
    (|p.buffer| <= limit ||
     (p.message.state != BodyPending && (Step(p).Continue? ==> |Step(p).next.buffer| <= limit)))
  }

  lemma EndOfFileReaches(p: Parser)
    requires p.Running? && Idle(p) && Sound(p)
    ensures AtEof(p.message).Some? ==>
      var q := p.(message := AtEof(p.message).value);
      Sound(q) && (|q.buffer| == 0 || (q.message.state != BodyPending && !Step(q).Continue?))
  {
    hide Find;
  }

  lemma StepKeeps(p: Parser, limit: nat)
    requires p.Running? && Sound(p) && Bounded(p, limit)
    ensures !Step(p).Throw? ==> Sound(Step(p).next)
    ensures Step(p).Continue? ==> Bounded(Step(p).next, limit)
    ensures p.message.state == BodyPending ==> |p.buffer| <= limit
    ensures Sound(Parser.Failure(p.complete))
  {
    hide FirstLineStep;
    hide HeaderStep;
    hide BodyStep;
    StepSound(p);
  }

  class MessageSequence {
    const role: Role
    var buffer: string
    var completeMessages: seq<Record>
    var requests: seq<Record>
    var message: MessageObject
    var failed: bool    // an exception has left parse

    function Repr(): set<object>
      reads this, message
    {
      {this} + message.Repr()
    }

    function Model(): Parser
      reads this, message, message.chunkedParser
    {
      if failed then Failure(completeMessages)
      else Running(buffer, message.Model(), completeMessages, requests)
    }

    ghost predicate Shape()
      reads this, message, message.chunkedParser
    {
      && this !in message.Repr()
      && (!failed ==> message.Valid() && message.role == role)
    }

    ghost predicate Valid()
      reads this, message, message.chunkedParser
    {
      Shape() && Sound(Model()) && Idle(Model())
    }

    constructor (role: Role)
      ensures Valid() && Model() == Initial(role) && fresh(Repr())
    {
      this.role := role;
      buffer, completeMessages, requests, failed := "", [], [], false;
      message := new MessageObject(role);
    }

    method NewRequestArrived(r: Record)
      requires Valid()
      modifies this`requests
      ensures Valid() && Model() == HttpMessageSequence.NewRequestArrived(old(Model()), r)
    {
      hide Find;
      requests := requests + [r];
    }

    /** Callers take the completed messages off the front. */
    method Pop() returns (r: Record)
      requires Valid() && completeMessages != []
      modifies this`completeMessages
      ensures Valid() && [r] + completeMessages == old(completeMessages)
      ensures Model() == old(Model()).(complete := completeMessages)
    {
      hide Find;
      r := completeMessages[0];
      completeMessages := completeMessages[1..];
    }

    /** The object after one parsing_step that began as `before`. */
    ghost predicate StepTaken(before: Parser, goOn: bool)
      requires before.Running?
      reads this, message, message.chunkedParser
    {
      match Step(before)
      case Continue(q) => goOn && !failed && Model() == q
      case Stop(q) => !goOn && !failed && Model() == q
      case Throw => !goOn && Model() == Failure(before.complete)
    }

    method GetAndPopLine() returns (line: string)
      requires Find(buffer, CRLF).Some?
      modifies this`buffer
      ensures Find(old(buffer), CRLF) == Some(|line|)
      ensures line == old(buffer)[..|line|] && buffer == old(buffer)[|line| + 2..]
    {
      hide Find;
      var end := Find(buffer, CRLF).value;
      line := buffer[..end];
      buffer := buffer[end + 2..];
    }

    method FirstLine() returns (goOn: bool)
      requires Shape() && !failed && message.state == FirstLinePending
      modifies this, message
      ensures Shape() && Repr() == old(Repr()) && StepTaken(old(Model()), goOn)
    {
      hide Find;
      if Find(buffer, CRLF).None? {
        return false;
      }
      if role == Response {
        if requests == [] {
          failed := true;
          return false;
        }
        message.SetRequest(requests[0]);
        requests := requests[1..];
      }
      var line := GetAndPopLine();
      message.SetFirstLine(line);
      goOn := true;
    }

    method Headers() returns (goOn: bool)
      requires Shape() && !failed && message.state == HeadersPending
      modifies this, message
      ensures Shape() && fresh(Repr() - old(Repr())) && StepTaken(old(Model()), goOn)
    {
      hide Find;
      hide WithHeader;
      hide WithoutMoreHeaders;
      if Find(buffer, CRLF).None? {
        return false;
      }
      var line := GetAndPopLine();
      if line == "" {
        goOn := message.DoneWithHeaders();
      } else {
        goOn := message.AddHeader(line);
      }
      failed := !goOn;
    }

    method Body() returns (goOn: bool)
      requires Shape() && !failed && message.state == BodyPending && |buffer| < ChunkedBody.OVERSIZE
      modifies Repr()
      ensures Shape() && Repr() == old(Repr()) && StepTaken(old(Model()), goOn)
    {
      hide ReadInBody;
      ReadKeepsRest(message.Model(), buffer);
      var bytesRead := message.ReadBody(buffer);
      if bytesRead.None? {
        failed := true;
        return false;
      }
      assert bytesRead.value == |buffer| || message.state == Complete;
      buffer := buffer[bytesRead.value..];
      goOn := message.state == Complete;
    }

    /** parsing_step */
    method ParsingStep() returns (goOn: bool)
      requires Shape() && !failed && (message.state == BodyPending ==> |buffer| < ChunkedBody.OVERSIZE)
      modifies Repr()
      ensures Shape() && fresh(Repr() - old(Repr())) && StepTaken(old(Model()), goOn)
    {
      hide FirstLineStep;
      hide HeaderStep;
      hide BodyStep;
      match message.state
      case FirstLinePending =>
        goOn := FirstLine();
      case HeadersPending =>
        goOn := Headers();
      case BodyPending =>
        goOn := Body();
      case Complete =>
        completeMessages := completeMessages + [RecordOf(message.Model())];
        message := new MessageObject(role);
        goOn := true;
    }

    /** parse. Every caller passes fragments far shorter than 4 GiB. */
    method Parse(bytes: string)
      requires Valid() && |bytes| < ChunkedBody.OVERSIZE
      modifies Repr()
      ensures Valid() && fresh(Repr() - old(Repr()))
      ensures Model() == HttpMessageSequence.Parse(old(Model()), bytes)
    {
      hide Find;
      hide Run;
      hide Step;
      if failed {
        return;
      }
      if bytes == "" {
        EndOfFileReaches(Model());
        var ok := message.Eof();
        if !ok {
          failed := true;
          return;
        }
      } else {
        StepReachesInput(Model(), bytes);
        buffer := buffer + bytes;
      }
      RunToRest(|bytes|);
    }

    /** The loop of parse. */
    method RunToRest(ghost limit: nat)
      requires Shape() && !failed && Sound(Model()) && Bounded(Model(), limit) && limit < ChunkedBody.OVERSIZE
      modifies Repr()
      ensures Valid() && fresh(Repr() - old(Repr()))
      ensures Model() == Run(old(Model()))
    {
      hide Step;
      hide Idle;
      hide Sound;
      ghost var start := Model();
      RunIdles(start);
      var goOn := true;
      while goOn
        invariant Shape() && fresh(Repr() - old(Repr())) && Sound(Model())
        invariant goOn ==> !failed && Bounded(Model(), limit) && Run(Model()) == Run(start)
        invariant !goOn ==> Model() == Run(start)
        decreases goOn, |buffer|, Rank(message.state)
      {
        StepKeeps(Model(), limit);
        goOn := ParsingStep();
      }
    }
  }
}
