/** Printing messages and parsing them back: the two are inverse over whole pipelines, in any
    fragmentation, and the parser emits nothing but messages that can be printed back. */
module HttpRoundTrip {
  import opened Strings
  import opened HttpHeader
  import ChunkedBody
  import opened HttpMessage
  import opened HttpMessageSequence

  function HeadersText(headers: seq<Header>): string
  {
    if headers == [] then "" else PrintHeader(headers[0]) + CRLF + HeadersText(headers[1..])
  }

  /** str */
  function Print(r: Record): string
  {
    r.firstLine + CRLF + (HeadersText(r.headers) + (CRLF + r.body))
  }

  /** str, appending header after header. */
  method Str(r: Record) returns (text: string)
    ensures text == Print(r)
  {
    text := r.firstLine + CRLF;
    for i := 0 to |r.headers|
      invariant text + HeadersText(r.headers[i..]) == r.firstLine + CRLF + HeadersText(r.headers)
    {
      assert r.headers[i..][1..] == r.headers[i + 1..];
      text := text + PrintHeader(r.headers[i]) + CRLF;
    }
    assert HeadersText(r.headers[|r.headers|..]) == "";
    assert Print(r) == r.firstLine + CRLF + HeadersText(r.headers) + CRLF + r.body;
    text := text + CRLF;
    text := text + r.body;
  }

  /** A header that prints on one line and splits at its own colon. */
  ghost predicate LinedHeader(h: Header)
  {
    ':' !in h.key && IsLine(h.key) && IsLine(h.value)
  }

  ghost predicate PrintableHeader(h: Header)
  {
    Printable(h) && IsLine(h.key) && IsLine(h.value)
  }

  ghost predicate AllLined(headers: seq<Header>)
  {
    forall i :: 0 <= i < |headers| ==> LinedHeader(headers[i])
  }

  ghost predicate AllPrintable(headers: seq<Header>)
  {
    forall i :: 0 <= i < |headers| ==> PrintableHeader(headers[i])
  }

  function RereadHeaders(headers: seq<Header>): (r: seq<Header>)
    ensures |r| == |headers| && forall i :: 0 <= i < |headers| ==> r[i] == RereadHeader(headers[i])
  {
    seq(|headers|, i requires 0 <= i < |headers| => RereadHeader(headers[i]))
  }

  /** What a printed message is read back as: itself, but for its blank header values. */
  function Reread(r: Record): Record
  {
    r.(headers := RereadHeaders(r.headers))
  }

  /** The body is the one the start line and the headers announce, by rules 1 to 3. */
  ghost predicate Framed(role: Role, r: Record)
  {
    match FramingOf(role, r.firstLine, r.headers, r.request)
    case None => false
    case Some(Unset) => false
    case Some(UntilEof) => false
    case Some(Known(n)) => |r.body| == n
    case Some(ByChunks(c)) => ChunkedBody.Read(c, r.body).outcome == ChunkedBody.Done(|r.body|)
  }

  /** The body is one that only the end of file ends: rule 5, or a chunked body cut short. */
  ghost predicate OpenEnded(r: Record)
  {
    match FramingOf(Response, r.firstLine, r.headers, r.request)
    case Some(UntilEof) => true
    case Some(ByChunks(c)) => ChunkedBody.Read(c, r.body).outcome == ChunkedBody.More
    case _ => false
  }

  ghost predicate PrintableRecord(role: Role, r: Record)
  {
    IsLine(r.firstLine) && AllPrintable(r.headers) && (r.request.Some? <==> role == Response) && Framed(role, r)
  }

  /** A message that can be printed and that is still framed as it is read back. */
  ghost predicate Rereadable(role: Role, r: Record)
  {
    IsLine(r.firstLine) && AllLined(r.headers) && (r.request.Some? <==> role == Response) && Framed(role, Reread(r))
  }

  lemma PrintableSame(headers: seq<Header>)
    requires AllPrintable(headers)
    ensures AllLined(headers) && RereadHeaders(headers) == headers
  {
    forall i | 0 <= i < |headers| ensures LinedHeader(headers[i]) && RereadHeader(headers[i]) == headers[i]
    {
      assert PrintableHeader(headers[i]);
      RereadSame(headers[i]);
    }
  }

  lemma PrintableRereadable(role: Role, r: Record)
    requires PrintableRecord(role, r)
    ensures Rereadable(role, r) && Reread(r) == r
  {
    hide IsLine;
    hide Framed;
    hide AllPrintable;
    hide AllLined;
    PrintableSame(r.headers);
  }

  lemma HeaderIsLine(h: Header)
    requires IsLine(h.key) && IsLine(h.value)
    ensures IsLine(PrintHeader(h))
  {
    var line := PrintHeader(h);
    assert line == h.key + (": " + h.value) == (h.key + ": ") + h.value;
    forall i ensures !OccursAt(line, CRLF, i)
    {
      if 0 <= i && i + 2 <= |line| {
        if i + 2 <= |h.key| {
          OccursInPrefix(h.key, ": " + h.value, CRLF, i);
        } else if i >= |h.key| + 2 {
          OccursInSuffix(h.key + ": ", h.value, CRLF, i);
        } else {
          assert line[i..i + 2][0] == line[i] && line[i..i + 2][1] == line[i + 1];
        }
      }
    }
  }

  /** ---- Parsing what was printed ---- */

  lemma LineRead(line: string, rest: string)
    requires IsLine(line)
    ensures var s := line + CRLF + rest;
      Find(s, CRLF) == Some(|line|) && s[..|line|] == line && s[|line| + 2..] == rest
  {
    FindLineEnd(line, rest);
  }

  lemma HeaderNotEmpty(h: Header)
    ensures PrintHeader(h) != ""
  {
  }

  function WithParsed(p: Parser, headers: seq<Header>, rest: string): Parser
    requires p.Running?
  {
    p.(buffer := rest, message := p.message.(headers := p.message.headers + headers))
  }

  lemma RunOneHeader(p: Parser, h: Header, after: string)
    requires p.Running? && p.message.state == HeadersPending && LinedHeader(h)
    requires p.buffer == PrintHeader(h) + CRLF + after
    ensures Step(p) == Continue(WithParsed(p, [RereadHeader(h)], after))
  {
    hide Find;
    hide IsLine;
    hide ParseHeader;
    hide RereadHeader;
    hide PrintHeader;
    HeaderIsLine(h);
    HeaderNotEmpty(h);
    LineRead(PrintHeader(h), after);
    ParsePrinted(h);
  }

  lemma {:induction false} RunHeaders(p: Parser, headers: seq<Header>, rest: string)
    requires p.Running? && p.message.state == HeadersPending && p.buffer == HeadersText(headers) + rest
    requires AllLined(headers)
    ensures Run(p) == Run(WithParsed(p, RereadHeaders(headers), rest))
    decreases |headers|
  {
    hide Step;
    hide LinedHeader;
    hide RereadHeader;
    hide PrintHeader;
    if headers == [] {
      assert p.buffer == rest && p.message.headers + [] == p.message.headers;
      assert RereadHeaders(headers) == [];
    } else {
      var h, tail := headers[0], headers[1..];
      var after := HeadersText(tail) + rest;
      assert p.buffer == PrintHeader(h) + CRLF + after;
      RunOneHeader(p, h, after);
      var q := WithParsed(p, [RereadHeader(h)], after);
      RunHeaders(q, tail, rest);
      RereadCons(p.message.headers, headers);
    }
  }

  lemma RereadCons(before: seq<Header>, headers: seq<Header>)
    requires headers != []
    ensures before + [RereadHeader(headers[0])] + RereadHeaders(headers[1..]) == before + RereadHeaders(headers)
  {
    hide RereadHeader;
    assert RereadHeaders(headers) == [RereadHeader(headers[0])] + RereadHeaders(headers[1..]);
  }

  lemma RunBlankLine(p: Parser, rest: string)
    requires p.Running? && p.message.state == HeadersPending && p.buffer == CRLF + rest
    requires WithoutMoreHeaders(p.message).Some?
    ensures Run(p) == Run(p.(buffer := rest, message := WithoutMoreHeaders(p.message).value))
  {
    hide Find;
    hide WithoutMoreHeaders;
    EmptyIsLine();
    LineRead("", rest);
    assert p.buffer == "" + CRLF + rest;
    assert Step(p) == Continue(p.(buffer := rest, message := WithoutMoreHeaders(p.message).value));
  }

  lemma EmptyIsLine()
    ensures IsLine("")
  {
  }

  lemma RunFirstLine(p: Parser, line: string, rest: string)
    requires p.Running? && p.message.state == FirstLinePending && p.buffer == line + CRLF + rest && IsLine(line)
    requires InitializeNewMessage(p).Some?
    ensures var q := InitializeNewMessage(p).value;
      Run(p) == Run(q.(buffer := rest, message := WithFirstLine(q.message, line)))
  {
    hide Find;
    LineRead(line, rest);
    var q := InitializeNewMessage(p).value;
    assert Step(p) == Continue(q.(buffer := rest, message := WithFirstLine(q.message, line)));
  }

  /** A body followed by anything is read to its exact end. */
  lemma BodyRead(m: Message, body: string, rest: string)
    requires m.state == BodyPending && m.body == ""
    requires Framed(m.role, Record(m.firstLine, m.headers, body, m.request))
    requires FramingOf(m.role, m.firstLine, m.headers, m.request) == Some(m.framing)
    ensures ReadInBody(m, body + rest) == Took(m.(body := body, state := Complete, framing := Unset), |body|)
  {
    hide ChunkedBody.Read;
    hide FramingOf;
    assert (body + rest)[..|body|] == body;
    assert "" + body == body;
    if m.framing.ByChunks? {
      FramingIsFresh(m.role, m.firstLine, m.headers, m.request);
      ChunkedBody.ReadSplit(m.framing.parser, body, rest);
    }
  }

  lemma FramingIsFresh(role: Role, firstLine: string, headers: seq<Header>, request: Option<Record>)
    ensures var f := FramingOf(role, firstLine, headers, request);
      f.Some? && f.value.ByChunks? ==>
        role == Response && ChunkedBody.AtRest(f.value.parser)
        && f.value.parser == ChunkedBody.Fresh(f.value.parser.trailers)
  {
    hide StatusCode;
    hide Lookup;
    hide EquivalentStrings;
    hide LastToken;
    hide ContentLength;
    match role
    case Request => ContentLengthKnown(headers);
    case Response => ContentLengthKnown(headers);
  }

  lemma ContentLengthKnown(headers: seq<Header>)
    ensures forall v :: ContentLength(v).Some? ==> ContentLength(v).value.Known?
  {
  }

  /** What is left of the request queue once n messages have begun. */
  function Unanswered(role: Role, requests: seq<Record>, n: nat): seq<Record>
    requires role == Response ==> n <= |requests|
  {
    if role == Response then requests[n..] else requests
  }

  /** The message whose headers have all been read, about to be framed. */
  function Announced(role: Role, r: Record): Message
  {
    Message(role, HeadersPending, r.firstLine, r.headers, "", Unset, r.request)
  }

  /** The start line and the headers of a printed message, read by a parser between messages. */
  lemma RunStart(p: Parser, role: Role, r: Record, rest: string)
    requires p.Running? && p.message == NewMessage(role) && p.buffer == Print(r) + rest
    requires IsLine(r.firstLine) && AllLined(r.headers) && (r.request.Some? <==> role == Response)
    requires role == Response ==> p.requests != [] && r.request == Some(p.requests[0])
    requires WithoutMoreHeaders(Announced(role, Reread(r))).Some?
    ensures Run(p) == Run(Running(r.body + rest, WithoutMoreHeaders(Announced(role, Reread(r))).value,
                                  p.complete, Unanswered(role, p.requests, 1)))
  {
    hide Step;
    hide WithoutMoreHeaders;
    hide IsLine;
    hide AllLined;
    var afterFirst := HeadersText(r.headers) + (CRLF + (r.body + rest));
    assert p.buffer == r.firstLine + CRLF + afterFirst;
    RunFirstLine(p, r.firstLine, afterFirst);
    var requests := Unanswered(role, p.requests, 1);
    var m := Message(role, HeadersPending, r.firstLine, [], "", Unset, r.request);
    var q := Running(afterFirst, m, p.complete, requests);
    assert Run(p) == Run(q);
    RunHeaders(q, r.headers, CRLF + (r.body + rest));
    assert [] + RereadHeaders(r.headers) == RereadHeaders(r.headers);
    RunBlankLine(Running(CRLF + (r.body + rest), Announced(role, Reread(r)), p.complete, requests), r.body + rest);
  }

  /** One printed message, read by a parser between messages. */
  lemma RunRecord(p: Parser, role: Role, r: Record, rest: string)
    requires p.Running? && p.message == NewMessage(role) && p.buffer == Print(r) + rest
    requires Rereadable(role, r)
    requires role == Response ==> p.requests != [] && r.request == Some(p.requests[0])
    ensures Run(p) == Run(Running(rest, NewMessage(role), p.complete + [Reread(r)], Unanswered(role, p.requests, 1)))
  {
    hide FramingOf;
    hide ReadInBody;
    hide IsLine;
    hide AllLined;
    hide Run;
    hide RereadHeaders;
    RunStart(p, role, r, rest);
    var m := WithoutMoreHeaders(Announced(role, Reread(r))).value;
    RunBody(Running(r.body + rest, m, p.complete, Unanswered(role, p.requests, 1)), Reread(r), rest);
  }

  lemma RunBody(p: Parser, r: Record, rest: string)
    requires p.Running? && p.message.state == BodyPending && p.message.body == "" && p.buffer == r.body + rest
    requires r == Record(p.message.firstLine, p.message.headers, r.body, p.message.request)
    requires FramingOf(p.message.role, r.firstLine, r.headers, r.request) == Some(p.message.framing)
    requires Framed(p.message.role, r)
    ensures Run(p) == Run(Running(rest, NewMessage(p.message.role), p.complete + [r], p.requests))
  {
    hide FramingOf;
    hide ReadInBody;
    hide Framed;
    BodyRead(p.message, r.body, rest);
    assert (r.body + rest)[|r.body|..] == rest;
    var q := p.(buffer := rest, message := p.message.(body := r.body, state := Complete, framing := Unset));
    assert Step(p) == Continue(q);
    assert Step(q) == Continue(CompleteStep(q));
  }

  /** A parser that has seen no byte yet, with these requests to match responses to. */
  function Awaiting(role: Role, requests: seq<Record>): Parser
  {
    Running("", NewMessage(role), [], requests)
  }

  function PrintAll(records: seq<Record>): string
  {
    if records == [] then "" else Print(records[0]) + PrintAll(records[1..])
  }

  function RereadAll(records: seq<Record>): (r: seq<Record>)
    ensures |r| == |records| && forall i :: 0 <= i < |records| ==> r[i] == Reread(records[i])
  {
    seq(|records|, i requires 0 <= i < |records| => Reread(records[i]))
  }

  ghost predicate AllRereadable(role: Role, records: seq<Record>)
  {
    forall i :: 0 <= i < |records| ==> Rereadable(role, records[i])
  }

  /** The i-th response answers the i-th request. */
  ghost predicate Answers(role: Role, records: seq<Record>, requests: seq<Record>)
  {
    role == Response ==>
      |records| <= |requests| && forall i :: 0 <= i < |records| ==> records[i].request == Some(requests[i])
  }

  lemma {:induction false} RunPipeline(p: Parser, role: Role, records: seq<Record>, rest: string)
    requires p.Running? && p.message == NewMessage(role) && p.buffer == PrintAll(records) + rest
    requires AllRereadable(role, records) && Answers(role, records, p.requests)
    ensures Run(p) == Run(Running(rest, NewMessage(role), p.complete + RereadAll(records),
                                  Unanswered(role, p.requests, |records|)))
    decreases |records|
  {
    hide Print;
    hide Rereadable;
    hide Run;
    hide Reread;
    if records == [] {
      assert p.complete + RereadAll(records) == p.complete && p.buffer == rest;
    } else {
      var r, tail := records[0], records[1..];
      assert p.buffer == Print(r) + (PrintAll(tail) + rest);
      RunRecord(p, role, r, PrintAll(tail) + rest);
      var requests := Unanswered(role, p.requests, 1);
      var q := Running(PrintAll(tail) + rest, NewMessage(role), p.complete + [Reread(r)], requests);
      TailAnswers(role, records, p.requests);
      RunPipeline(q, role, tail, rest);
      assert RereadAll(records) == [Reread(r)] + RereadAll(tail);
      assert p.complete + [Reread(r)] + RereadAll(tail) == p.complete + RereadAll(records);
    }
  }

  lemma NothingToRead(p: Parser)
    requires p.Running? && p.message.state == FirstLinePending && p.buffer == ""
    ensures Run(p) == p
  {
    assert Step(p) == Stop(p);
  }

  lemma TailAnswers(role: Role, records: seq<Record>, requests: seq<Record>)
    requires records != [] && Answers(role, records, requests)
    ensures Answers(role, records[1..], Unanswered(role, requests, 1))
  {
    if role == Response {
      forall i | 0 <= i < |records| - 1 ensures records[1..][i].request == Some(requests[1..][i])
      {
        assert records[1..][i] == records[i + 1] && requests[1..][i] == requests[i + 1];
      }
    }
  }

  /** The bytes of non-empty fragments, given to a fresh parser, are one parse of them all. */
  lemma FeedAll(role: Role, requests: seq<Record>, fragments: seq<string>)
    requires fragments != [] && NonEmpty(fragments)
    ensures ParseAll(Awaiting(role, requests), fragments)
         == Run(Running(ChunkedBody.Concat(fragments), NewMessage(role), [], requests))
  {
    hide Run;
    FragmentationIndependence(Awaiting(role, requests), fragments);
    var text := ChunkedBody.Concat(fragments);
    assert text != "" by { assert fragments[0] != ""; }
    assert "" + text == text;
  }

  /** What any fragmentation of printed messages is read back as: the messages in order, each
      response with its request, with every blank header value one space longer. */
  lemma PipelineReread(role: Role, records: seq<Record>, requests: seq<Record>, fragments: seq<string>)
    requires AllRereadable(role, records) && Answers(role, records, requests)
    requires fragments != [] && NonEmpty(fragments) && ChunkedBody.Concat(fragments) == PrintAll(records)
    ensures ParseAll(Awaiting(role, requests), fragments)
         == Running("", NewMessage(role), RereadAll(records), Unanswered(role, requests, |records|))
  {
    hide Run;
    hide Step;
    hide Reread;
    hide Print;
    hide Rereadable;
    FeedAll(role, requests, fragments);
    var text := PrintAll(records);
    assert text + "" == text && [] + RereadAll(records) == RereadAll(records);
    RunPipeline(Running(text, NewMessage(role), [], requests), role, records, "");
    NothingToRead(Running("", NewMessage(role), RereadAll(records), Unanswered(role, requests, |records|)));
  }

  lemma AllPrintableSame(role: Role, records: seq<Record>)
    requires forall i :: 0 <= i < |records| ==> PrintableRecord(role, records[i])
    ensures AllRereadable(role, records) && RereadAll(records) == records
  {
    hide Rereadable;
    hide Reread;
    hide PrintableRecord;
    forall i | 0 <= i < |records| ensures Rereadable(role, records[i]) && Reread(records[i]) == records[i]
    {
      PrintableRereadable(role, records[i]);
    }
  }

  /** Parsing any fragmentation of the printed messages, with the requests they answer already
      there, gives back exactly those messages in order, each response with its request, and
      leaves nothing in the buffer. */
  lemma PipelineRoundTrip(role: Role, records: seq<Record>, requests: seq<Record>, fragments: seq<string>)
    requires forall i :: 0 <= i < |records| ==> PrintableRecord(role, records[i])
    requires Answers(role, records, requests)
    requires fragments != [] && NonEmpty(fragments) && ChunkedBody.Concat(fragments) == PrintAll(records)
    ensures ParseAll(Awaiting(role, requests), fragments)
         == Running("", NewMessage(role), records, Unanswered(role, requests, |records|))
  {
    hide ParseAll;
    hide PrintableRecord;
    hide Rereadable;
    AllPrintableSame(role, records);
    PipelineReread(role, records, requests, fragments);
  }

  /** ---- The end of file ---- */

  /** The response being read when only the end of file can end its body. */
  lemma RunOpenBody(p: Parser, r: Record)
    requires p.Running? && p.message.state == BodyPending && p.message.body == "" && p.buffer == r.body
    requires p.message.role == Response
    requires r == Record(p.message.firstLine, p.message.headers, r.body, p.message.request)
    requires FramingOf(Response, r.firstLine, r.headers, r.request) == Some(p.message.framing)
    requires OpenEnded(r)
    ensures Run(p).Running? && EndOfFile(Run(p)) == Running("", NewMessage(Response), p.complete + [r], p.requests)
  {
    hide FramingOf;
    hide ChunkedBody.Read;
    assert "" + r.body == r.body;
    var t := ReadInBody(p.message, p.buffer).message;
    assert r.body[|r.body|..] == "";
    assert Step(p) == Stop(p.(buffer := "", message := t));
    hide ReadInBody;
    RunCompleted(Running("", t.(state := Complete, framing := Unset), p.complete, p.requests));
  }

  lemma RunCompleted(q: Parser)
    requires q.Running? && q.message.state == Complete && q.buffer == ""
    ensures Run(q) == CompleteStep(q)
  {
    assert Step(q) == Continue(CompleteStep(q));
    NothingToRead(CompleteStep(q));
  }

  lemma RunOpenEnded(p: Parser, r: Record)
    requires p.Running? && p.message == NewMessage(Response) && p.buffer == Print(r)
    requires IsLine(r.firstLine) && AllPrintable(r.headers) && OpenEnded(r)
    requires p.requests != [] && r.request == Some(p.requests[0])
    ensures Run(p).Running? && EndOfFile(Run(p)) == Running("", NewMessage(Response), p.complete + [r], p.requests[1..])
  {
    hide FramingOf;
    hide IsLine;
    hide AllPrintable;
    hide AllLined;
    hide Run;
    hide EndOfFile;
    PrintableSame(r.headers);
    assert Reread(r) == r;
    assert Print(r) + "" == Print(r) && r.body + "" == r.body;
    RunStart(p, Response, r, "");
    var m := WithoutMoreHeaders(Announced(Response, r)).value;
    RunOpenBody(Running(r.body, m, p.complete, p.requests[1..]), r);
  }

  /** A pipeline that ends in a response whose body only the end of file ends, be it a response
      of rule 5 or a chunked one cut short, comes back whole once the end of file follows. */
  lemma EndOfFileRoundTrip(records: seq<Record>, r: Record, requests: seq<Record>, fragments: seq<string>)
    requires forall i :: 0 <= i < |records| ==> PrintableRecord(Response, records[i])
    requires IsLine(r.firstLine) && AllPrintable(r.headers) && OpenEnded(r)
    requires Answers(Response, records + [r], requests)
    requires fragments != [] && NonEmpty(fragments)
    requires ChunkedBody.Concat(fragments) == PrintAll(records) + Print(r)
    ensures Parse(ParseAll(Awaiting(Response, requests), fragments), "")
         == Running("", NewMessage(Response), records + [r], requests[|records| + 1..])
  {
    hide Run;
    hide EndOfFile;
    hide Step;
    hide Print;
    hide PrintableRecord;
    hide Rereadable;
    hide OpenEnded;
    hide Reread;
    FeedAll(Response, requests, fragments);
    var n := |records|;
    assert (records + [r])[n] == r;
    assert Answers(Response, records, requests) by {
      assert forall i :: 0 <= i < n ==> (records + [r])[i] == records[i];
    }
    AllPrintableSame(Response, records);
    var p := Running(ChunkedBody.Concat(fragments), NewMessage(Response), [], requests);
    RunPipeline(p, Response, records, Print(r));
    assert [] + records == records;
    RunOpenEnded(Running(Print(r), NewMessage(Response), records, requests[n..]), r);
    assert requests[n..][1..] == requests[n + 1..];
  }
}
