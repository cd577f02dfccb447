/** Whole connections: messages as they are written on the wire, cut into any fragments, read by
    a fresh parser; what completes, what fails, and what an end of file does. */
module HttpWritten {
  import opened Strings
  import opened Ezio
  import opened Tokenize
  import opened HttpHeader
  import ChunkedBody
  import opened HttpMessage
  import opened HttpMessageSequence
  import opened HttpRoundTrip
  import opened HttpFraming

  /** ---- Requests ---- */

  lemma Verb(verb: string, target: string)
    requires verb in ["GET ", "HEAD ", "POST "]
    ensures var line := verb + target;
      && ("GET " <= line <==> verb == "GET ") && ("HEAD " <= line <==> verb == "HEAD ")
      && ("POST " <= line <==> verb == "POST ")
  {
    var line := verb + target;
    assert verb <= line;
    assert line[0] == verb[0];
  }

  /** A GET request with any target and any printable headers, a Content-Length among them or not,
      survives printing and parsing. */
  lemma GetPrintable(target: string, headers: seq<Header>)
    requires IsLine("GET " + target) && AllPrintable(headers)
    ensures PrintableRecord(Request, Record("GET " + target, headers, "", None))
  {
    hide IsLine;
    hide AllPrintable;
    Verb("GET ", target);
    SizedPrintable(Request, "GET " + target, headers, "", None);
  }

  /** So does a HEAD request. */
  lemma HeadPrintable(target: string, headers: seq<Header>)
    requires IsLine("HEAD " + target) && AllPrintable(headers)
    ensures PrintableRecord(Request, Record("HEAD " + target, headers, "", None))
  {
    hide IsLine;
    hide AllPrintable;
    Verb("HEAD ", target);
    SizedPrintable(Request, "HEAD " + target, headers, "", None);
  }

  /** A whole connection that carries one GET or HEAD request. */
  lemma BodilessRequest(verb: string, target: string, headers: seq<Header>, fragments: seq<string>)
    requires verb in ["GET ", "HEAD "] && IsLine(verb + target) && AllPrintable(headers)
    requires fragments != [] && NonEmpty(fragments)
    requires ChunkedBody.Concat(fragments) == Print(Record(verb + target, headers, "", None))
    ensures ParseAll(Awaiting(Request, []), fragments)
         == Running("", NewMessage(Request), [Record(verb + target, headers, "", None)], [])
  {
    hide IsLine;
    hide AllPrintable;
    hide PrintableRecord;
    hide ParseAll;
    hide Print;
    if verb == "GET " {
      GetPrintable(target, headers);
    } else {
      HeadPrintable(target, headers);
    }
    OneMessage(Request, Record(verb + target, headers, "", None), [], fragments);
  }

  lemma OneMessage(role: Role, r: Record, requests: seq<Record>, fragments: seq<string>)
    requires PrintableRecord(role, r) && Answers(role, [r], requests)
    requires fragments != [] && NonEmpty(fragments) && ChunkedBody.Concat(fragments) == Print(r)
    ensures ParseAll(Awaiting(role, requests), fragments)
         == Running("", NewMessage(role), [r], Unanswered(role, requests, 1))
  {
    hide PrintableRecord;
    hide ParseAll;
    hide Print;
    assert PrintAll([r]) == Print(r) by { assert Print(r) + "" == Print(r); }
    PipelineRoundTrip(role, [r], requests, fragments);
  }

  /** ---- Messages that are refused ---- */

  lemma RunRefused(p: Parser, role: Role, r: Record, rest: string)
    requires p.Running? && p.message == NewMessage(role) && p.buffer == Print(r) + rest
    requires IsLine(r.firstLine) && AllPrintable(r.headers) && (r.request.Some? <==> role == Response)
    requires role == Response ==> p.requests != [] && r.request == Some(p.requests[0])
    requires FramingOf(role, r.firstLine, r.headers, r.request).None?
    ensures Run(p) == Failure(p.complete)
  {
    hide Step;
    hide FramingOf;
    hide IsLine;
    hide AllLined;
    hide AllPrintable;
    var after := CRLF + (r.body + rest);
    assert p.buffer == r.firstLine + CRLF + (HeadersText(r.headers) + after);
    RunFirstLine(p, r.firstLine, HeadersText(r.headers) + after);
    var requests := Unanswered(role, p.requests, 1);
    var m := Message(role, HeadersPending, r.firstLine, [], "", Unset, r.request);
    PrintableSame(r.headers);
    RunHeaders(Running(HeadersText(r.headers) + after, m, p.complete, requests), r.headers, after);
    assert [] + r.headers == r.headers;
    BlankLineRefused(Running(after, Announced(role, r), p.complete, requests), r.body + rest);
  }

  lemma BlankLineRefused(p: Parser, rest: string)
    requires p.Running? && p.message.state == HeadersPending && p.buffer == CRLF + rest
    requires WithoutMoreHeaders(p.message).None?
    ensures Run(p) == Failure(p.complete)
  {
    hide Find;
    hide WithoutMoreHeaders;
    EmptyIsLine();
    LineRead("", rest);
    assert p.buffer == "" + CRLF + rest;
    assert Step(p) == Throw;
  }

  /** A message that cannot be framed fails the connection, after the messages before it have been
      completed. */
  lemma Refused(role: Role, records: seq<Record>, r: Record, rest: string, requests: seq<Record>,
                fragments: seq<string>)
    requires forall i :: 0 <= i < |records| ==> PrintableRecord(role, records[i])
    requires IsLine(r.firstLine) && AllPrintable(r.headers) && (r.request.Some? <==> role == Response)
    requires Answers(role, records + [r], requests)
    requires FramingOf(role, r.firstLine, r.headers, r.request).None?
    requires fragments != [] && NonEmpty(fragments)
    requires ChunkedBody.Concat(fragments) == PrintAll(records) + (Print(r) + rest)
    ensures ParseAll(Awaiting(role, requests), fragments) == Failure(records)
  {
    hide Run;
    hide Print;
    hide FramingOf;
    hide IsLine;
    hide AllPrintable;
    hide PrintableRecord;
    AfterPipeline(role, records, r, Print(r) + rest, requests, fragments);
    var p := Running(Print(r) + rest, NewMessage(role), records, Unanswered(role, requests, |records|));
    RunRefused(p, role, r, rest);
  }

  /** The messages before the last have been completed, and it is next. */
  lemma AfterPipeline(role: Role, records: seq<Record>, r: Record, text: string, requests: seq<Record>,
                      fragments: seq<string>)
    requires forall i :: 0 <= i < |records| ==> PrintableRecord(role, records[i])
    requires Answers(role, records + [r], requests)
    requires fragments != [] && NonEmpty(fragments) && ChunkedBody.Concat(fragments) == PrintAll(records) + text
    ensures Answers(role, records, requests)
    ensures role == Response ==> |records| < |requests| && r.request == Some(requests[|records|])
    ensures ParseAll(Awaiting(role, requests), fragments)
         == Run(Running(text, NewMessage(role), records, Unanswered(role, requests, |records|)))
  {
    hide Run;
    hide Print;
    hide PrintAll;
    hide Reread;
    hide Rereadable;
    hide PrintableRecord;
    var n := |records|;
    assert (records + [r])[n] == r;
    assert Answers(role, records, requests) by {
      assert forall i :: 0 <= i < n ==> (records + [r])[i] == records[i];
    }
    FeedAll(role, requests, fragments);
    AllPrintableSame(role, records);
    RunPipeline(Running(ChunkedBody.Concat(fragments), NewMessage(role), [], requests), role, records, text);
    assert [] + records == records;
  }

  /** A request of any other method fails after its headers, whatever they are. */
  lemma UnknownMethod(line: string, headers: seq<Header>, rest: string, records: seq<Record>,
                      fragments: seq<string>)
    requires !("GET " <= line) && !("HEAD " <= line) && !("POST " <= line)
    requires IsLine(line) && AllPrintable(headers)
    requires forall i :: 0 <= i < |records| ==> PrintableRecord(Request, records[i])
    requires fragments != [] && NonEmpty(fragments)
    requires ChunkedBody.Concat(fragments) == PrintAll(records) + (Print(Record(line, headers, "", None)) + rest)
    ensures ParseAll(Awaiting(Request, []), fragments) == Failure(records)
  {
    hide Print;
    hide PrintableRecord;
    hide ParseAll;
    hide IsLine;
    hide AllPrintable;
    Refused(Request, records, Record(line, headers, "", None), rest, [], fragments);
  }

  /** A POST request fails when its length is missing or is not a number. */
  lemma PostWithoutLength(target: string, headers: seq<Header>, rest: string, records: seq<Record>,
                          fragments: seq<string>)
    requires IsLine("POST " + target) && AllPrintable(headers)
    requires Lookup(headers, "Content-Length").Some? ==> NoNumber(Lookup(headers, "Content-Length").value)
    requires forall i :: 0 <= i < |records| ==> PrintableRecord(Request, records[i])
    requires fragments != [] && NonEmpty(fragments)
    requires ChunkedBody.Concat(fragments)
          == PrintAll(records) + (Print(Record("POST " + target, headers, "", None)) + rest)
    ensures ParseAll(Awaiting(Request, []), fragments) == Failure(records)
  {
    hide Print;
    hide PrintableRecord;
    hide ParseAll;
    hide IsLine;
    hide AllPrintable;
    hide NoNumber;
    hide Lookup;
    Verb("POST ", target);
    if Lookup(headers, "Content-Length").Some? {
      NotALength(Lookup(headers, "Content-Length").value);
    }
    Refused(Request, records, Record("POST " + target, headers, "", None), rest, [], fragments);
  }

  /** Not a decimal number in the range of a long. */
  ghost predicate NoNumber(value: string)
  {
    forall v :: !Written(value, 10, v)
  }

  lemma NotALength(value: string)
    requires NoNumber(value)
    ensures ContentLength(value).None?
  {
    hide Myatoi;
    hide Written;
    if Myatoi(value, 10).Some? {
      MyatoiExact(value, 10, Myatoi(value, 10).value);
    }
  }

  /** ---- Responses ---- */

  /** A status line whose code lets the response have a body. */
  ghost predicate BodyStatus(version: string, code: string, reason: string)
  {
    && ' ' !in version && ' ' !in code && code != "" && code[0] != '1' && code != "204" && code != "304"
    && IsLine(version + " " + (code + " " + reason))
  }

  /** Neither chunked coding nor, without any coding, a Content-Length says where the body ends. */
  ghost predicate NoLength(headers: seq<Header>, codings: seq<string>, last: string)
  {
    match Lookup(headers, "Transfer-Encoding")
    case None => Lookup(headers, "Content-Length").None?
    case Some(value) =>
      && value == Join(codings + [last], ",") && !SameName(last, "chunked")
      && ',' !in last && forall t :: t in codings ==> ',' !in t
  }

  /** The type a Content-Type names, before any parameters. */
  ghost predicate TypeIs(value: string, mime: string, parameters: string)
  {
    ';' !in mime && (value == mime || value == mime + ";" + parameters)
  }

  lemma MimeType(value: string, mime: string, parameters: string)
    requires TypeIs(value, mime, parameters)
    ensures Split(value, ";")[0] == mime
  {
    hide Split;
    if value == mime {
      assert Join([mime], ";") == mime;
      SplitJoin([mime], ';');
    } else {
      SplitCons(mime, ';', parameters);
    }
  }

  lemma NotChunked(headers: seq<Header>, codings: seq<string>, last: string)
    requires NoLength(headers, codings, last)
    ensures var encoding := Lookup(headers, "Transfer-Encoding");
      encoding.Some? ==> !EquivalentStrings(LastToken(encoding.value, ","), "chunked")
  {
    hide Lookup;
    hide EquivalentStrings;
    hide SameName;
    hide LastToken;
    hide Join;
    if Lookup(headers, "Transfer-Encoding").Some? {
      LastCoding(codings, last);
      SameNameEquivalent(last, "chunked");
    }
  }

  /** Rule 5, as written. */
  lemma OpenFraming(version: string, code: string, reason: string, headers: seq<Header>, request: Record,
                    codings: seq<string>, last: string, mime: string, parameters: string)
    requires BodyStatus(version, code, reason) && !("HEAD " <= request.firstLine)
    requires NoLength(headers, codings, last)
    requires match Lookup(headers, "Content-Type")
      case None => true
      case Some(value) => TypeIs(value, mime, parameters) && mime != "" && !SameName(mime, "multipart/byteranges")
    ensures ResponseFraming(version + " " + (code + " " + reason), headers, Some(request)) == Some(UntilEof)
  {
    hide Lookup;
    hide EquivalentStrings;
    hide SameName;
    hide LastToken;
    hide StatusCode;
    hide Split;
    hide TypeIs;
    hide Join;
    StatusLineCode(version, code, reason);
    NotChunked(headers, codings, last);
    if Lookup(headers, "Content-Type").Some? {
      MimeType(Lookup(headers, "Content-Type").value, mime, parameters);
      SameNameEquivalent(mime, "multipart/byteranges");
    }
  }

  /** A response with neither chunked coding nor a length, and not of type multipart/byteranges,
      is read until the end of file, whatever its body and however it is cut, and is then
      completed as exactly that response. */
  lemma OpenResponse(version: string, code: string, reason: string, headers: seq<Header>, body: string,
                     request: Record, codings: seq<string>, last: string, mime: string, parameters: string,
                     records: seq<Record>, requests: seq<Record>, fragments: seq<string>)
    requires BodyStatus(version, code, reason) && !("HEAD " <= request.firstLine) && AllPrintable(headers)
    requires NoLength(headers, codings, last)
    requires match Lookup(headers, "Content-Type")
      case None => true
      case Some(value) => TypeIs(value, mime, parameters) && mime != "" && !SameName(mime, "multipart/byteranges")
    requires forall i :: 0 <= i < |records| ==> PrintableRecord(Response, records[i])
    requires Answers(Response, records + [Record(version + " " + (code + " " + reason), headers, body, Some(request))],
                     requests)
    requires fragments != [] && NonEmpty(fragments)
    requires ChunkedBody.Concat(fragments)
          == PrintAll(records) + Print(Record(version + " " + (code + " " + reason), headers, body, Some(request)))
    ensures Parse(ParseAll(Awaiting(Response, requests), fragments), "")
         == Running("", NewMessage(Response),
                    records + [Record(version + " " + (code + " " + reason), headers, body, Some(request))],
                    requests[|records| + 1..])
  {
    hide Lookup;
    hide SameName;
    hide TypeIs;
    hide NoLength;
    hide IsLine;
    hide AllPrintable;
    hide PrintableRecord;
    hide Answers;
    hide Print;
    hide Parse;
    hide ParseAll;
    hide ResponseFraming;
    OpenFraming(version, code, reason, headers, request, codings, last, mime, parameters);
    var r := Record(version + " " + (code + " " + reason), headers, body, Some(request));
    AnswersCount(records, r, requests);
    EndOfFileRoundTrip(records, r, requests, fragments);
  }

  lemma AnswersCount(records: seq<Record>, r: Record, requests: seq<Record>)
    requires Answers(Response, records + [r], requests)
    ensures |records| + 1 <= |requests|
  {
  }

  /** With type multipart/byteranges, or with no type before the parameters, it fails. */
  lemma MultipartRefused(version: string, code: string, reason: string, headers: seq<Header>, body: string,
                         request: Record, codings: seq<string>, last: string, mime: string, parameters: string,
                         records: seq<Record>, requests: seq<Record>, fragments: seq<string>)
    requires BodyStatus(version, code, reason) && !("HEAD " <= request.firstLine) && AllPrintable(headers)
    requires NoLength(headers, codings, last)
    requires Lookup(headers, "Content-Type").Some?
    requires TypeIs(Lookup(headers, "Content-Type").value, mime, parameters)
    requires mime == "" || SameName(mime, "multipart/byteranges")
    requires forall i :: 0 <= i < |records| ==> PrintableRecord(Response, records[i])
    requires Answers(Response, records + [Record(version + " " + (code + " " + reason), headers, "", Some(request))],
                     requests)
    requires fragments != [] && NonEmpty(fragments)
    requires ChunkedBody.Concat(fragments) == PrintAll(records)
          + (Print(Record(version + " " + (code + " " + reason), headers, "", Some(request))) + body)
    ensures ParseAll(Awaiting(Response, requests), fragments) == Failure(records)
  {
    hide Lookup;
    hide EquivalentStrings;
    hide SameName;
    hide LastToken;
    hide StatusCode;
    hide Split;
    hide TypeIs;
    hide Join;
    hide IsLine;
    hide AllPrintable;
    hide PrintableRecord;
    hide Answers;
    hide Print;
    hide PrintAll;
    hide ParseAll;
    var line := version + " " + (code + " " + reason);
    StatusLineCode(version, code, reason);
    NotChunked(headers, codings, last);
    MimeType(Lookup(headers, "Content-Type").value, mime, parameters);
    SameNameEquivalent(mime, "multipart/byteranges");
    assert ResponseFraming(line, headers, Some(request)).None?;
    Refused(Response, records, Record(line, headers, "", Some(request)), body, requests, fragments);
  }

  /** A response of rule 1 survives printing and parsing, whatever lengths its headers announce. */
  lemma BodilessPrintable(version: string, code: string, reason: string, headers: seq<Header>, request: Record)
    requires ' ' !in version && ' ' !in code && code != ""
    requires code[0] == '1' || code in ["204", "304"] || "HEAD " <= request.firstLine
    requires IsLine(version + " " + (code + " " + reason)) && AllPrintable(headers)
    ensures PrintableRecord(Response, Record(version + " " + (code + " " + reason), headers, "", Some(request)))
  {
    hide IsLine;
    hide AllPrintable;
    hide ResponseFraming;
    BodilessResponse(version, code, reason, headers, request);
    SizedPrintable(Response, version + " " + (code + " " + reason), headers, "", Some(request));
  }

  /** A status line with fewer than two spaces fails the connection. */
  lemma ShortStatusLine(line: string, headers: seq<Header>, rest: string, request: Record,
                        records: seq<Record>, requests: seq<Record>, fragments: seq<string>)
    requires multiset(line)[' '] < 2 && IsLine(line) && AllPrintable(headers)
    requires forall i :: 0 <= i < |records| ==> PrintableRecord(Response, records[i])
    requires Answers(Response, records + [Record(line, headers, "", Some(request))], requests)
    requires fragments != [] && NonEmpty(fragments)
    requires ChunkedBody.Concat(fragments)
          == PrintAll(records) + (Print(Record(line, headers, "", Some(request))) + rest)
    ensures ParseAll(Awaiting(Response, requests), fragments) == Failure(records)
  {
    hide Print;
    hide PrintAll;
    hide PrintableRecord;
    hide ParseAll;
    hide IsLine;
    hide AllPrintable;
    hide Answers;
    hide Split;
    SplitByChar(line, ' ');
    assert ResponseFraming(line, headers, Some(request)).None?;
    Refused(Response, records, Record(line, headers, "", Some(request)), rest, requests, fragments);
  }

  /** A response of rule 3 whose length is not a number fails the connection. */
  lemma BadResponseLength(version: string, code: string, reason: string, headers: seq<Header>, rest: string,
                          request: Record, records: seq<Record>, requests: seq<Record>, fragments: seq<string>)
    requires BodyStatus(version, code, reason) && !("HEAD " <= request.firstLine) && AllPrintable(headers)
    requires Lookup(headers, "Transfer-Encoding").None? && Lookup(headers, "Content-Length").Some?
    requires NoNumber(Lookup(headers, "Content-Length").value)
    requires forall i :: 0 <= i < |records| ==> PrintableRecord(Response, records[i])
    requires Answers(Response, records + [Record(version + " " + (code + " " + reason), headers, "", Some(request))],
                     requests)
    requires fragments != [] && NonEmpty(fragments)
    requires ChunkedBody.Concat(fragments) == PrintAll(records)
          + (Print(Record(version + " " + (code + " " + reason), headers, "", Some(request))) + rest)
    ensures ParseAll(Awaiting(Response, requests), fragments) == Failure(records)
  {
    hide Lookup;
    hide EquivalentStrings;
    hide LastToken;
    hide StatusCode;
    hide NoNumber;
    hide ContentLength;
    hide IsLine;
    hide AllPrintable;
    hide PrintableRecord;
    hide Answers;
    hide Print;
    hide PrintAll;
    hide ParseAll;
    var line := version + " " + (code + " " + reason);
    StatusLineCode(version, code, reason);
    NotALength(Lookup(headers, "Content-Length").value);
    assert ResponseFraming(line, headers, Some(request)).None?;
    Refused(Response, records, Record(line, headers, "", Some(request)), rest, requests, fragments);
  }

  /** A response nobody asked for fails the connection at its first line. */
  lemma Unrequested(line: string, rest: string, records: seq<Record>, requests: seq<Record>, fragments: seq<string>)
    requires IsLine(line) && |requests| == |records| && Answers(Response, records, requests)
    requires forall i :: 0 <= i < |records| ==> PrintableRecord(Response, records[i])
    requires fragments != [] && NonEmpty(fragments)
    requires ChunkedBody.Concat(fragments) == PrintAll(records) + (line + CRLF + rest)
    ensures ParseAll(Awaiting(Response, requests), fragments) == Failure(records)
  {
    hide Run;
    hide Print;
    hide PrintAll;
    hide Reread;
    hide Rereadable;
    hide PrintableRecord;
    var text := line + CRLF + rest;
    FeedAll(Response, requests, fragments);
    AllPrintableSame(Response, records);
    RunPipeline(Running(ChunkedBody.Concat(fragments), NewMessage(Response), [], requests), Response, records, text);
    assert [] + records == records && requests[|records|..] == [];
    NoRequest(Running(text, NewMessage(Response), records, []), line, rest);
  }

  lemma NoRequest(p: Parser, line: string, rest: string)
    requires p.Running? && p.message == NewMessage(Response) && p.requests == []
    requires p.buffer == line + CRLF + rest && IsLine(line)
    ensures Run(p) == Failure(p.complete)
  {
    hide Find;
    LineRead(line, rest);
    assert Step(p) == Throw;
  }

  /** A header line without a colon fails the connection. */
  lemma MalformedHeader(p: Parser, headers: seq<Header>, line: string, rest: string)
    requires p.Running? && p.message.state == HeadersPending && AllLined(headers)
    requires IsLine(line) && line != "" && ':' !in line
    requires p.buffer == HeadersText(headers) + (line + CRLF + rest)
    ensures Run(p) == Failure(p.complete)
  {
    hide Step;
    hide AllLined;
    hide IsLine;
    hide RereadHeaders;
    RunHeaders(p, headers, line + CRLF + rest);
    HeaderLineRefused(WithParsed(p, RereadHeaders(headers), line + CRLF + rest), line, rest);
  }

  lemma HeaderLineRefused(p: Parser, line: string, rest: string)
    requires p.Running? && p.message.state == HeadersPending && p.buffer == line + CRLF + rest
    requires IsLine(line) && line != "" && ':' !in line
    ensures Run(p) == Failure(p.complete)
  {
    hide Find;
    hide IsLine;
    hide ParseHeader;
    LineRead(line, rest);
    NoColon(line);
    assert Step(p) == Throw;
  }

  /** ---- The end of file inside a message of announced length ---- */

  lemma NoLineEndYet(line: string, rest: string, cut: nat)
    requires IsLine(line) && cut < |line| + 2 && cut <= |line + CRLF + rest|
    ensures Find((line + CRLF + rest)[..cut], CRLF).None?
  {
    var s := line + CRLF + rest;
    FindLineEnd(line, rest);
    forall i ensures !OccursAt(s[..cut], CRLF, i)
    {
      if 0 <= i && i + 2 <= cut {
        assert s[..cut] + s[cut..] == s;
        OccursInPrefix(s[..cut], s[cut..], CRLF, i);
      }
    }
  }

  /** The headers and the body, cut before their end: the parser waits inside the message. */
  lemma {:induction false} RunCut(p: Parser, headers: seq<Header>, r: Record, cut: nat)
    requires p.Running? && p.message.state == HeadersPending && AllPrintable(headers) && p.message.body == ""
    requires p.message == Announced(p.message.role, r).(headers := p.message.headers)
    requires p.message.headers + headers == r.headers
    requires FramingOf(p.message.role, r.firstLine, r.headers, r.request) == Some(Known(|r.body|))
    requires cut < |HeadersText(headers) + (CRLF + r.body)|
    requires p.buffer == (HeadersText(headers) + (CRLF + r.body))[..cut]
    ensures Run(p).Running? && Run(p).complete == p.complete && EndOfFile(Run(p)) == Failure(p.complete)
    decreases |headers|
  {
    hide Step;
    hide FramingOf;
    hide AllPrintable;
    hide PrintHeader;
    if headers == [] {
      assert HeadersText(headers) + (CRLF + r.body) == CRLF + r.body;
      assert p.message.headers == r.headers;
      RunBodyCut(p, r, cut);
    } else {
      var h, tail := headers[0], headers[1..];
      var after := HeadersText(tail) + (CRLF + r.body);
      var n := |PrintHeader(h)| + 2;
      assert HeadersText(headers) + (CRLF + r.body) == PrintHeader(h) + CRLF + after;
      HeadPrints(headers);
      if cut < n {
        NoLineEndYet(PrintHeader(h), after, cut);
        WaitsInHeaders(p);
      } else {
        assert p.buffer == PrintHeader(h) + CRLF + after[..cut - n];
        RunOneHeader(p, h, after[..cut - n]);
        RereadSame(h);
        var q := WithParsed(p, [h], after[..cut - n]);
        assert Run(p) == Run(q) by { UnfoldRun(p, q); }
        assert p.message.headers + [h] + tail == p.message.headers + headers;
        RunCut(q, tail, r, cut - n);
      }
    }
  }

  lemma UnfoldRun(p: Parser, q: Parser)
    requires p.Running? && Step(p) == Continue(q)
    ensures Run(p) == Run(q)
  {
    hide Step;
  }

  lemma HeadPrints(headers: seq<Header>)
    requires headers != [] && AllPrintable(headers)
    ensures LinedHeader(headers[0]) && Printable(headers[0]) && IsLine(PrintHeader(headers[0]))
    ensures AllPrintable(headers[1..])
  {
    hide IsLine;
    assert PrintableHeader(headers[0]);
    HeaderIsLine(headers[0]);
    assert forall i :: 1 <= i < |headers| ==> headers[i] == headers[1..][i - 1];
  }

  lemma WaitsInHeaders(p: Parser)
    requires p.Running? && p.message.state == HeadersPending && Find(p.buffer, CRLF).None?
    ensures Run(p) == p && EndOfFile(p) == Failure(p.complete)
  {
    hide Find;
    assert Step(p) == Stop(p);
  }

  lemma RunBodyCut(p: Parser, r: Record, cut: nat)
    requires p.Running? && p.message == Announced(p.message.role, r)
    requires FramingOf(p.message.role, r.firstLine, r.headers, r.request) == Some(Known(|r.body|))
    requires cut < |CRLF + r.body| && p.buffer == (CRLF + r.body)[..cut]
    ensures Run(p).Running? && Run(p).complete == p.complete && EndOfFile(Run(p)) == Failure(p.complete)
  {
    hide FramingOf;
    if cut < 2 {
      EmptyIsLine();
      assert "" + CRLF + r.body == CRLF + r.body;
      NoLineEndYet("", r.body, cut);
      WaitsInHeaders(p);
    } else {
      var body := r.body[..cut - 2];
      assert p.buffer == CRLF + body;
      RunBlankLine(p, body);
      WaitsInBody(p.(buffer := body, message := WithoutMoreHeaders(p.message).value), |r.body|);
    }
  }

  lemma WaitsInBody(p: Parser, n: nat)
    requires p.Running? && p.message.state == BodyPending && p.message.framing == Known(n) && p.message.body == ""
    requires |p.buffer| < n
    ensures Run(p).Running? && Run(p).complete == p.complete && EndOfFile(Run(p)) == Failure(p.complete)
  {
    assert Step(p).Stop?;
  }

  /** A message of announced length cut short by an end of file is never completed: the connection
      fails, or, when not even the first line was whole, carries on as if nothing had come. */
  lemma CutShort(role: Role, records: seq<Record>, r: Record, cut: nat, requests: seq<Record>,
                 fragments: seq<string>)
    requires forall i :: 0 <= i < |records| ==> PrintableRecord(role, records[i])
    requires IsLine(r.firstLine) && AllPrintable(r.headers) && (r.request.Some? <==> role == Response)
    requires FramingOf(role, r.firstLine, r.headers, r.request) == Some(Known(|r.body|))
    requires Answers(role, records + [r], requests)
    requires cut < |Print(r)| && fragments != [] && NonEmpty(fragments)
    requires ChunkedBody.Concat(fragments) == PrintAll(records) + Print(r)[..cut]
    ensures Parse(ParseAll(Awaiting(role, requests), fragments), "")
         == if cut < |r.firstLine| + 2
            then Running(Print(r)[..cut], NewMessage(role), records, Unanswered(role, requests, |records|))
            else Failure(records)
  {
    hide Run;
    hide EndOfFile;
    hide FramingOf;
    hide PrintableRecord;
    hide AllPrintable;
    hide IsLine;
    hide PrintAll;
    AfterPipeline(role, records, r, Print(r)[..cut], requests, fragments);
    var p := Running(Print(r)[..cut], NewMessage(role), records, Unanswered(role, requests, |records|));
    var after := HeadersText(r.headers) + (CRLF + r.body);
    assert Print(r) == r.firstLine + CRLF + after;
    if cut < |r.firstLine| + 2 {
      NoLineEndYet(r.firstLine, after, cut);
      WaitsForLine(p);
    } else {
      var n := cut - |r.firstLine| - 2;
      assert p.buffer == r.firstLine + CRLF + after[..n];
      RunFirstLine(p, r.firstLine, after[..n]);
      var m := Message(role, HeadersPending, r.firstLine, [], "", Unset, r.request);
      var q := Running(after[..n], m, records, Unanswered(role, p.requests, 1));
      assert Run(p) == Run(q);
      assert [] + r.headers == r.headers;
      RunCut(q, r.headers, r, n);
    }
  }

  lemma WaitsForLine(p: Parser)
    requires p.Running? && p.message.state == FirstLinePending && Find(p.buffer, CRLF).None?
    ensures Run(p) == p && EndOfFile(p) == p
  {
    hide Find;
    assert Step(p) == Stop(p);
  }
}
