/** What the parser emitted, printed and parsed again. */
module HttpReparse {
  import opened Strings
  import opened Ezio
  import opened Tokenize
  import opened HttpHeader
  import ChunkedBody
  import ChunkedGrammar
  import opened HttpMessage
  import opened HttpMessageSequence
  import opened HttpRoundTrip
  import opened HttpFraming
  import opened HttpEmitted

  lemma {:induction false} LookupReread(headers: seq<Header>, name: string)
    ensures Lookup(RereadHeaders(headers), name)
         == match Lookup(headers, name) { case None => None case Some(v) => Some(RereadValue(v)) }
    decreases |headers|
  {
    hide EquivalentStrings;
    hide RereadValue;
    if headers != [] {
      LookupReread(headers[1..], name);
      assert RereadHeaders(headers)[1..] == RereadHeaders(headers[1..]);
    }
  }

  /** A looked-up value of a header read off a line, read again: the same unless it is blank. */
  lemma {:induction false} LookupRead(headers: seq<Header>, name: string)
    requires ReadHeaders(headers) && Lookup(headers, name).Some?
    ensures var v := Lookup(headers, name).value;
      if Blank(v) then RereadValue(v) == " " + v else RereadValue(v) == v
    decreases |headers|
  {
    hide EquivalentStrings;
    assert ReadHeader(headers[0]);
    if EquivalentStrings(headers[0].key, name) {
      StripSpacesExact(headers[0].value);
    } else {
      assert ReadHeaders(headers[1..]) by {
        assert forall i :: 0 <= i < |headers[1..]| ==> headers[1..][i] == headers[i + 1];
      }
      LookupRead(headers[1..], name);
    }
  }

  lemma BlankCoding(v: string)
    requires Blank(v)
    ensures !EquivalentStrings(LastToken(v, ","), "chunked")
  {
    var c := ',';
    SplitJoin([v], c);
    assert Join([v], [c]) == v;
    assert LastToken(v, ",") == v;
    StripSpacesExact(v);
    StripSpacesExact("chunked");
  }

  lemma BlankAgain(v: string)
    requires Blank(v)
    ensures Blank(" " + v)
  {
  }

  lemma {:induction false} BlankLength(v: string)
    requires Blank(v)
    ensures ContentLength(v).None?
  {
    hide DigitsValue;
    BlankSkipped(v);
  }

  lemma {:induction false} BlankSkipped(v: string)
    requires Blank(v)
    ensures SkipSpaces(v) == ""
  {
    if v != "" {
      BlankSkipped(v[1..]);
    }
  }

  /** One more space in blank header values changes no framing that announces a body. */
  lemma FramingReread(headers: seq<Header>)
    requires ReadHeaders(headers)
    ensures var f := FramingByHeaders(headers);
      f.Some? && !f.value.UntilEof? ==> FramingByHeaders(RereadHeaders(headers)) == f
  {
    hide Lookup;
    hide EquivalentStrings;
    hide LastToken;
    hide ContentLength;
    hide ReadHeaders;
    hide RereadHeaders;
    hide RereadValue;
    hide Split;
    LookupReread(headers, "Transfer-Encoding");
    LookupReread(headers, "Content-Length");
    LookupReread(headers, "Trailer");
    var encoding := Lookup(headers, "Transfer-Encoding");
    if encoding.Some? {
      LookupRead(headers, "Transfer-Encoding");
      if Blank(encoding.value) {
        BlankCoding(encoding.value);
        BlankAgain(encoding.value);
        BlankCoding(" " + encoding.value);
      }
    }
    var length := Lookup(headers, "Content-Length");
    if length.Some? {
      LookupRead(headers, "Content-Length");
      if Blank(length.value) {
        BlankLength(length.value);
      }
    }
  }

  lemma PostReread(headers: seq<Header>)
    requires ReadHeaders(headers)
    requires Lookup(headers, "Content-Length").Some? && ContentLength(Lookup(headers, "Content-Length").value).Some?
    ensures Lookup(RereadHeaders(headers), "Content-Length") == Lookup(headers, "Content-Length")
  {
    hide Lookup;
    hide ContentLength;
    hide RereadValue;
    LookupReread(headers, "Content-Length");
    LookupRead(headers, "Content-Length");
    var v := Lookup(headers, "Content-Length").value;
    if Blank(v) {
      BlankLength(v);
    }
  }

  lemma AllRead(headers: seq<Header>)
    requires ReadHeaders(headers)
    ensures AllLined(headers)
  {
    forall i | 0 <= i < |headers| ensures LinedHeader(headers[i])
    {
      assert ReadHeader(headers[i]);
    }
  }

  /** An emitted message can be printed, and is still framed the same when read back. */
  lemma EmittedRereadable(role: Role, r: Record)
    requires Emitted(role, r)
    ensures Rereadable(role, r)
  {
    hide IsLine;
    hide ReadHeaders;
    hide AllLined;
    hide RereadHeaders;
    hide Lookup;
    hide ContentLength;
    hide FramingByHeaders;
    hide StatusCode;
    hide ChunkedBody.Read;
    AllRead(r.headers);
    match role
    case Request =>
      if !("GET " <= r.firstLine || "HEAD " <= r.firstLine) {
        PostReread(r.headers);
      }
    case Response => FramingReread(r.headers);
  }

  /** Some header value is blank: empty, or spaces only. */
  predicate HasBlank(r: Record)
  {
    exists i :: 0 <= i < |r.headers| && Blank(r.headers[i].value)
  }

  lemma EmittedSame(role: Role, r: Record)
    requires Emitted(role, r)
    ensures Reread(r) == r <==> !HasBlank(r)
  {
    hide IsLine;
    hide Framed;
    var again := RereadHeaders(r.headers);
    forall i | 0 <= i < |r.headers|
      ensures again[i] == r.headers[i] <==> !Blank(r.headers[i].value)
    {
      assert ReadHeader(r.headers[i]);
      StripSpacesExact(r.headers[i].value);
    }
    if HasBlank(r) {
      var i :| 0 <= i < |r.headers| && Blank(r.headers[i].value);
      assert Reread(r).headers[i] != r.headers[i];
    } else {
      assert again == r.headers;
    }
  }

  lemma AllEmittedSame(role: Role, records: seq<Record>)
    requires forall i :: 0 <= i < |records| ==> Emitted(role, records[i])
    ensures AllRereadable(role, records)
    ensures RereadAll(records) == records <==> forall i :: 0 <= i < |records| ==> !HasBlank(records[i])
  {
    hide Emitted;
    hide Rereadable;
    hide Reread;
    hide HasBlank;
    forall i | 0 <= i < |records|
      ensures Rereadable(role, records[i]) && (Reread(records[i]) == records[i] <==> !HasBlank(records[i]))
    {
      EmittedRereadable(role, records[i]);
      EmittedSame(role, records[i]);
    }
  }

  /** Whatever events a connection sees, with no end of file during an open body: what the parser
      completed, printed and given to a fresh parser in any fragmentation, is completed again
      with one more space in each blank header value, hence the same exactly when there is no
      blank header value. */
  lemma Reparse(role: Role, events: seq<Event>, again: seq<string>)
    requires CleanEnds(Initial(role), events) && again != [] && NonEmpty(again)
    requires ChunkedBody.Concat(again) == PrintAll(RunEvents(Initial(role), events).complete)
    ensures var records := RunEvents(Initial(role), events).complete;
      var reparsed := ParseAll(Awaiting(role, Arrivals(events)), again).complete;
      && reparsed == RereadAll(records)
      && (reparsed == records <==> forall i :: 0 <= i < |records| ==> !HasBlank(records[i]))
  {
    hide RunEvents;
    hide CleanEnds;
    hide ParseAll;
    hide Emitted;
    hide Rereadable;
    hide HasBlank;
    hide Reread;
    hide PrintAll;
    var records := RunEvents(Initial(role), events).complete;
    StreamEmits(role, events);
    StreamPairs(role, events);
    AllEmittedSame(role, records);
    PipelineReread(role, records, Arrivals(events), again);
  }

  /** A message with the body it announces, printed and parsed by itself, comes back the same
      exactly when it has no blank header value. */
  lemma EmittedPrintable(role: Role, r: Record, fragments: seq<string>)
    requires Emitted(role, r)
    requires fragments != [] && NonEmpty(fragments) && ChunkedBody.Concat(fragments) == Print(r)
    ensures ParseAll(Awaiting(role, if role == Response then [r.request.value] else []), fragments).complete == [r]
       <==> !HasBlank(r)
  {
    hide ParseAll;
    hide HasBlank;
    hide Reread;
    hide Print;
    hide IsLine;
    hide ReadHeaders;
    hide Framed;
    var requests := if role == Response then [r.request.value] else [];
    assert PrintAll([r]) == Print(r) by { assert Print(r) + "" == Print(r); }
    AllEmittedSame(role, [r]);
    PipelineReread(role, [r], requests, fragments);
    assert RereadAll([r]) == [Reread(r)];
    EmittedSame(role, r);
  }

  /** ---- Two inputs ---- */

  const GET := Record("GET / HTTP/1.1", [], "", None)

  /** A response with an empty header value is completed, and does not survive printing. */
  lemma BlankHeaderChanges()
    ensures var text := "HTTP/1.1 204 No Content" + CRLF + ("Server:" + CRLF + (CRLF + ""));
      var r := Record("HTTP/1.1 204 No Content", [Header("Server", "")], "", Some(GET));
      && Parse(Awaiting(Response, [GET]), text).complete == [r]
      && Parse(Awaiting(Response, [GET]), Print(r)).complete != [r]
  {
    hide Parse;
    hide Run;
    BlankHeaderRead();
    BlankHeaderReread();
  }

  lemma NoContent()
    ensures ResponseFraming("HTTP/1.1 204 No Content", [Header("Server", "")], Some(GET)) == Some(Known(0))
  {
    hide ResponseFraming;
    assert "HTTP/1.1" + " " + ("204" + " " + "No Content") == "HTTP/1.1 204 No Content";
    BodilessResponse("HTTP/1.1", "204", "No Content", [Header("Server", "")], GET);
  }

  lemma ShortLines()
    ensures IsLine("HTTP/1.1 204 No Content") && IsLine("Server:") && IsLine("Server") && IsLine("")
    ensures IsLine("HTTP/1.1 200 OK") && IsLine("Transfer-Encoding") && IsLine("chunked")
  {
    NoReturn("HTTP/1.1 204 No Content");
    NoReturn("Server:");
    NoReturn("Server");
    NoReturn("HTTP/1.1 200 OK");
    NoReturn("Transfer-Encoding");
    NoReturn("chunked");
  }

  lemma NoReturn(s: string)
    requires '\r' !in s
    ensures IsLine(s)
  {
    forall i ensures !OccursAt(s, CRLF, i)
    {
      if 0 <= i && i + 2 <= |s| {
        assert s[i..i + 2][0] == s[i] != CRLF[0];
      }
    }
  }

  lemma EmptyServer()
    ensures ParseHeader("Server:") == Some(Header("Server", ""))
  {
    hide Find;
    FindColon("Server", "");
    assert "Server" + ":" + "" == "Server:";
    assert "Server:"[..6] == "Server" && "Server:"[7..] == "";
  }

  lemma BlankHeaderRead()
    ensures var text := "HTTP/1.1 204 No Content" + CRLF + ("Server:" + CRLF + (CRLF + ""));
      Parse(Awaiting(Response, [GET]), text).complete
      == [Record("HTTP/1.1 204 No Content", [Header("Server", "")], "", Some(GET))]
  {
    hide Step;
    hide IsLine;
    hide ResponseFraming;
    hide ParseHeader;
    var line := "HTTP/1.1 204 No Content";
    var after := "Server:" + CRLF + (CRLF + "");
    ShortLines();
    var p := Running(line + CRLF + after, NewMessage(Response), [], [GET]);
    assert "" + (line + CRLF + after) == line + CRLF + after;
    RunFirstLine(p, line, after);
    var q := Running(after, Message(Response, HeadersPending, line, [], "", Unset, Some(GET)), [], []);
    assert [GET][1..] == [];
    assert Run(p) == Run(q);
    ServerLine(q);
    var m := Announced(Response, Record(line, [Header("Server", "")], "", Some(GET)));
    NoContent();
    RunBlankLine(Running(CRLF + "", m, [], []), "");
    var r := Record(line, [Header("Server", "")], "", Some(GET));
    assert "" + "" == "";
    RunBody(Running("", WithoutMoreHeaders(m).value, [], []), r, "");
    NothingToRead(Running("", NewMessage(Response), [] + [r], []));
  }

  lemma ServerLine(q: Parser)
    requires q.Running? && q.buffer == "Server:" + CRLF + (CRLF + "")
    requires q.message.state == HeadersPending && q.message.headers == []
    ensures Run(q) == Run(q.(buffer := CRLF + "", message := q.message.(headers := [Header("Server", "")])))
  {
    hide Find;
    hide ParseHeader;
    ShortLines();
    EmptyServer();
    LineRead("Server:", CRLF + "");
    assert [] + [Header("Server", "")] == [Header("Server", "")];
    assert Step(q) == Continue(q.(buffer := CRLF + "", message := q.message.(headers := [Header("Server", "")])));
  }

  lemma BlankHeaderReread()
    ensures var r := Record("HTTP/1.1 204 No Content", [Header("Server", "")], "", Some(GET));
      Parse(Awaiting(Response, [GET]), Print(r)).complete != [r]
  {
    hide Parse;
    hide IsLine;
    hide ResponseFraming;
    hide Print;
    var r := Record("HTTP/1.1 204 No Content", [Header("Server", "")], "", Some(GET));
    ShortLines();
    NoContent();
    assert Emitted(Response, r);
    assert Print(r) != "" by { PrintNotEmpty(r); }
    assert ChunkedBody.Concat([Print(r)]) == Print(r) by { assert Print(r) + "" == Print(r); }
    EmittedPrintable(Response, r, [Print(r)]);
    assert Blank(r.headers[0].value);
    assert ParseAll(Awaiting(Response, [GET]), [Print(r)]) == Parse(Awaiting(Response, [GET]), Print(r));
  }

  lemma PrintNotEmpty(r: Record)
    ensures Print(r) != ""
  {
    assert |Print(r)| >= 2;
  }

  /** A chunked response cut short by the end of file is completed as if it were whole. */
  lemma TruncatedResponse()
    ensures var r := Record("HTTP/1.1 200 OK", [Header("Transfer-Encoding", "chunked")], "5" + CRLF + "ab", Some(GET));
      var events := [Arrive(GET), Feed(Print(r)), Feed("")];
      && RunEvents(Initial(Response), events).complete == [r]
      && EndedByEof(Response, r) && !Emitted(Response, r) && !CleanEnds(Initial(Response), events)
  {
    hide Parse;
    hide IsLine;
    hide ResponseFraming;
    hide Print;
    hide CleanEnds;
    hide OpenEnded;
    var r := Record("HTTP/1.1 200 OK", [Header("Transfer-Encoding", "chunked")], "5" + CRLF + "ab", Some(GET));
    var events := [Arrive(GET), Feed(Print(r)), Feed("")];
    PrintNotEmpty(r);
    TruncatedSpelled(r);
    assert ChunkedBody.Concat([Print(r)]) == Print(r) == PrintAll([]) + Print(r) by {
      assert Print(r) + "" == Print(r) == "" + Print(r);
    }
    assert [] + [r] == [r];
    EndOfFileRoundTrip([], r, [GET], [Print(r)]);
    ThreeEvents(r);
    assert RunEvents(Initial(Response), events).complete[0] == r;
    hide Emitted;
    hide RunEvents;
    StreamEmits(Response, events);
  }

  lemma TruncatedSpelled(r: Record)
    requires r == Record("HTTP/1.1 200 OK", [Header("Transfer-Encoding", "chunked")], "5" + CRLF + "ab", Some(GET))
    ensures IsLine(r.firstLine) && AllPrintable(r.headers) && OpenEnded(r)
    ensures EndedByEof(Response, r) && !Emitted(Response, r)
  {
    hide IsLine;
    hide ResponseFraming;
    hide ChunkedBody.Read;
    ShortLines();
    TruncatedFraming(r.headers);
    TruncatedBody();
  }

  lemma TruncatedFraming(headers: seq<Header>)
    requires headers == [Header("Transfer-Encoding", "chunked")]
    ensures ResponseFraming("HTTP/1.1 200 OK", headers, Some(GET)) == Some(ByChunks(ChunkedBody.Fresh(false)))
  {
    hide StatusCode;
    hide FramingByHeaders;
    assert "HTTP/1.1" + " " + ("200" + " " + "OK") == "HTTP/1.1 200 OK";
    StatusLineCode("HTTP/1.1", "200", "OK");
    OneHeader(headers);
    assert GET.firstLine[0] == 'G' && "HEAD "[0] == 'H';
    assert [] + ["chunked"] == ["chunked"];
    ChunkedFraming("HTTP/1.1 200 OK", "200", headers, [], "chunked", GET);
  }

  lemma OneHeader(headers: seq<Header>)
    requires headers == [Header("Transfer-Encoding", "chunked")]
    ensures Lookup(headers, "Transfer-Encoding") == Some("chunked") && Lookup(headers, "Trailer").None?
    ensures EquivalentStrings("chunked", "chunked")
  {
    StripSpacesExact("Transfer-Encoding");
    StripSpacesExact("Trailer");
    assert Lookup(headers[1..], "Trailer").None?;
  }

  lemma TruncatedBody()
    ensures ChunkedBody.Read(ChunkedBody.Fresh(false), "5" + CRLF + "ab").outcome == ChunkedBody.More
  {
    hide ChunkedBody.ChunkSize;
    hide Find;
    EmptyIsLine();
    Five();
    ChunkedGrammar.SizeLineRead("5", 5);
    var c := ChunkedBody.Fed(ChunkedBody.Fresh(false), "5" + CRLF + "ab");
    assert c.buffer == "5" + CRLF + "ab";
    var d := ChunkedGrammar.HeaderLine(c, "5", "ab", 5);
    assert ChunkedBody.Step(d) == ChunkedBody.Wait;
  }

  lemma Five()
    ensures ChunkedGrammar.SizeLine("5", 5)
  {
    EmptyIsLine();
    ChunkedGrammar.PrintedSize(5, "");
    assert Digits(5, 16) == "5" && "5" + "" == "5";
  }

  lemma ThreeEvents(r: Record)
    requires Print(r) != ""
    ensures RunEvents(Initial(Response), [Arrive(GET), Feed(Print(r)), Feed("")])
         == Parse(ParseAll(Awaiting(Response, [GET]), [Print(r)]), "")
  {
    hide Parse;
    hide Print;
    var events := [Arrive(GET), Feed(Print(r)), Feed("")];
    var p1 := Handle(Initial(Response), Arrive(GET));
    assert p1 == Awaiting(Response, [GET]) by { assert [] + [GET] == [GET]; }
    var p2 := Handle(p1, Feed(Print(r)));
    assert events[1..] == [Feed(Print(r)), Feed("")] && events[1..][1..] == [Feed("")];
    assert RunEvents(p2, [Feed("")]) == RunEvents(Handle(p2, Feed("")), []);
    assert ParseAll(p1, [Print(r)]) == ParseAll(p2, []);
  }
}
