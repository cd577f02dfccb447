/** The framing rules against messages as they are written: status lines, transfer codings and
    lengths spelled out. */
module HttpFraming {
  import opened Strings
  import opened Ezio
  import opened Machine
  import opened Tokenize
  import opened HttpHeader
  import ChunkedBody
  import ChunkedGrammar
  import opened HttpMessage
  import opened HttpRoundTrip

  lemma JoinCons(t: string, ts: seq<string>, sep: string)
    requires ts != []
    ensures Join([t] + ts, sep) == t + sep + Join(ts, sep)
  {
    assert ([t] + ts)[1..] == ts;
  }

  /** Splitting a text that begins with a separator-free token yields that token first. */
  lemma SplitCons(token: string, c: char, rest: string)
    requires c !in token
    ensures Split(token + [c] + rest, [c]) == [token] + Split(rest, [c])
  {
    var ts := Split(rest, [c]);
    SplitByChar(rest, c);
    JoinCons(token, ts, [c]);
    SplitJoin([token] + ts, c);
  }

  /** A status line yields its status code. */
  lemma StatusLineCode(version: string, code: string, reason: string)
    requires ' ' !in version && ' ' !in code && code != ""
    ensures StatusCode(version + " " + (code + " " + reason)) == Some(code)
  {
    hide Split;
    SplitCons(version, ' ', code + " " + reason);
    SplitCons(code, ' ', reason);
  }

  /** Rule 1 of section 4.4 of RFC 2616: informational, 204 and 304 responses and answers to
      HEAD have no body, whatever their headers say. */
  lemma BodilessResponse(version: string, code: string, reason: string, headers: seq<Header>, request: Record)
    requires ' ' !in version && ' ' !in code && code != ""
    requires code[0] == '1' || code in ["204", "304"] || "HEAD " <= request.firstLine
    ensures ResponseFraming(version + " " + (code + " " + reason), headers, Some(request)) == Some(Known(0))
  {
    hide StatusCode;
    hide FramingByHeaders;
    StatusLineCode(version, code, reason);
  }

  /** The last transfer coding decides rule 2, in any case and after any blanks. */
  lemma LastCoding(codings: seq<string>, last: string)
    requires ',' !in last && forall t :: t in codings ==> ',' !in t
    ensures LastToken(Join(codings + [last], ","), ",") == last
  {
    hide Split;
    SplitJoin(codings + [last], ',');
  }

  /** Rule 2: chunked coding, applied last, frames the body, even next to a Content-Length. */
  lemma ChunkedResponse(headers: seq<Header>, codings: seq<string>, last: string)
    requires ',' !in last && forall t :: t in codings ==> ',' !in t
    requires Lookup(headers, "Transfer-Encoding") == Some(Join(codings + [last], ","))
    requires EquivalentStrings(last, "chunked")
    ensures FramingByHeaders(headers) == Some(ByChunks(ChunkedBody.Fresh(Lookup(headers, "Trailer").Some?)))
  {
    hide Lookup;
    hide EquivalentStrings;
    hide LastToken;
    LastCoding(codings, last);
  }

  /** Rule 3: a decimal Content-Length is the length of the body. */
  lemma PrintedLength(n: nat)
    requires n <= LONG_MAX
    ensures ContentLength(Digits(n, 10)) == Some(Known(n))
  {
    hide Myatoi;
    hide Digits;
    DigitsRoundTrip(n, 10);
  }

  /** What any Content-Length announces: the number written, a negative one wrapped around at 2^64. */
  lemma LengthExact(value: string, n: nat)
    ensures ContentLength(value) == Some(Known(n)) <==> exists v :: Written(value, 10, v) && n == v % UINT64
  {
    hide Myatoi;
    hide Written;
    if ContentLength(value) == Some(Known(n)) {
      MyatoiExact(value, 10, Myatoi(value, 10).value);
    }
    if v :| Written(value, 10, v) && n == v % UINT64 {
      MyatoiExact(value, 10, v);
    }
  }

  lemma {:induction false} LookupAppended(headers: seq<Header>, name: string, value: string)
    requires Lookup(headers, name).None?
    ensures Lookup(headers + [Header(name, value)], name) == Some(value)
    decreases |headers|
  {
    hide EquivalentStrings;
    if headers == [] {
      Reflexive(name);
    } else {
      assert (headers + [Header(name, value)])[1..] == headers[1..] + [Header(name, value)];
      LookupAppended(headers[1..], name, value);
    }
  }

  lemma Reflexive(s: string)
    ensures EquivalentStrings(s, s)
  {
  }

  lemma DigitsPrintable(n: nat)
    ensures PrintableHeader(Header("Content-Length", Digits(n, 10)))
  {
    var value := Digits(n, 10);
    assert IsDigit(value[0], 10);
    forall i ensures !OccursAt(value, CRLF, i) && !OccursAt("Content-Length", CRLF, i)
    {
      if 0 <= i && i + 2 <= |value| {
        assert IsDigit(value[i], 10);
        assert value[i..i + 2][0] == value[i];
      }
      if 0 <= i && i + 2 <= |"Content-Length"| {
        assert "Content-Length"[i..i + 2][0] == "Content-Length"[i] != '\r';
      }
    }
  }

  lemma LengthPrintable(headers: seq<Header>, n: nat)
    requires AllPrintable(headers)
    ensures AllPrintable(headers + [Header("Content-Length", Digits(n, 10))])
  {
    hide PrintableHeader;
    hide Digits;
    DigitsPrintable(n);
  }

  lemma SizedPrintable(role: Role, line: string, headers: seq<Header>, body: string, request: Option<Record>)
    requires IsLine(line) && (request.Some? <==> role == Response)
    requires AllPrintable(headers)
    requires FramingOf(role, line, headers, request) == Some(Known(|body|))
    ensures PrintableRecord(role, Record(line, headers, body, request))
  {
    hide FramingOf;
    hide PrintableHeader;
    hide IsLine;
  }

  lemma PostFraming(target: string, headers: seq<Header>, n: nat)
    requires Lookup(headers, "Content-Length").None? && n <= LONG_MAX
    ensures RequestFraming("POST " + target, headers + [Header("Content-Length", Digits(n, 10))]) == Some(Known(n))
  {
    hide Lookup;
    hide ContentLength;
    hide Digits;
    LookupAppended(headers, "Content-Length", Digits(n, 10));
    PrintedLength(n);
    var line := "POST " + target;
    assert line[0] == 'P' && line[1] == 'O' && "POST " <= line;
    assert !("GET " <= line) && !("HEAD " <= line);
  }

  /** A POST request with any printable headers, any body and its length in decimal survives
      printing and parsing. */
  lemma PostPrintable(target: string, headers: seq<Header>, body: string)
    requires IsLine("POST " + target) && |body| <= LONG_MAX
    requires AllPrintable(headers)
    requires Lookup(headers, "Content-Length").None?
    ensures PrintableRecord(Request,
      Record("POST " + target, headers + [Header("Content-Length", Digits(|body|, 10))], body, None))
  {
    hide Lookup;
    hide RequestFraming;
    hide PrintableHeader;
    hide PrintableRecord;
    hide Digits;
    hide IsLine;
    LengthPrintable(headers, |body|);
    PostFraming(target, headers, |body|);
    SizedPrintable(Request, "POST " + target, headers + [Header("Content-Length", Digits(|body|, 10))], body, None);
  }

  lemma SizedFraming(line: string, code: string, headers: seq<Header>, n: nat, request: Record)
    requires StatusCode(line) == Some(code)
    requires code[0] != '1' && code != "204" && code != "304" && !("HEAD " <= request.firstLine)
    requires Lookup(headers, "Content-Length").None? && n <= LONG_MAX
    requires Lookup(headers + [Header("Content-Length", Digits(n, 10))], "Transfer-Encoding").None?
    ensures ResponseFraming(line, headers + [Header("Content-Length", Digits(n, 10))], Some(request)) == Some(Known(n))
  {
    hide Lookup;
    hide ContentLength;
    hide StatusCode;
    hide Digits;
    hide EquivalentStrings;
    hide LastToken;
    LookupAppended(headers, "Content-Length", Digits(n, 10));
    PrintedLength(n);
  }

  /** The same for a response of rule 3. */
  lemma SizedResponsePrintable(version: string, code: string, reason: string, headers: seq<Header>,
                               body: string, request: Record)
    requires ' ' !in version && ' ' !in code && code != ""
    requires code[0] != '1' && code != "204" && code != "304" && !("HEAD " <= request.firstLine)
    requires IsLine(version + " " + (code + " " + reason)) && |body| <= LONG_MAX
    requires AllPrintable(headers)
    requires Lookup(headers, "Content-Length").None?
    requires Lookup(headers + [Header("Content-Length", Digits(|body|, 10))], "Transfer-Encoding").None?
    ensures PrintableRecord(Response,
      Record(version + " " + (code + " " + reason),
             headers + [Header("Content-Length", Digits(|body|, 10))], body, Some(request)))
  {
    hide Lookup;
    hide ResponseFraming;
    hide PrintableHeader;
    hide PrintableRecord;
    hide Digits;
    hide StatusCode;
    hide IsLine;
    var line := version + " " + (code + " " + reason);
    StatusLineCode(version, code, reason);
    LengthPrintable(headers, |body|);
    SizedFraming(line, code, headers, |body|, request);
    SizedPrintable(Response, line, headers + [Header("Content-Length", Digits(|body|, 10))], body, Some(request));
  }

  /** A chunked response is framed by its body exactly when the body is well formed and the
      Trailer header agrees with it. */
  lemma ChunkedResponseFramed(r: Record, trailers: bool, chunks: seq<ChunkedGrammar.Chunk>, last: string,
                              trailer: seq<string>)
    requires FramingOf(Response, r.firstLine, r.headers, r.request) == Some(ByChunks(ChunkedBody.Fresh(trailers)))
    requires ChunkedGrammar.IsBody(chunks, last, trailer) && r.body == ChunkedGrammar.BodyText(chunks, last, trailer)
    ensures Framed(Response, r) <==> (trailers <==> trailer != [])
  {
    hide FramingOf;
    hide ChunkedBody.Read;
    ChunkedGrammar.ChunkedExact(trailers, chunks, last, trailer, "");
    assert r.body + "" == r.body;
  }

  lemma ChunkedFraming(line: string, code: string, headers: seq<Header>, codings: seq<string>, last: string,
                       request: Record)
    requires StatusCode(line) == Some(code)
    requires code[0] != '1' && code != "204" && code != "304" && !("HEAD " <= request.firstLine)
    requires ',' !in last && forall t :: t in codings ==> ',' !in t
    requires Lookup(headers, "Transfer-Encoding") == Some(Join(codings + [last], ","))
    requires EquivalentStrings(last, "chunked")
    ensures ResponseFraming(line, headers, Some(request))
         == Some(ByChunks(ChunkedBody.Fresh(Lookup(headers, "Trailer").Some?)))
  {
    hide StatusCode;
    hide FramingByHeaders;
    hide Lookup;
    hide EquivalentStrings;
    hide Join;
    ChunkedResponse(headers, codings, last);
  }

  /** A response of rule 2 as it is written - status line, transfer codings ending in chunked, a
      body by the grammar of section 3.6.1 of RFC 2616 - survives printing and parsing exactly
      when it announces a trailer and has one, or neither. */
  lemma ChunkedResponsePrintable(version: string, code: string, reason: string, headers: seq<Header>,
                                 codings: seq<string>, coding: string, chunks: seq<ChunkedGrammar.Chunk>,
                                 last: string, trailer: seq<string>, request: Record)
    requires ' ' !in version && ' ' !in code && code != ""
    requires code[0] != '1' && code != "204" && code != "304" && !("HEAD " <= request.firstLine)
    requires IsLine(version + " " + (code + " " + reason)) && AllPrintable(headers)
    requires ',' !in coding && forall t :: t in codings ==> ',' !in t
    requires Lookup(headers, "Transfer-Encoding") == Some(Join(codings + [coding], ","))
    requires EquivalentStrings(coding, "chunked")
    requires ChunkedGrammar.IsBody(chunks, last, trailer)
    ensures PrintableRecord(Response,
              Record(version + " " + (code + " " + reason), headers,
                     ChunkedGrammar.BodyText(chunks, last, trailer), Some(request)))
       <==> (Lookup(headers, "Trailer").Some? <==> trailer != [])
  {
    hide Lookup;
    hide Join;
    hide EquivalentStrings;
    hide StatusCode;
    hide ResponseFraming;
    hide AllPrintable;
    hide IsLine;
    hide Framed;
    hide ChunkedGrammar.IsBody;
    hide ChunkedGrammar.BodyText;
    var line := version + " " + (code + " " + reason);
    var body := ChunkedGrammar.BodyText(chunks, last, trailer);
    StatusLineCode(version, code, reason);
    ChunkedFraming(line, code, headers, codings, coding, request);
    ChunkedResponseFramed(Record(line, headers, body, Some(request)), Lookup(headers, "Trailer").Some?,
                          chunks, last, trailer);
  }
}
