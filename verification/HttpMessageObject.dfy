/** HTTPMessage, HTTPRequest and HTTPResponse as one object updated in place; the role says
    which of the two subclasses' overrides apply. */
module HttpMessageObject {
  import opened Strings
  import opened Ezio
  import opened Machine
  import opened Tokenize
  import opened HttpHeader
  import opened ChunkedBody
  import opened ChunkedParser
  import opened HttpMessage

  class MessageObject {
    const role: Role
    var state: State
    var firstLine: string
    var headers: seq<Header>
    var body: string
    var request: Option<Record>
    var sizeKnown: bool                       // expected_body_size_.first
    var expectedSize: nat                     // expected_body_size_.second
    var chunkedParser: ChunkedBodyParser?     // body_parser_, when it is a ChunkedBodyParser
    var rule5: bool                           // body_parser_ is a Rule5BodyParser

    function Repr(): set<object>
      reads this
    {
      if chunkedParser == null then {this} else {this, chunkedParser}
    }

    function Model(): Message
      reads this, chunkedParser
    {
      Message(role, state, firstLine, headers, body,
        if state != BodyPending then Unset
        else if sizeKnown then Known(expectedSize)
        else if chunkedParser != null then ByChunks(chunkedParser.Model())
        else if rule5 then UntilEof
        else Unset,
        request)
    }

    ghost predicate Valid()
      reads this, chunkedParser
    {
      && InProgress(Model())
      && (state.FirstLinePending? || state.HeadersPending? ==>
        !sizeKnown && chunkedParser == null && !rule5 && body == "")
    }

    constructor (role: Role)
      ensures Valid() && Model() == NewMessage(role) && Repr() == {this}
    {
      this.role := role;
      state := FirstLinePending;
      firstLine, headers, body, request := "", [], "", None;
      sizeKnown, expectedSize, chunkedParser, rule5 := false, 0, null, false;
    }

    method SetRequest(r: Record)
      requires Valid() && state == FirstLinePending
      modifies this
      ensures Valid() && Model() == old(Model()).(request := Some(r)) && Repr() == old(Repr())
    {
      request := Some(r);
    }

    method SetFirstLine(line: string)
      requires Valid() && state == FirstLinePending
      modifies this
      ensures Valid() && Model() == WithFirstLine(old(Model()), line) && Repr() == old(Repr())
    {
      firstLine := line;
      state := HeadersPending;
    }

    method AddHeader(line: string) returns (ok: bool)
      requires Valid() && state == HeadersPending
      modifies this
      ensures Valid() && Repr() == old(Repr())
      ensures ok <==> WithHeader(old(Model()), line).Some?
      ensures ok ==> Model() == WithHeader(old(Model()), line).value
    {
      hide ParseHeader;
      var header := ParseHeader(line);
      ok := header.Some?;
      if ok {
        headers := headers + [header.value];
      }
    }

    /** HTTPRequest::calculate_expected_body_size */
    method CalculateRequestSize() returns (ok: bool)
      requires role == Request && state == BodyPending && !sizeKnown && chunkedParser == null && !rule5
      modifies this`sizeKnown, this`expectedSize
      ensures ok <==> RequestFraming(firstLine, headers).Some?
      ensures ok ==> sizeKnown && RequestFraming(firstLine, headers).value == Known(expectedSize)
    {
      hide Myatoi;
      hide Lookup;
      if "GET " <= firstLine || "HEAD " <= firstLine {
        sizeKnown, expectedSize := true, 0;
        return true;
      } else if "POST " <= firstLine {
        var value := FindHeader(headers, "Content-Length");
        if value.None? {
          return false;
        }
        ok := SetContentLength(value.value);
      } else {
        return false;
      }
    }

    method SetContentLength(value: string) returns (ok: bool)
      modifies this`sizeKnown, this`expectedSize
      ensures ok <==> ContentLength(value).Some?
      ensures ok ==> sizeKnown && ContentLength(value).value == Known(expectedSize)
      ensures !ok ==> sizeKnown == old(sizeKnown)
    {
      var n := Myatoi(value, 10);
      ok := n.Some?;
      if ok {
        sizeKnown, expectedSize := true, n.value % UINT64;
      }
    }

    /** HTTPResponse::calculate_expected_body_size, rules 2 to 5 */
    method CalculateFromHeaders() returns (ok: bool)
      requires state == BodyPending && !sizeKnown && chunkedParser == null && !rule5
      modifies this`sizeKnown, this`expectedSize, this`chunkedParser, this`rule5
      ensures ok <==> FramingByHeaders(headers).Some?
      ensures ok ==> Model() == old(Model()).(framing := FramingByHeaders(headers).value)
      ensures fresh(Repr() - old(Repr()))
    {
      hide ContentLength;
      hide Lookup;
      hide Split;
      hide EquivalentStrings;
      var encoding := FindHeader(headers, "Transfer-Encoding");
      var chunked := false;
      if encoding.Some? {
        chunked := CompareStrings(LastToken(encoding.value, ","), "chunked");
      }
      var length := FindHeader(headers, "Content-Length");
      if chunked {
        var trailer := FindHeader(headers, "Trailer");
        chunkedParser := new ChunkedBodyParser(trailer.Some?);
        ok := true;
      } else if encoding.None? && length.Some? {
        ok := SetContentLength(length.value);
      } else {
        ok := SetUntilEof();
      }
    }

    /** Rules 4 and 5: multipart/byteranges is refused, anything else ends at the end of file. */
    method SetUntilEof() returns (ok: bool)
      requires state == BodyPending && !sizeKnown && chunkedParser == null && !rule5
      modifies this`rule5
      ensures ok == rule5
      ensures rule5 <==>
        var mime := Lookup(headers, "Content-Type");
        mime.None? || (Split(mime.value, ";")[0] != ""
                       && !EquivalentStrings(Split(mime.value, ";")[0], "multipart/byteranges"))
    {
      hide Lookup;
      hide Split;
      hide EquivalentStrings;
      var mime := FindHeader(headers, "Content-Type");
      if mime.Some? {
        var kind := Split(mime.value, ";")[0];
        if kind == "" {
          return false;
        }
        var byteranges := CompareStrings(kind, "multipart/byteranges");
        if byteranges {
          return false;
        }
      }
      rule5 := true;
      ok := true;
    }

    /** HTTPResponse::calculate_expected_body_size */
    method CalculateResponseSize() returns (ok: bool)
      requires state == BodyPending && !sizeKnown && chunkedParser == null && !rule5
      modifies this`sizeKnown, this`expectedSize, this`chunkedParser, this`rule5
      ensures ok <==> ResponseFraming(firstLine, headers, request).Some?
      ensures ok ==> Model() == old(Model()).(framing := ResponseFraming(firstLine, headers, request).value)
      ensures fresh(Repr() - old(Repr()))
    {
      hide FramingByHeaders;
      hide StatusCode;
      var code := StatusCode(firstLine);
      if code.None? {
        return false;
      }
      if code.value[0] == '1' || code.value == "204" || code.value == "304" {
        sizeKnown, expectedSize := true, 0;
        return true;
      }
      if request.None? {
        return false;
      }
      if "HEAD " <= request.value.firstLine {
        sizeKnown, expectedSize := true, 0;
        return true;
      }
      ok := CalculateFromHeaders();
    }

    method DoneWithHeaders() returns (ok: bool)
      requires Valid() && state == HeadersPending
      modifies this
      ensures ok <==> WithoutMoreHeaders(old(Model())).Some?
      ensures ok ==> Valid() && Model() == WithoutMoreHeaders(old(Model())).value
      ensures fresh(Repr() - old(Repr()))
    {
      hide RequestFraming;
      hide ResponseFraming;
      if WithoutMoreHeaders(Model()).Some? {
        FramingInProgress(Model());
      }
      state := BodyPending;
      if role == Request {
        ok := CalculateRequestSize();
      } else {
        ok := CalculateResponseSize();
      }
    }

    /** read_in_body: the number of bytes taken, or None for an exception. */
    method ReadBody(input: string) returns (count: Option<nat>)
      requires Valid() && state == BodyPending && |input| < OVERSIZE
      modifies Repr()
      ensures Repr() == old(Repr())
      ensures count.None? <==> ReadInBody(old(Model()), input).Refused?
      ensures count.Some? ==> Valid() && ReadInBody(old(Model()), input) == Took(Model(), count.value)
    {
      hide ChunkedBody.Read;
      ReadInBodySplit(Model(), input, "");
      if sizeKnown {
        var amount := if expectedSize - |body| < |input| then expectedSize - |body| else |input|;
        body := body + input[..amount];
        if |body| == expectedSize {
          state := Complete;
        } else {
          assert input[..amount] == input;
        }
        return Some(amount);
      } else {
        count := ReadInComplexBody(input);
      }
    }

    /** read_in_complex_body; a request never has a body of unknown size. */
    method ReadInComplexBody(input: string) returns (count: Option<nat>)
      requires Valid() && state == BodyPending && !sizeKnown && |input| < OVERSIZE
      modifies Repr()
      ensures Repr() == old(Repr())
      ensures count.None? <==> ReadInBody(old(Model()), input).Refused?
      ensures count.Some? ==> ReadInBody(old(Model()), input) == Took(Model(), count.value)
    {
      hide ChunkedBody.Read;
      if chunkedParser == null {
        body := body + input;
        return Some(|input|);
      }
      ReadExact(chunkedParser.Model(), input);
      var outcome := chunkedParser.Read(input);
      match outcome
      case Bad => return None;
      case More =>
        body := body + input;
        return Some(|input|);
      case Done(n) =>
        body := body + input[..n];
        state := Complete;
        return Some(n);
    }

    /** eof */
    method Eof() returns (ok: bool)
      requires Valid()
      modifies this
      ensures ok <==> AtEof(old(Model())).Some?
      ensures Valid() && (ok ==> Model() == AtEof(old(Model())).value) && Repr() == old(Repr())
    {
      match state
      case FirstLinePending => return true;
      case HeadersPending => return false;
      case BodyPending =>
        // a BodyParser of either kind allows the end of file, a known size does not
        if !sizeKnown && (chunkedParser != null || rule5) {
          state := Complete;
          return true;
        }
        return false;
      case Complete => return false;
    }
  }
}
