/** One HTTP message being received: the values it goes through. */
module HttpMessage {
  import opened Strings
  import opened Ezio
  import opened Machine
  import opened Tokenize
  import opened HttpHeader
  import opened ChunkedBody

  datatype Role = Request | Response

  datatype State = FirstLinePending | HeadersPending | BodyPending | Complete

  /** A complete message as its readers see it; a response carries the request it answers. */
  datatype Record = Record(firstLine: string, headers: seq<Header>, body: string, request: Option<Record>)

  /** How the end of the body is found: expected_body_size_ and body_parser_ together. */
  datatype Framing = Unset | Known(size: nat) | ByChunks(parser: Chunked) | UntilEof

  datatype Message = Message(
    role: Role,
    state: State,
    firstLine: string,
    headers: seq<Header>,
    body: string,
    framing: Framing,
    request: Option<Record>)

  function NewMessage(role: Role): Message
  {
    Message(role, FirstLinePending, "", [], "", Unset, None)
  }

  function RecordOf(m: Message): Record
  {
    Record(m.firstLine, m.headers, m.body, m.request)
  }

  /** A Content-Length, converted to size_t. */
  function ContentLength(value: string): Option<Framing>
  {
    match Myatoi(value, 10)
    case None => None
    case Some(n) => Some(Known(n % UINT64))
  }

  /** HTTPRequest::calculate_expected_body_size; None is an exception. */
  function RequestFraming(firstLine: string, headers: seq<Header>): Option<Framing>
  {
    if "GET " <= firstLine || "HEAD " <= firstLine then Some(Known(0))
    else if "POST " <= firstLine then
      match Lookup(headers, "Content-Length")
      case None => None
      case Some(value) => ContentLength(value)
    else None
  }

  /** status_code followed by reading its first character. */
  function StatusCode(firstLine: string): (r: Option<string>)
    ensures r.Some? ==> r.value != ""
  {
    var tokens := Split(firstLine, " ");
    if |tokens| < 3 || tokens[1] == "" then None else Some(tokens[1])
  }

  function LastToken(s: string, sep: string): string
  {
    var tokens := Split(s, sep);
    tokens[|tokens| - 1]
  }

  /** Rules 2 to 5 of section 4.4 of RFC 2616. */
  function FramingByHeaders(headers: seq<Header>): Option<Framing>
  {
    var encoding := Lookup(headers, "Transfer-Encoding");
    if encoding.Some? && EquivalentStrings(LastToken(encoding.value, ","), "chunked") then
      Some(ByChunks(Fresh(Lookup(headers, "Trailer").Some?)))
    else if encoding.None? && Lookup(headers, "Content-Length").Some? then
      ContentLength(Lookup(headers, "Content-Length").value)
    else
      match Lookup(headers, "Content-Type")
      case None => Some(UntilEof)
      case Some(value) =>
        var mime := Split(value, ";")[0];
        if mime == "" || EquivalentStrings(mime, "multipart/byteranges") then None else Some(UntilEof)
  }

  /** HTTPResponse::calculate_expected_body_size. */
  function ResponseFraming(firstLine: string, headers: seq<Header>, request: Option<Record>): Option<Framing>
  {
    match StatusCode(firstLine)
    case None => None
    case Some(code) =>
      if code[0] == '1' || code == "204" || code == "304" then Some(Known(0))
      else if request.None? then None
      else if "HEAD " <= request.value.firstLine then Some(Known(0))
      else FramingByHeaders(headers)
  }

  function FramingOf(role: Role, firstLine: string, headers: seq<Header>, request: Option<Record>): Option<Framing>
  {
    match role
    case Request => RequestFraming(firstLine, headers)
    case Response => ResponseFraming(firstLine, headers, request)
  }

  function WithFirstLine(m: Message, line: string): Message
  {
    m.(firstLine := line, state := HeadersPending)
  }

  function WithHeader(m: Message, line: string): Option<Message>
  {
    match ParseHeader(line)
    case None => None
    case Some(h) => Some(m.(headers := m.headers + [h]))
  }

  function WithoutMoreHeaders(m: Message): Option<Message>
  {
    match FramingOf(m.role, m.firstLine, m.headers, m.request)
    case None => None
    case Some(f) => Some(m.(state := BodyPending, framing := f))
  }

  /** The message after reading from `input`, and how much of it was body. */
  datatype BodyRead = Refused | Took(message: Message, count: nat)

  function TakeAll(m: Message, input: string, framing: Framing): BodyRead
  {
    Took(m.(body := m.body + input, framing := framing), |input|)
  }

  /** A finished body; its framing is not consulted again. */
  function TakeLast(m: Message, input: string, count: nat): BodyRead
    requires count <= |input|
  {
    Took(m.(body := m.body + input[..count], state := Complete, framing := Unset), count)
  }

  /** read_in_body. */
  function ReadInBody(m: Message, input: string): (r: BodyRead)
    ensures r.Took? ==> r.count <= |input| && (r.message.state == Complete || r.count == |input|)
  {
    match m.framing
    case Unset => Refused
    case Known(n) =>
      if n < |m.body| then Refused
      else if n - |m.body| <= |input| then TakeLast(m, input, n - |m.body|)
      else TakeAll(m, input, m.framing)
    case UntilEof => TakeAll(m, input, UntilEof)
    case ByChunks(c) =>
      var r := ChunkedBody.Read(c, input);
      match r.outcome
      case Bad => Refused
      case More => TakeAll(m, input, ByChunks(r.next))
      case Done(n) => if n <= |input| then TakeLast(m, input, n) else Refused
  }

  /** eof; None is an exception. */
  function AtEof(m: Message): Option<Message>
  {
    match m.state
    case FirstLinePending => Some(m)
    case HeadersPending => None
    case BodyPending =>
      if m.framing.ByChunks? || m.framing.UntilEof? then Some(m.(state := Complete, framing := Unset)) else None
    case Complete => None
  }

  /** What holds of a message in progress between calls. */
  ghost predicate InProgress(m: Message)
  {
    && (m.state == BodyPending ==> match m.framing
        case Unset => false
        case Known(n) => |m.body| <= n
        case ByChunks(c) => AtRest(c) && m.role == Response
        case UntilEof => m.role == Response)
    && (m.state != BodyPending ==> m.framing == Unset)
  }

  lemma FramingInProgress(m: Message)
    requires m.body == "" && WithoutMoreHeaders(m).Some?
    ensures InProgress(WithoutMoreHeaders(m).value)
  {
    hide Split;
    hide Myatoi;
    hide EquivalentStrings;
  }

  /** The verdict on `a + b`, when `a` has been read with verdict `first`. */
  ghost predicate ReadsOn(m: Message, first: BodyRead, b: string, whole: BodyRead)
  {
    match first
    case Refused => whole == Refused
    case Took(m1, n) =>
      if m1.state == Complete then whole == first
      else match ReadInBody(m1, b)
        case Refused => whole == Refused
        case Took(m2, k) => whole == Took(m2, n + k)
  }

  lemma KnownBodySplit(m: Message, a: string, b: string)
    requires m.state == BodyPending && m.framing.Known? && |m.body| <= m.framing.size
    ensures ReadsOn(m, ReadInBody(m, a), b, ReadInBody(m, a + b))
  {
    var k := m.framing.size - |m.body|;
    if k <= |a| {
      assert (a + b)[..k] == a[..k];
    } else {
      TwoPieces(m.body, a, b, k);
    }
  }

  lemma ChunkedBodySplit(m: Message, c: Chunked, a: string, b: string)
    requires m.state == BodyPending && m.framing == ByChunks(c) && AtRest(c)
    ensures ReadsOn(m, ReadInBody(m, a), b, ReadInBody(m, a + b))
    ensures ReadInBody(m, a).Took? && ReadInBody(m, a).message.state != Complete ==>
      ReadInBody(m, a).message.framing.ByChunks? && AtRest(ReadInBody(m, a).message.framing.parser)
  {
    hide ChunkedBody.Read;
    hide AtRest;
    ReadSplit(c, a, b);
    ReadExact(c, a);
    var first := ChunkedBody.Read(c, a);
    match first.outcome {
      case Done(n) => assert (a + b)[..n] == a[..n];
      case Bad =>
      case More =>
        ReadExact(first.next, b);
        var second := ChunkedBody.Read(first.next, b);
        TwoPieces(m.body, a, b, if second.outcome.Done? then |a| + second.outcome.n else |a + b|);
    }
  }

  /** Reading a body in two pieces is reading it at once: same place where it ends, same
      message. */
  lemma ReadInBodySplit(m: Message, a: string, b: string)
    requires m.state == BodyPending && InProgress(m)
    ensures ReadInBody(m, a).Took? ==> InProgress(ReadInBody(m, a).message)
    ensures ReadsOn(m, ReadInBody(m, a), b, ReadInBody(m, a + b))
  {
    hide ChunkedBody.Read;
    hide AtRest;
    match m.framing
    case Known(n) => KnownBodySplit(m, a, b);
    case UntilEof => TwoPieces(m.body, a, b, |a + b|);
    case ByChunks(c) => ChunkedBodySplit(m, c, a, b);
  }

  lemma TwoPieces(s: string, a: string, b: string, k: nat)
    requires |a| <= k
    ensures k <= |a + b| ==> s + (a + b)[..k] == s + a + b[..k - |a|]
    ensures s + (a + b) == s + a + b
  {
    if k <= |a + b| {
      assert (a + b)[..k] == a + b[..k - |a|];
    }
  }
}
