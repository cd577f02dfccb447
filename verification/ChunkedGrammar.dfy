/** Chunked bodies as section 3.6.1 of RFC 2616 writes them, and when the parser finds
    exactly their end. */
module ChunkedGrammar {
  import opened Strings
  import opened Ezio
  import opened ChunkedBody
  import opened Machine

  datatype Chunk = Chunk(header: string, data: string)

  /** A header line announces the size of the data after it. */
  ghost predicate IsChunk(k: Chunk)
  {
    IsLine(k.header) && ChunkSize(k.header + CRLF) == Some(|k.data|) && 0 < |k.data| < OVERSIZE
  }

  function ChunksText(chunks: seq<Chunk>): string
  {
    if chunks == [] then ""
    else chunks[0].header + CRLF + chunks[0].data + CRLF + ChunksText(chunks[1..])
  }

  function TrailerText(lines: seq<string>): string
  {
    if lines == [] then "" else lines[0] + CRLF + TrailerText(lines[1..])
  }

  /** Chunked-Body = *chunk last-chunk trailer CRLF */
  function BodyText(chunks: seq<Chunk>, last: string, trailer: seq<string>): string
  {
    ChunksText(chunks) + (last + CRLF + (TrailerText(trailer) + CRLF))
  }

  ghost predicate IsTrailer(lines: seq<string>)
  {
    forall i :: 0 <= i < |lines| ==> lines[i] != "" && IsLine(lines[i])
  }

  ghost predicate IsBody(chunks: seq<Chunk>, last: string, trailer: seq<string>)
  {
    && (forall i :: 0 <= i < |chunks| ==> IsChunk(chunks[i]))
    && IsLine(last) && ChunkSize(last + CRLF) == Some(0)
    && IsTrailer(trailer)
  }

  /** A size in hexadecimal digits of either case, with any leading zeros, that may be followed
      by blanks or an extension. */
  ghost predicate SizeParts(header: string, n: nat, hex: string, digits: seq<nat>, extension: string)
  {
    && header == hex + extension && Spells(hex, digits, 16) && Positional(digits, 16) == n
    && IsLine(extension) && (extension == "" || extension[0] == ';' || extension[0] == ' ')
  }

  ghost predicate SizeLine(header: string, n: nat)
  {
    exists hex, digits, extension :: SizeParts(header, n, hex, digits, extension)
  }

  lemma SizeLineRead(header: string, n: nat)
    requires SizeLine(header, n) && n <= LONG_MAX
    ensures IsLine(header) && ChunkSize(header + CRLF) == Some(n % UINT32)
  {
    hide Myatoi;
    hide ChunkSize;
    hide OccursAt;
    hide Positional;
    var hex, digits, extension :| SizeParts(header, n, hex, digits, extension);
    SpelledValue(hex, digits, 16);
    NumberRead(hex, digits, 16);
    HexThenLine(hex, extension);
    NoSeparators(hex);
    SizeField(hex, extension);
  }

  lemma NoSeparators(hex: string)
    requires AllDigits(hex, 16)
    ensures ';' !in hex && ' ' !in hex
  {
    assert forall i :: 0 <= i < |hex| ==> IsDigit(hex[i], 16);
  }

  /** A size line heads a chunk. */
  lemma PrintedChunk(header: string, data: string)
    requires SizeLine(header, |data|) && 0 < |data| < OVERSIZE
    ensures IsChunk(Chunk(header, data))
  {
    hide ChunkSize;
    hide SizeLine;
    SizeLineRead(header, |data|);
  }

  /** A size line for zero heads the last chunk. */
  lemma PrintedLastChunk(last: string)
    requires SizeLine(last, 0)
    ensures IsBody([], last, [])
  {
    hide ChunkSize;
    hide SizeLine;
    SizeLineRead(last, 0);
  }

  /** A printed size is a size line, with an extension or without. */
  lemma PrintedSize(n: nat, extension: string)
    requires IsLine(extension) && (extension == "" || extension[0] == ';' || extension[0] == ' ')
    ensures SizeLine(Digits(n, 16) + extension, n)
  {
    hide Digits;
    hide Spells;
    hide Positional;
    hide IsLine;
    DigitsWorth(n, 16);
    var digits :| Spells(Digits(n, 16), digits, 16) && Positional(digits, 16) == n;
    assert SizeParts(Digits(n, 16) + extension, n, Digits(n, 16), digits, extension);
  }

  /** A chunked body as the grammar has it. */
  ghost predicate Grammatical(chunks: seq<Chunk>, last: string, trailer: seq<string>)
  {
    && (forall i :: 0 <= i < |chunks| ==>
          SizeLine(chunks[i].header, |chunks[i].data|) && 0 < |chunks[i].data| < OVERSIZE)
    && SizeLine(last, 0) && IsTrailer(trailer)
  }

  /** The parser accepts the size lines of every such body. */
  lemma GrammaticalBody(chunks: seq<Chunk>, last: string, trailer: seq<string>)
    requires Grammatical(chunks, last, trailer)
    ensures IsBody(chunks, last, trailer)
  {
    hide ChunkSize;
    hide SizeLine;
    hide IsChunk;
    forall i | 0 <= i < |chunks| ensures IsChunk(chunks[i])
    {
      PrintedChunk(chunks[i].header, chunks[i].data);
      assert chunks[i] == Chunk(chunks[i].header, chunks[i].data);
    }
    SizeLineRead(last, 0);
  }

  lemma HexThenLine(hex: string, extension: string)
    requires AllDigits(hex, 16) && IsLine(extension)
    ensures IsLine(hex + extension)
  {
    forall i ensures !OccursAt(hex + extension, CRLF, i)
    {
      if 0 <= i < |hex| && i + 2 <= |hex + extension| {
        assert IsDigit(hex[i], 16);
        assert (hex + extension)[i..i + 2][0] == hex[i] != CRLF[0];
      } else if |hex| <= i {
        OccursInSuffix(hex, extension, CRLF, i);
      }
    }
  }

  /** Where a header line's size field ends: at the extension, or at the end of the line. */
  lemma FieldEnd(hex: string, extension: string)
    requires ';' !in hex
    requires extension == "" || extension[0] == ';' || extension[0] == ' '
    ensures var semicolon := Find(hex + extension + CRLF, ";");
      semicolon.Some? ==> |hex| <= semicolon.value < |hex + extension|
    ensures var semicolon := Find(hex + extension + CRLF, ";");
      semicolon.Some? && extension != "" && extension[0] == ';' ==> semicolon.value == |hex|
    ensures var semicolon := Find(hex + extension + CRLF, ";");
      semicolon.None? ==> extension == "" || extension[0] == ' '
  {
    var line := hex + extension + CRLF;
    assert forall i :: 0 <= i < |hex| ==> hex[i] != ';';
    NoneBefore(line, ";", |hex|);
    if extension != "" {
      assert line[|hex|..|hex| + 1] == [extension[0]];
      assert extension[0] == ';' ==> OccursAt(line, ";", |hex|);
    }
    var semicolon := Find(line, ";");
    if semicolon.Some? {
      assert line[semicolon.value..semicolon.value + 1][0] == line[semicolon.value];
      assert line[|hex + extension|] == '\r' && line[|hex + extension| + 1] == '\n';
    }
  }

  /** What the cut at the first blank leaves of the field. */
  lemma FieldDigits(hex: string, extension: string, end: nat)
    requires ' ' !in hex && |hex| <= end <= |hex + extension|
    requires |hex| < end ==> extension[0] == ' '
    ensures var field := (hex + extension)[..end];
      var space := Find(field, " ");
      (if space.Some? then field[..space.value] else field) == hex
  {
    var field := (hex + extension)[..end];
    assert forall i :: 0 <= i < |hex| ==> hex[i] != ' ';
    NoneBefore(field, " ", |hex|);
    if |hex| < end {
      assert field[|hex|] == ' ';
      assert field[|hex|..|hex| + 1] == " ";
      assert OccursAt(field, " ", |hex|);
      assert field[..|hex|] == hex;
    } else {
      assert field == hex;
    }
  }

  /** The field is what is left of a header line once extension and blanks are cut off. */
  lemma SizeField(hex: string, extension: string)
    requires ';' !in hex && ' ' !in hex && IsLine(hex + extension)
    requires extension == "" || extension[0] == ';' || extension[0] == ' '
    ensures ChunkSize(hex + extension + CRLF)
         == match Myatoi(hex, 16) { case None => None case Some(v) => Some(v % UINT32) }
  {
    hide Myatoi;
    hide Find;
    hide OccursAt;
    var header := hex + extension;
    var line := header + CRLF;
    FindLineEnd(header, "");
    assert header + CRLF + "" == line;
    FieldEnd(hex, extension);
    var semicolon := Find(line, ";");
    var end := if semicolon.Some? then semicolon.value else |header|;
    assert line[..end] == header[..end];
    FieldDigits(hex, extension, end);
  }

  lemma NoneBefore(s: string, needle: string, n: nat)
    requires |needle| == 1 && n <= |s| && forall i :: 0 <= i < n ==> s[i] != needle[0]
    ensures forall j :: j < n ==> !OccursAt(s, needle, j)
  {
    forall j | j < n ensures !OccursAt(s, needle, j)
    {
      if 0 <= j && j + 1 <= |s| {
        assert s[j..j + 1][0] == s[j];
      }
    }
  }

  /** The loop eats whole chunks one after the other. */
  lemma {:induction false} LoopChunks(c: Chunked, chunks: seq<Chunk>, rest: string) returns (size: uint32)
    requires c.phase == ChunkHdr && c.buffer == ChunksText(chunks) + rest
    requires forall i :: 0 <= i < |chunks| ==> IsChunk(chunks[i])
    ensures Loop(c) == Loop(Chunked(rest, size, ChunkHdr, c.trailers, c.parsed + |ChunksText(chunks)|, c.acked))
    decreases |chunks|
  {
    hide ChunkSize;
    hide Step;
    if chunks == [] {
      size := c.size;
      assert c.buffer == rest;
    } else {
      var k := chunks[0];
      var after := ChunksText(chunks[1..]) + rest;
      assert IsChunk(k);
      var d := LoopOneChunk(c, k, after);
      size := LoopChunks(d, chunks[1..], rest);
    }
  }

  lemma LoopOneChunk(c: Chunked, k: Chunk, after: string) returns (d: Chunked)
    requires c.phase == ChunkHdr && IsChunk(k)
    requires c.buffer == k.header + CRLF + k.data + CRLF + after
    ensures Loop(c) == Loop(d)
    ensures d == Chunked(after, |k.data|, ChunkHdr, c.trailers, c.parsed + |k.header| + |k.data| + 4, c.acked)
  {
    hide ChunkSize;
    var mid := HeaderLine(c, k.header, k.data + CRLF + after, |k.data|);
    var n := |k.data|;
    assert mid.buffer[n..n + 2] == CRLF;
    assert mid.buffer[n + 2..] == after;
    d := Chunked(after, n, ChunkHdr, c.trailers, mid.parsed + n + 2, c.acked);
    assert Step(mid) == Advance(d);
  }

  lemma HeaderLine(c: Chunked, header: string, rest: string, n: uint32) returns (d: Chunked)
    requires c.phase == ChunkHdr && IsLine(header) && ChunkSize(header + CRLF) == Some(n)
    requires c.buffer == header + CRLF + rest
    ensures Loop(c) == Loop(d)
    ensures d == Chunked(rest, n, if n == 0 then Trailer else ChunkData, c.trailers,
                         c.parsed + |header| + 2, c.acked)
  {
    hide ChunkSize;
    FindLineEnd(header, rest);
    assert c.buffer[..|header| + 2] == header + CRLF;
    assert c.buffer[|header| + 2..] == rest;
    d := Chunked(rest, n, if n == 0 then Trailer else ChunkData, c.trailers, c.parsed + |header| + 2, c.acked);
    assert Step(c) == Advance(d);
  }

  /** No blank line begins before the end of a line that is not followed by one. */
  lemma NoBlankLineYet(line: string, after: string, j: int)
    requires IsLine(line) && !OccursAt(after, CRLF, 0) && j < |line| + 2
    ensures !OccursAt(line + CRLF + after, CRLF + CRLF, j)
  {
    var s, n := line + CRLF + after, |line|;
    FindLineEnd(line, after);
    if 0 <= j && j + 4 <= |s| {
      if j < n {
        assert s[j..j + 2] == s[j..j + 4][..2];
        assert !OccursAt(s, CRLF, j);
      } else if j == n {
        assert s[j..j + 4][2..] == after[0..2];
      } else {
        assert s[j..j + 4][0] == '\n';
      }
    }
  }

  lemma TrailerUnfold(lines: seq<string>, rest: string)
    requires lines != []
    ensures TrailerText(lines) + CRLF + rest == lines[0] + CRLF + (TrailerText(lines[1..]) + CRLF + rest)
    ensures |TrailerText(lines)| == |lines[0]| + 2 + |TrailerText(lines[1..])|
  {
    var tail := TrailerText(lines[1..]);
    assert lines[0] + CRLF + tail + CRLF + rest == lines[0] + CRLF + (tail + CRLF + rest);
  }

  /** Two consecutive line endings first occur at the end of a non-empty trailer. */
  lemma {:induction false} TrailerEnd(lines: seq<string>, rest: string)
    requires lines != [] && IsTrailer(lines)
    ensures Find(TrailerText(lines) + CRLF + rest, CRLF + CRLF) == Some(|TrailerText(lines)| - 2)
    decreases |lines|
  {
    hide Find;
    hide OccursAt;
    hide TrailerText;
    var line, tail := lines[0], lines[1..];
    TrailerUnfold(lines, rest);
    if tail == [] {
      EmptyTrailer(rest);
      LastTrailerLine(line, rest);
    } else {
      var after := TrailerText(tail) + CRLF + rest;
      TrailerEnd(tail, rest);
      TrailerUnfold(tail, rest);
      NoEarlyLineEnd(tail[0], TrailerText(tail[1..]) + CRLF + rest);
      TrailerEndShift(line, after);
    }
  }

  lemma EmptyTrailer(rest: string)
    ensures TrailerText([]) == "" && TrailerText([]) + CRLF + rest == CRLF + rest && IsLine("")
  {
  }

  lemma NoEarlyLineEnd(line: string, rest: string)
    requires line != "" && IsLine(line)
    ensures !OccursAt(line + CRLF + rest, CRLF, 0)
  {
    FindLineEnd(line, rest);
  }

  lemma LastTrailerLine(line: string, rest: string)
    requires IsLine(line)
    ensures Find(line + CRLF + (CRLF + rest), CRLF + CRLF) == Some(|line|)
  {
    var s := line + CRLF + (CRLF + rest);
    FindLineEnd(line, CRLF + rest);
    assert s[|line|..|line| + 4] == CRLF + CRLF;
    assert OccursAt(s, CRLF + CRLF, |line|);
    forall j | 0 <= j < |line| ensures !OccursAt(s, CRLF + CRLF, j)
    {
      if j + 4 <= |s| {
        assert s[j..j + 2] == s[j..j + 4][..2];
        assert !OccursAt(s, CRLF, j);
      }
    }
  }

  lemma TrailerEndShift(line: string, after: string)
    requires IsLine(line) && !OccursAt(after, CRLF, 0) && Find(after, CRLF + CRLF).Some?
    ensures Find(line + CRLF + after, CRLF + CRLF) == Some(|line| + 2 + Find(after, CRLF + CRLF).value)
  {
    var e := Find(after, CRLF + CRLF).value;
    OccursInSuffix(line + CRLF, after, CRLF + CRLF, |line| + 2 + e);
    forall j | 0 <= j < |line| + 2 + e ensures !OccursAt(line + CRLF + after, CRLF + CRLF, j)
    {
      if j < |line| + 2 {
        NoBlankLineYet(line, after, j);
      } else {
        OccursInSuffix(line + CRLF, after, CRLF + CRLF, j);
      }
    }
  }

  lemma TrailerSearch(trailers: bool, lines: seq<string>, rest: string)
    requires IsTrailer(lines)
    ensures var found := Find(TrailerText(lines) + CRLF + rest, Terminator(trailers));
      (found.Some? && found.value + |Terminator(trailers)| == |TrailerText(lines)| + 2)
      <==> (trailers <==> lines != [])
  {
    hide Find;
    hide OccursAt;
    hide TrailerText;
    if lines == [] {
      EmptyTrailer(rest);
      FindLineEnd("", rest);
      assert "" + CRLF + rest == CRLF + rest;
    } else {
      TrailerEnd(lines, rest);
      TrailerUnfold(lines, rest);
      FindLineEnd(lines[0], TrailerText(lines[1..]) + CRLF + rest);
    }
  }

  /** One read of a well-formed body followed by anything reports exactly the end of the body
      precisely when the parser looks for a trailer and there is one, or neither. */
  lemma ChunkedExact(trailers: bool, chunks: seq<Chunk>, last: string, trailer: seq<string>, rest: string)
    requires IsBody(chunks, last, trailer)
    ensures Read(Fresh(trailers), BodyText(chunks, last, trailer) + rest).outcome
            == Done(|BodyText(chunks, last, trailer)|)
       <==> (trailers <==> trailer != [])
  {
    hide Step;
    hide IsChunk;
    hide IsLine;
    hide IsTrailer;
    hide ChunkSize;
    hide ChunksText;
    hide TrailerText;
    var body := BodyText(chunks, last, trailer);
    var end := TrailerText(trailer) + CRLF + rest;
    var c := Fed(Fresh(trailers), body + rest);
    assert c.buffer == ChunksText(chunks) + (last + CRLF + end);
    var size := LoopChunks(c, chunks, last + CRLF + end);
    var d := HeaderLine(Chunked(last + CRLF + end, size, ChunkHdr, trailers, |ChunksText(chunks)|, 0), last, end, 0);
    LoopTrailer(d, trailer, rest);
    assert d.parsed + |TrailerText(trailer)| + 2 == |body|;
  }

  lemma LoopTrailer(d: Chunked, trailer: seq<string>, rest: string)
    requires d.phase == Trailer && d.buffer == TrailerText(trailer) + CRLF + rest && IsTrailer(trailer)
    ensures !Loop(d).Failed? && (Loop(d).Finished? ==> Loop(d).parsed > d.parsed)
    ensures Loop(d) == Finished(d.parsed + |TrailerText(trailer)| + 2) <==> (d.trailers <==> trailer != [])
  {
    hide Find;
    hide TrailerText;
    TrailerSearch(d.trailers, trailer, rest);
    assert d.buffer != "";
  }

  /** The same over every fragmentation: the counts acknowledged by all the reads sum to the
      length of the body, the last one lying inside its fragment. */
  lemma ChunkedExactInFragments(trailers: bool, chunks: seq<Chunk>, last: string, trailer: seq<string>,
                                rest: string, fragments: seq<string>)
    requires IsBody(chunks, last, trailer)
    requires Concat(fragments) == BodyText(chunks, last, trailer) + rest
    ensures var end := ReadAll(Fresh(trailers), fragments);
      (end.Ended? && end.total == |BodyText(chunks, last, trailer)|
       && end.index < |fragments| && 1 <= end.last <= |fragments[end.index]|)
      <==> (trailers <==> trailer != [])
  {
    hide Read;
    ChunkedExact(trailers, chunks, last, trailer, rest);
    assert AtRest(Fresh(trailers));
    ReadAllExact(Fresh(trailers), fragments);
  }

  /** The same for bodies described by the grammar alone. */
  lemma GrammaticalExact(trailers: bool, chunks: seq<Chunk>, last: string, trailer: seq<string>,
                         rest: string, fragments: seq<string>)
    requires Grammatical(chunks, last, trailer)
    requires Concat(fragments) == BodyText(chunks, last, trailer) + rest
    ensures var end := ReadAll(Fresh(trailers), fragments);
      (end.Ended? && end.total == |BodyText(chunks, last, trailer)|
       && end.index < |fragments| && 1 <= end.last <= |fragments[end.index]|)
      <==> (trailers <==> trailer != [])
  {
    hide IsBody;
    hide Grammatical;
    hide ReadAll;
    hide BodyText;
    GrammaticalBody(chunks, last, trailer);
    ChunkedExactInFragments(trailers, chunks, last, trailer, rest, fragments);
  }

  /** ---- Malformed bodies ---- */

  /** A size that is not a number in base 16 fails the read, wherever the chunk stands. */
  lemma BadSize(trailers: bool, chunks: seq<Chunk>, word: string, extension: string, rest: string)
    requires forall i :: 0 <= i < |chunks| ==> IsChunk(chunks[i])
    requires ';' !in word && ' ' !in word && IsLine(word + extension)
    requires extension == "" || extension[0] == ';' || extension[0] == ' '
    requires forall v :: !Written(word, 16, v)
    ensures Read(Fresh(trailers), ChunksText(chunks) + (word + extension + CRLF + rest)).outcome == Bad
  {
    hide Step;
    hide IsChunk;
    hide ChunkSize;
    hide ChunksText;
    hide Myatoi;
    hide Written;
    var after := word + extension + CRLF + rest;
    var c := Fed(Fresh(trailers), ChunksText(chunks) + after);
    assert c.buffer == ChunksText(chunks) + after;
    var size := LoopChunks(c, chunks, after);
    if Myatoi(word, 16).Some? {
      MyatoiExact(word, 16, Myatoi(word, 16).value);
    }
    SizeField(word, extension);
    BadHeader(Chunked(after, size, ChunkHdr, trailers, |ChunksText(chunks)|, 0), word + extension, rest);
  }

  lemma BadHeader(c: Chunked, header: string, rest: string)
    requires c.phase == ChunkHdr && IsLine(header) && ChunkSize(header + CRLF).None?
    requires c.buffer == header + CRLF + rest
    ensures Loop(c) == Failed
  {
    hide ChunkSize;
    FindLineEnd(header, rest);
    assert c.buffer[..|header| + 2] == header + CRLF;
    assert Step(c) == Fail;
  }

  /** So does a chunk whose data is not followed by a line ending. */
  lemma BadDelimiter(trailers: bool, chunks: seq<Chunk>, k: Chunk, rest: string)
    requires (forall i :: 0 <= i < |chunks| ==> IsChunk(chunks[i])) && IsChunk(k)
    requires |rest| >= 2 && rest[..2] != CRLF
    ensures Read(Fresh(trailers), ChunksText(chunks) + (k.header + CRLF + (k.data + rest))).outcome == Bad
  {
    hide IsChunk;
    hide ChunkSize;
    hide ChunksText;
    hide Step;
    var after := k.header + CRLF + (k.data + rest);
    var c := Fed(Fresh(trailers), ChunksText(chunks) + after);
    assert c.buffer == ChunksText(chunks) + after;
    var size := LoopChunks(c, chunks, after);
    LoopBadChunk(Chunked(after, size, ChunkHdr, trailers, |ChunksText(chunks)|, 0), k, rest);
  }

  lemma LoopBadChunk(c: Chunked, k: Chunk, rest: string)
    requires c.phase == ChunkHdr && IsChunk(k) && c.buffer == k.header + CRLF + (k.data + rest)
    requires |rest| >= 2 && rest[..2] != CRLF
    ensures Loop(c) == Failed
  {
    hide ChunkSize;
    var d := HeaderLine(c, k.header, k.data + rest, |k.data|);
    assert d.buffer[|k.data|..|k.data| + 2] == rest[..2];
    assert Step(d) == Fail;
  }

  /** The smallest miss: with trailers announced but none sent, the body is not seen to end. */
  lemma EmptyTrailerMissed()
    ensures IsBody([], "0", [])
    ensures Read(Fresh(true), BodyText([], "0", [])).outcome != Done(|BodyText([], "0", [])|)
  {
    EmptyTrailer("");
    PrintedSize(0, "");
    assert Digits(0, 16) == "0" && "0" + "" == "0";
    PrintedLastChunk("0");
    ChunkedExact(true, [], "0", [], "");
    assert BodyText([], "0", []) + "" == BodyText([], "0", []);
  }
}
