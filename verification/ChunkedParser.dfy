/** ChunkedBodyParser, the object that updates its buffer and counters in place. */
module ChunkedParser {
  import opened Strings
  import opened Tokenize
  import opened ChunkedBody
  import opened Machine

  class ChunkedBodyParser {
    var parserBuffer: string
    var currentChunkSize: uint32
    var ackedSoFar: nat
    var parsedSoFar: nat
    var state: Phase
    const trailersEnabled: bool

    function Model(): Chunked
      reads this
    {
      Chunked(parserBuffer, currentChunkSize, state, trailersEnabled, parsedSoFar, ackedSoFar)
    }

    constructor (trailersEnabled: bool)
      ensures Model() == Fresh(trailersEnabled)
    {
      this.trailersEnabled := trailersEnabled;
      parserBuffer, currentChunkSize, ackedSoFar, parsedSoFar, state := "", 0, 0, 0, ChunkHdr;
    }

    /** compute_ack_size */
    method ComputeAckSize(haystack: string, needle: string, inputSize: nat) returns (outcome: Outcome)
      modifies this`ackedSoFar, this`parsedSoFar
      ensures match Find(haystack, needle)
        case None => outcome == More && parsedSoFar == old(parsedSoFar) && ackedSoFar == old(ackedSoFar) + inputSize
        case Some(i) =>
          ackedSoFar == old(ackedSoFar) && parsedSoFar == old(parsedSoFar) + i + |needle|
          && outcome == if parsedSoFar > ackedSoFar then Done(parsedSoFar - ackedSoFar) else Bad
    {
      var loc := Find(haystack, needle);
      if loc.Some? {
        parsedSoFar := parsedSoFar + loc.value + |needle|;
        outcome := if parsedSoFar > ackedSoFar then Done(parsedSoFar - ackedSoFar) else Bad;
      } else {
        ackedSoFar := ackedSoFar + inputSize;
        outcome := More;
      }
    }

    /** The CHUNK_HDR case of `read`: true when the loop goes on. */
    method ReadHeader(inputSize: nat) returns (goOn: bool, outcome: Outcome)
      requires parserBuffer != "" && state == ChunkHdr
      modifies this
      ensures StepTaken(old(Model()), inputSize, goOn, outcome)
    {
      hide ChunkSize;
      hide Find;
      var it := Find(parserBuffer, CRLF);
      if it.Some? {
        var size := ChunkSize(parserBuffer[..it.value + 2]);
        if size.None? {
          return false, Bad;
        }
        currentChunkSize := size.value;
        state := if currentChunkSize == 0 then Trailer else ChunkData;
        parsedSoFar := parsedSoFar + it.value + 2;
        parserBuffer := parserBuffer[it.value + 2..];
        return true, More;
      } else {
        ackedSoFar := ackedSoFar + inputSize;
        return false, More;
      }
    }

    /** The CHUNK case of `read`, with the sum of the chunk size and 2 taken in 32 bits and
        substr throwing when it starts beyond the end of the buffer. */
    method ReadChunk(inputSize: nat) returns (goOn: bool, outcome: Outcome)
      requires parserBuffer != "" && state == ChunkData
      requires currentChunkSize >= OVERSIZE ==> |parserBuffer| < OVERSIZE
      modifies this
      ensures StepTaken(old(Model()), inputSize, goOn, outcome)
    {
      var end := (currentChunkSize + 2) % UINT32;
      if |parserBuffer| >= end {
        if currentChunkSize > |parserBuffer| {
          return false, Bad;
        }
        if Substr(parserBuffer, currentChunkSize, 2) != CRLF {
          return false, Bad;
        }
        state := ChunkHdr;
        parsedSoFar := parsedSoFar + end;
        parserBuffer := parserBuffer[end..];
        return true, More;
      } else {
        ackedSoFar := ackedSoFar + inputSize;
        return false, More;
      }
    }

    /** The TRAILER case of `read`. */
    method ReadTrailer(inputSize: nat) returns (goOn: bool, outcome: Outcome)
      requires parserBuffer != "" && state == Trailer
      modifies this
      ensures StepTaken(old(Model()), inputSize, goOn, outcome)
    {
      hide Find;
      goOn := false;
      outcome := ComputeAckSize(parserBuffer, Terminator(trailersEnabled), inputSize);
    }

    /** The object after one turn of the loop that began as `before`. */
    ghost predicate StepTaken(before: Chunked, inputSize: nat, goOn: bool, outcome: Outcome)
      reads this
    {
      match Step(before)
      case Advance(next) => goOn && Model() == next
      case Wait => !goOn && outcome == More && Model() == before.(acked := before.acked + inputSize)
      case Finish(parsed) => !goOn && outcome == if parsed > before.acked then Done(parsed - before.acked) else Bad
      case Fail => !goOn && outcome == Bad
    }

    /** read. Every caller passes fragments far shorter than 4 GiB. */
    method Read(input: string) returns (outcome: Outcome)
      requires Step(Model()).Wait? && |input| < OVERSIZE
      modifies this
      ensures outcome == ChunkedBody.Read(old(Model()), input).outcome
      ensures outcome.More? ==> Model() == ChunkedBody.Read(old(Model()), input).next
    {
      hide ChunkSize;
      hide Find;
      hide HeaderStep;
      hide DataStep;
      hide TrailerStep;
      parserBuffer := parserBuffer + input;
      ghost var start := Model();
      assert start == Fed(old(Model()), input);
      while parserBuffer != ""
        invariant Loop(Model()) == Loop(start) && ackedSoFar == old(ackedSoFar)
        invariant |parserBuffer| <= |input| || Model() == start
        decreases |parserBuffer|
      {
        ghost var before := Model();
        if before == start {
          StepReachesInput(old(Model()), input);
        }
        var goOn: bool;
        match state {
          case ChunkHdr =>
            goOn, outcome := ReadHeader(|input|);
          case ChunkData =>
            goOn, outcome := ReadChunk(|input|);
          case Trailer =>
            goOn, outcome := ReadTrailer(|input|);
        }
        if !goOn {
          return;
        }
      }
      ackedSoFar := ackedSoFar + |input|;
      outcome := More;
    }
  }
}
