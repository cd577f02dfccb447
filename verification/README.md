# A verified model of the emulator's HTTP parser, link and queues

This project models the parts of the network emulator that compute something over time, and
proves what they keep over every input and every run:

* the incremental HTTP parser (`src/http`): a byte stream arriving in fragments is turned into
  messages by a four-state machine; bodies are framed by section 4.4 of RFC 2616, chunked bodies
  by a second state machine with its own copy of the unparsed bytes and two counters;
* the trace-driven link (`src/frontend/link_queue.cc`) with its five queue disciplines
  (`src/packet`): unlimited, drop-tail, drop-head, CoDel and PIE;
* the ring buffer that carries a byte stream between two descriptors;
* `split`, and `shell_quote` with the command line built from it.

Each part has three layers: values and functions that say what one step does; classes whose
methods carry out the step in place, statement by statement, and are proved to compute those
functions; and lemmas about the functions.

| files | what they hold |
|---|---|
| `Machine`, `Arithmetic`, `Strings`, `Ezio`, `Tokenize` | integer widths, products, std::string searches, `myatoi`, `split` |
| `HttpHeader`, `HttpMessage`, `HttpMessageObject` | header lines, one message as a value and as an object |
| `ChunkedBody`, `ChunkedParser`, `ChunkedGrammar` | the chunked reader as values, as an object, and against the grammar of section 3.6.1 of RFC 2616 |
| `HttpMessageSequence`, `HttpMessageSequenceObject` | the message state machine as values and as an object |
| `HttpRoundTrip`, `HttpFraming` | printing and parsing back; the framing rules on messages as they are written |
| `HttpWritten` | whole connections: messages as written, in any fragments, completed, refused or cut short |
| `HttpEmitted`, `HttpReparse` | what the parser can emit over a run of bytes, ends of file and requests; printing that and parsing it again |
| `Packets`, `DroppingQueue`, `CodelQueue`, `PieQueue`, `PacketQueue` | the disciplines, and the interface the link sees |
| `CodelHistory`, `CodelEpisodes` | CoDel's verdicts in terms of the delays of the packets popped so far; how its episodes begin |
| `PieControl`, `QueueLimits` | what PIE's control law, early drops and rate estimate amount to; the limits of the queues over runs |
| `LinkSchedule`, `LinkService`, `LinkHistory`, `LinkQueue` | the cyclic schedule, the service of packets, the records of a run, the link |
| `ByteStreamQueue`, `ShellQuote` | the ring buffer; quoting |

Strings are sequences of characters and stand for bytes. An exception, a failed assertion or an
out-of-range `substr` is a value: an option, a verdict, or the parser state `Failure`, which
absorbs all later input and keeps the messages already completed. The clock is a number that
never goes back; what a descriptor reads or writes, and the number PIE draws, are inputs.

## Results that differ from what one would expect

Each of these is a property the code does not have in general. The lemma named gives the exact
condition under which it does, and the second one an input on which it does not.

* A header survives printing and parsing exactly when its key has no colon and its value starts
  with something other than a space (`HeaderRoundTrip`); an empty value comes back as one space
  (`EmptyValueGrows`).
* One read of a well-formed chunked body reports its exact end precisely when a `Trailer` header
  was seen and there is a trailer, or neither (`ChunkedExact`); with the header and an empty
  trailer the end is missed (`EmptyTrailerMissed`).
* Messages the parser completes have exactly the body they announce as long as no end of file
  comes during a body whose length was not announced, and only then (`StreamEmits`): the body
  parser for chunks takes an end of file for the end of the body, so a chunked response cut short
  is completed and handed on (`TruncatedResponse`).
* What the parser completed, printed and parsed again, is the same exactly when no header value is
  blank (`Reparse`); an empty value, which a server may send, comes back longer
  (`BlankHeaderChanges`).
* A chunked response as it is written survives printing and parsing exactly when it announces a
  trailer and has one, or neither (`ChunkedResponsePrintable`).
* A message of announced length that an end of file cuts short fails the connection, except when
  not even its first line was whole: then the end of file goes unnoticed (`CutShort`).
* A negative number is read as one near 2^64, in a trace file (`TimestampExact`,
  `NegativeTimestamp`) and in a Content-Length (`LengthExact`).
* PIE moves its probability in the direction of the delay as long as the differences of delays fit
  an int (`Relieves`, `Presses`, `DifferenceKept`); a reference of more than 2^31 ms reverses it
  (`HugeReference`).
* Joining undoes `split` exactly when no two matches of the separator overlap (`JoinSplit`,
  `OverlappingSeparator`). Every caller passes a one-character separator, where it always does
  (`SplitByChar`).
* `DropHeadPacketQueue::enqueue` passes the assertion in `dequeue` exactly when at most one
  packet has to be dropped (`EnqueueDropHead`); a large packet under a byte limit needs more
  (`LargePacketNeedsTwoDrops`), a packet limit never does (`PacketLimitOneDrop`).
* `PIEPacketQueue::calculate_drop_prob` reaches the state of a timer firing every 30 ms, as its
  comment says, except at the very millisecond a period ends (`TimerRefined`, `TimerLate`), where
  even the probability can differ (`TimerLateProbability`).

## Model

| member | source | states |
|---|---|---|
| Ezio.DigitsRoundTrip | src/util/ezio.cc:11-29 | a decimal or hexadecimal number read back with `myatoi` is the number printed, up to the largest long |
| Ezio.NumberRead | src/util/ezio.cc:11-29 | any digits, with leading zeros and letters of either case, are read as their positional value, and refused beyond the largest long |
| Ezio.MyatoiExact | src/util/ezio.cc:11-29 | a string is read as v if and only if it consists of blanks, a sign, a prefix of base 16 and digits worth v in the range of a long |
| Tokenize.SplitString | src/http/tokenize.hh:9-38 | the loops of `split`, unsigned wrap-around included, return the cuts between consecutive matches |
| Tokenize.JoinSplit | src/http/tokenize.hh:9-38 | joining the tokens gives the string back if and only if no two matches of the separator overlap |
| Tokenize.OverlappingSeparator | src/http/tokenize.hh:14-17 | cutting "aaa" at "aa" and joining does not give "aaa" back |
| Tokenize.TokensLackSeparator | src/http/tokenize.hh:23-37 | no token holds the separator, for every separator whose matches do not overlap |
| Tokenize.SplitByChar | src/http/tokenize.hh:9-38 | for one character: join undoes split, one more token than separators, none holds it |
| Tokenize.SplitJoin | src/http/tokenize.hh:9-38 | split undoes join on tokens without the separator |
| HttpHeader.HeaderRoundTrip | src/http/http_header.cc:13-34 | parse after print is the identity on a header if and only if key and value are of the stated form |
| HttpHeader.ParsePrinted | src/http/http_header.cc:13-34 | the header that any header with a colon-free key is read back as: the same key, and a blank value one space longer |
| HttpHeader.ParseWritten | src/http/http_header.cc:13-34 | a line of key, colon, any blanks and a value is read as that key and value |
| HttpHeader.NoColon | src/http/http_header.cc:16-21 | a line is refused if and only if it has no colon |
| HttpHeader.EmptyValueGrows | src/http/http_header.cc:30-32 | an empty value is read back as one space |
| HttpHeader.CompareStrings | src/http/http_message.cc:119-135 | the comparison loop decides equality up to leading spaces and letter case |
| HttpHeader.EquivalentExactly | src/http/http_message.cc:98-135 | strings are equivalent if and only if, leading spaces aside, they differ in nothing but the case of letters of the alphabet |
| HttpHeader.FindHeader | src/http/http_message.cc:137-159 | the lookup loop returns the value of the first header of an equivalent name, or none |
| HttpHeader.LookupFirst | src/http/http_message.cc:149-159 | the first header whose name differs at most in the case of letters is the one found |
| HttpHeader.LookupNone | src/http/http_message.cc:137-147 | none is found if and only if every name differs otherwise |
| ChunkedBody.StepAppend | src/http/chunked_parser.cc:38-98 | a turn of the read loop is not affected by the bytes after those it consumes |
| ChunkedBody.ReadExact | src/http/chunked_parser.cc:108-123 | from rest, the final count lies in 1..input, the assertion on the counters never fails, and otherwise every byte is acknowledged and the parser is at rest again |
| ChunkedBody.ReadSplit | src/http/chunked_parser.cc:34-101 | reading two fragments is reading their concatenation: same verdict, same end, same state |
| ChunkedBody.ReadAllExact | src/http/chunked_parser.cc:34-123 | over any fragmentation the acknowledged counts sum to the end a single read reports, the last lying in its own fragment |
| ChunkedGrammar.PrintedChunk | src/http/chunked_parser.cc:11-32 | a size in hexadecimal digits of either case, leading zeros, blanks and extensions allowed, heads the data of that length |
| ChunkedGrammar.PrintedLastChunk | src/http/chunked_parser.cc:11-32 | so does a zero so written head the last chunk |
| ChunkedGrammar.ChunkedExact | src/http/chunked_parser.cc:34-123 | a well-formed body followed by anything is ended exactly if and only if the trailer setting matches the trailer |
| ChunkedGrammar.ChunkedExactInFragments | src/http/chunked_parser.cc:34-123 | the same with the counts of all reads over every fragmentation |
| ChunkedGrammar.GrammaticalExact | src/http/chunked_parser.cc:34-123 | the same for every body of the grammar of section 3.6.1, its sizes read by position |
| ChunkedGrammar.BadSize | src/http/chunked_parser.cc:27-31 | a size that is not a hexadecimal number fails the read, after whatever chunks |
| ChunkedGrammar.BadDelimiter | src/http/chunked_parser.cc:61-63 | so does chunk data not followed by a line ending |
| ChunkedGrammar.EmptyTrailerMissed | src/http/chunked_parser.cc:79-84 | with trailers announced and none sent, the body "0 CRLF CRLF" is not seen to end |
| ChunkedParser.ChunkedBodyParser.Read | src/http/chunked_parser.cc:34-101 | the in-place reader, 32-bit sum and throwing substr included, computes the value-level read |
| ChunkedParser.ChunkedBodyParser.ReadChunk | src/http/chunked_parser.cc:60-77 | the CHUNK case with `current_chunk_size_ + 2` wrapping at 2^32 |
| ChunkedParser.ChunkedBodyParser.ComputeAckSize | src/http/chunked_parser.cc:108-123 | both counters after a successful and an unsuccessful search |
| HttpMessage.ReadInBodySplit | src/http/http_message.cc:45-66 | reading a body of any framing in two pieces is reading it at once |
| HttpMessage.FramingInProgress | src/http/http_response.cc:24-66 | the framing rules start a body in a state that keeps the invariant of a message in progress |
| HttpMessageObject.MessageObject.DoneWithHeaders | src/http/http_message.cc:30-36 | the object's framing is the one the request or response rules give, or an exception |
| HttpMessageObject.MessageObject.CalculateResponseSize | src/http/http_response.cc:24-66 | rules 1 to 5 of section 4.4 in their order, with their exceptions |
| HttpMessageObject.MessageObject.CalculateRequestSize | src/http/http_request.cc:9-25 | GET and HEAD have no body, POST the announced one, anything else throws |
| HttpMessageObject.MessageObject.ReadBody | src/http/http_message.cc:45-66 | the bytes taken and the new message, for known sizes and for body parsers |
| HttpMessageObject.MessageObject.Eof | src/http/http_message.cc:68-84 | what an end of file does in each state |
| HttpMessageSequence.StepAppend | src/http/http_message_sequence.hh:94-138 | a parsing step that does not wait is not affected by the bytes that follow |
| HttpMessageSequence.StepSound | src/http/http_message_sequence.hh:94-138 | every parsing step keeps the invariant of the message in progress |
| HttpMessageSequence.RunAppend | src/http/http_message_sequence.hh:141-152 | running to rest and then on is running with all bytes present |
| HttpMessageSequence.ParseSplit | src/http/http_message_sequence.hh:141-152 | parsing two fragments is parsing their concatenation |
| HttpMessageSequence.FragmentationIndependence | src/http/http_message_sequence.hh:93-152 | every cut into non-empty fragments leaves the whole parser in the state one parse of the bytes leaves |
| HttpMessageSequence.SameForAllFragmentations | src/http/http_message_sequence.hh:93-152 | two cuts of the same bytes cannot be told apart |
| HttpMessageSequence.ArrivalsCommute | src/http/http_response_parser.cc:24-27 | a request queued after some bytes might as well have been queued before them |
| HttpMessageSequenceObject.MessageSequence.ParsingStep | src/http/http_message_sequence.hh:94-138 | one step of the object is one step of the state machine, exceptions included |
| HttpMessageSequenceObject.MessageSequence.Parse | src/http/http_message_sequence.hh:141-152 | the object's `parse`, end of file included, terminates in the state the value-level parse gives |
| HttpMessageSequenceObject.RunIdles | src/http/http_message_sequence.hh:151-152 | at rest no complete line is unread and no body byte unparsed |
| HttpRoundTrip.Str | src/http/http_message.cc:162-181 | the printing loop builds the text of the message |
| HttpRoundTrip.RunHeaders | src/http/http_message_sequence.hh:107-120 | printed headers are parsed one by one, in order, each to the header it is read back as |
| HttpRoundTrip.PipelineRoundTrip | src/http/http_response.cc:24-84 | any fragmentation of the printed messages of a pipeline of requests, or of responses with their requests queued, parses to exactly those messages in order with nothing left over |
| HttpRoundTrip.PipelineReread | src/http/http_message.cc:162-181 | the same without a condition on header values: what comes back has one more space in every blank one, and is otherwise equal |
| HttpRoundTrip.EndOfFileRoundTrip | src/http/http_message.cc:68-84 | a pipeline that ends in a response only an end of file ends, of rule 5 or chunked and cut short, comes back whole once the end of file follows, in any fragmentation |
| HttpFraming.StatusLineCode | src/http/http_response.cc:13-22 | a status line yields the code between its first two spaces |
| HttpFraming.LengthExact | src/http/http_response.cc:48-52 | a Content-Length announces the decimal number written, modulo 2^64, and nothing else is accepted |
| HttpFraming.BodilessResponse | src/http/http_response.cc:30-36 | rule 1: 1xx, 204, 304 and answers to HEAD have no body, whatever their headers say |
| HttpFraming.ChunkedResponse | src/http/http_response.cc:37-47 | rule 2: a list of transfer codings ending in chunked frames the body, even next to a Content-Length |
| HttpFraming.ChunkedResponseFramed | src/http/http_response.cc:37-47 | a body by the grammar of section 3.6.1 frames a chunked response if and only if the Trailer header agrees with it |
| HttpFraming.ChunkedResponsePrintable | src/http/http_response.cc:37-47 | a response of rule 2 as it is written, codings and chunks included, is in the domain of the pipeline round trip if and only if the Trailer header agrees with its body |
| HttpFraming.PostPrintable | src/http/http_request.cc:16-21 | a POST with any printable headers, any body and its length in decimal is in the domain of the pipeline round trip |
| HttpFraming.SizedResponsePrintable | src/http/http_response.cc:48-52 | so is a response of rule 3 |
| HttpWritten.GetPrintable | src/http/http_request.cc:13-15 | a GET request with any target and printable headers and no body is in the domain of the pipeline round trip |
| HttpWritten.HeadPrintable | src/http/http_request.cc:13-15 | so is a HEAD request |
| HttpWritten.BodilessRequest | src/http/http_request.cc:9-25 | such a request, in any fragments, is completed as exactly that request |
| HttpWritten.UnknownMethod | src/http/http_request.cc:22-24 | a request of any other method fails the connection after its headers, the requests before it being completed |
| HttpWritten.PostWithoutLength | src/http/http_request.cc:16-21 | so does a POST without a Content-Length or with one that is no number |
| HttpWritten.OpenResponse | src/http/http_response.cc:53-65 | rule 5: with neither chunked coding nor length and not of type multipart/byteranges, any body in any fragments is completed at the end of file as exactly that response |
| HttpWritten.MultipartRefused | src/http/http_response.cc:53-58 | rule 4: with type multipart/byteranges the connection fails |
| HttpWritten.BodilessPrintable | src/http/http_response.cc:30-36 | a response of rule 1 is in the domain of the pipeline round trip, whatever lengths it announces |
| HttpWritten.BadResponseLength | src/http/http_response.cc:48-52 | a response of rule 3 with a length that is no number fails the connection |
| HttpWritten.ShortStatusLine | src/http/http_response.cc:13-22 | so does a status line with fewer than two spaces |
| HttpWritten.Unrequested | src/http/http_response_parser.cc:12-22 | so does a response to no request |
| HttpWritten.MalformedHeader | src/http/http_header.cc:16-21 | so does a header line without a colon, after whatever headers |
| HttpWritten.CutShort | src/http/http_message.cc:68-84 | a message of announced length cut anywhere by the end of file is never completed: the connection fails, or, cut in its first line, carries on with that part still unread |
| HttpEmitted.StreamEmits | src/http/http_message_sequence.hh:93-152 | over every run of fragments, ends of file and requests: a completed message has whole lines and exactly the body announced, or an end of file ended it; the first for all of them if and only if no end of file came during a body of unannounced length |
| HttpEmitted.StreamPairs | src/http/http_response_parser.cc:12-27 | over every such run, requests queued at any moment, the i-th completed response carries the i-th request |
| HttpReparse.EmittedPrintable | src/http/http_header.cc:28-34 | a message with the body it announces, printed and parsed in any fragmentation, is completed as the same message if and only if no header value is blank |
| HttpReparse.Reparse | src/http/http_message.cc:162-181 | what the parser completed over such a run, printed and parsed in any fragmentation, is completed again with each blank header value one space longer, hence as the same messages if and only if none is blank |
| HttpReparse.BlankHeaderChanges | src/http/http_header.cc:30-32 | a response with an empty header value that the parser completes, and completes differently after printing |
| HttpReparse.TruncatedResponse | src/http/http_message.cc:68-84 | a chunked response cut short by the end of file is completed without the body it announces |
| DroppingQueue.DroppingPacketQueue.EnqueueDropTail | src/packet/drop_tail_packet_queue.hh:20-28 | the new packet is kept if it fits, the old queue otherwise; both counters stay exact |
| DroppingQueue.DroppingPacketQueue.EnqueueDropHead | src/packet/drop_head_packet_queue.hh:20-29 | the assertions hold if and only if one drop suffices, and then the longest fitting suffix is kept |
| DroppingQueue.DroppingPacketQueue.EnqueueDropHeadUnchecked | src/packet/drop_head_packet_queue.hh:20-29 | with assertions compiled out the longest fitting suffix is always kept |
| DroppingQueue.DropKeepsLongestSuffix | src/packet/drop_head_packet_queue.hh:25-28 | popping until the limits hold keeps the longest suffix that meets them |
| DroppingQueue.PacketLimitOneDrop | src/packet/dropping_packet_queue.cc:40-59 | without a byte limit one drop always suffices |
| DroppingQueue.LargePacketNeedsTwoDrops | src/packet/dropping_packet_queue.cc:30 | a queue and a packet on which the assertion after the first drop fails |
| DroppingQueue.DroppingPacketQueue.Dequeue | src/packet/dropping_packet_queue.cc:20-33 | the head is returned, the counters stay exact, and the final assertion's outcome |
| QueueLimits.RunWithin | src/packet/dropping_packet_queue.cc:40-59 | over every run the packets and bytes queued stay within the limits |
| QueueLimits.AcceptsExactly | src/packet/drop_tail_packet_queue.hh:20-28 | drop-tail keeps a packet if and only if the limits, itself included, allow it |
| QueueLimits.FillsUp | src/packet/dropping_packet_queue.cc:40-54 | packets that are together within the limits are all kept |
| QueueLimits.LimitReached | src/packet/dropping_packet_queue.cc:40-54 | n packets fill a queue of n; one more is refused by drop-tail and displaces the oldest in drop-head |
| QueueLimits.ByteLimitReached | src/packet/dropping_packet_queue.cc:40-54 | n bytes fill a queue of n bytes, and no more go in |
| QueueLimits.NewestKept | src/packet/drop_head_packet_queue.hh:20-29 | under a packet limit drop-head holds the newest packets, in order |
| CodelQueue.GapsShrink | src/packet/codel_packet_queue.cc:56-60 | the gap between drops, floor( interval / sqrt( count ) ), never grows with the count |
| CodelQueue.DequeueSafe | src/packet/codel_packet_queue.cc:62-94 | every dequeue takes a non-empty prefix off the queue and touches nothing else, keeps the counters in order, and leaves an episode with `dropping_` cleared or `drop_next_` in the future; within it `drop_next_` advances by exactly the gaps of its drops |
| CodelHistory.DropsExactlyWhen | src/packet/codel_packet_queue.cc:27-94 | after any run with a clock that never goes back, packets are dropped behind the one returned if and only if, without a break for at least an interval, every packet popped had waited for the target and left more than 1504 bytes behind, and in an episode the next drop is due |
| CodelHistory.EpisodeGoesOn | src/packet/codel_packet_queue.cc:66-80 | an episode survives a dequeue if and only if the same holds of all packets popped, the dropped ones included |
| CodelEpisodes.EpisodeBegins | src/packet/codel_packet_queue.cc:84-92 | after any run, a dequeue that begins an episode drops one packet, sets the next drop one gap of the count ahead, and counts from the drops of the last episode if they exceed one and it is recent, else from one |
| CodelEpisodes.CountsDrops | src/packet/codel_packet_queue.cc:73-91 | over any run `count_ - lastcount_` is the number of packets the last episode dropped after its first |
| CodelEpisodes.RecentMeans | src/packet/codel_packet_queue.cc:88 | without wrap-around, recent means less than sixteen intervals after that episode's next drop was due |
| CodelEpisodes.GapRespected | src/packet/codel_packet_queue.cc:73-90 | after any run, an episode drops no second packet before floor( interval / sqrt( count ) ) ms have passed |
| CodelQueue.RunSafe | src/packet/codel_packet_queue.cc:62-104 | over any run the limits hold, and through an episode `drop_next_` only moves forward, by the sum of its gaps |
| CodelQueue.CodelPacketQueue.Dequeue | src/packet/codel_packet_queue.cc:62-94 | the object returns the first packet popped and ends in the state the value-level dequeue gives |
| PieQueue.CatchUpRepeats | src/packet/pie_packet_queue.cc:126-188 | catching up is a fixed number of periodic updates and ends with now - last_update_ in 0..30 |
| PieQueue.IntermediateCalls | src/packet/pie_packet_queue.cc:131-136 | with an unchanged queue, calls at any intermediate times make no difference |
| PieQueue.TimerRefined | src/packet/pie_packet_queue.cc:131-136 | equals one update per elapsed 30 ms period if and only if no period ends at this very millisecond |
| PieQueue.TimerLate | src/packet/pie_packet_queue.cc:136 | at 30 ms sharp the update is missing |
| PieQueue.TimerLateProbability | src/packet/pie_packet_queue.cc:136-163 | an input on which the probability is then a half where the timer's is one |
| PieQueue.RunBounded | src/packet/pie_packet_queue.cc:89-185 | over every run the probability stays in [0, 1], the burst allowance below its maximum, the queue within its limits, the average rate below the largest sample taken |
| PieQueue.RunNeverAhead | src/packet/pie_packet_queue.cc:126-176 | over every run `last_update_` is never ahead of the clock |
| PieControl.DifferenceKept | src/packet/pie_packet_queue.cc:149-150 | the difference of two delays survives the conversion to int if and only if it lies in the range of one |
| PieControl.Law | src/packet/pie_packet_queue.cc:138-173 | one update in whole milliseconds: excess plus ten times growth, over 1024, 256 or 128, kept in [0, 1], less two percent when idle |
| PieControl.Relieves | src/packet/pie_packet_queue.cc:149-160 | a delay neither above the reference nor above the last one never raises the probability, and lowers it if it is below either |
| PieControl.Presses | src/packet/pie_packet_queue.cc:149-160 | a delay neither below the reference nor below the last one never lowers it, and raises it if it is above either |
| PieControl.Steady | src/packet/pie_packet_queue.cc:149-160 | a delay equal to both leaves it as it is |
| PieControl.StepSizes | src/packet/pie_packet_queue.cc:152-158 | with the same delays the step below 0.01 is an eighth, below 0.1 a half, of the step above |
| PieControl.HugeReference | src/packet/pie_packet_queue.cc:149 | a reference of 2^31 + 1 on which an empty queue is given the probability one |
| PieControl.Saturates | src/packet/pie_packet_queue.cc:136-176 | a queue that stays above the reference has the probability one after at most 1024 periods |
| PieControl.Vanishes | src/packet/pie_packet_queue.cc:136-176 | a queue that stays below it has the probability zero after at most 1024 periods |
| PieControl.IdleStaysZero | src/packet/pie_packet_queue.cc:126-188 | an idle queue with probability zero keeps it, whenever it is asked |
| PieControl.DelayMeans | src/packet/pie_packet_queue.cc:140-143 | the delay is the whole milliseconds the bytes waiting take at the average rate |
| PieControl.DelaysKept | src/packet/pie_packet_queue.cc:138-143 | the two delays kept are those of this period and of the one before |
| PieControl.BurstLaw | src/packet/pie_packet_queue.cc:175-185 | a period is taken off the burst allowance, unless zero probability and two short delays restore it |
| PieControl.BurstLasts | src/packet/pie_packet_queue.cc:175 | an allowance of b ms is not used up by fewer than b / 30 periods |
| PieControl.AcceptedExactly | src/packet/pie_packet_queue.cc:35-77 | a packet is kept if and only if it fits and the burst allowance, small delay and probability, fewer than 3008 bytes waiting or the number drawn protect it |
| PieControl.ActsAsDropTail | src/packet/pie_packet_queue.cc:35-77 | over every run in which each packet is so protected, the queue is that of drop-tail |
| PieControl.SmallQueueProtected | src/packet/pie_packet_queue.cc:67-69 | with a byte limit below 3008 every run is such a run |
| PieControl.AverageConverges | src/packet/pie_packet_queue.cc:97-101 | under equal samples the average comes within seven of the sample, in no more steps than it was away |
| PieControl.MeasurementBegins | src/packet/pie_packet_queue.cc:84-110 | a sample is the bytes of all packets dequeued since the one that left 16384 or more behind, that one included, over the time since then, and is taken at the first dequeue with more than 16384 bytes and some time passed |
| PieControl.MeasurementGoesOn | src/packet/pie_packet_queue.cc:89-110 | the same for a measurement under way, whatever catching up happens in between |
| PieControl.SampleSpendsBurst | src/packet/pie_packet_queue.cc:111-116 | a sample takes the time it was measured over off the burst allowance |
| PieControl.PacketMeasured | src/packet/pie_packet_queue.cc:79-124 | a dequeue measures the packet it takes against the bytes left without it, unless the measurement is then abandoned |
| PieQueue.PiePacketQueue.CalculateDropProb | src/packet/pie_packet_queue.cc:126-188 | the loop over the fields computes the repeated update |
| PieQueue.PiePacketQueue.EstimateRate | src/packet/pie_packet_queue.cc:84-119 | the rate estimator, with its 32-bit counters |
| PacketQueue.Enqueue | src/packet/abstract_packet_queue.hh:10-22 | the exact queue each discipline leaves, and when the drop-head queue fails its assertion |
| PacketQueue.AdmittedAtBack | src/packet/abstract_packet_queue.hh:10-22 | whatever the discipline, a packet offered is refused or goes to the back, and at most packets at the front are lost |
| PacketQueue.Dequeue | src/packet/abstract_packet_queue.hh:10-22 | every discipline returns the packet at the front and leaves a suffix of what was behind it |
| LinkSchedule.LoadSchedule | src/frontend/link_queue.cc:42-68 | a trace is accepted if and only if every line is a timestamp, they never go back and the last is not zero |
| LinkSchedule.TimestampExact | src/frontend/link_queue.cc:43-47 | a line stands for n if and only if it is a decimal number in the range of a long that is n modulo 2^64 |
| LinkSchedule.PrintedTrace | src/frontend/link_queue.cc:42-56 | lines that are the numbers of a schedule in decimal stand for that schedule and no other |
| LinkSchedule.NegativeTimestamp | src/frontend/link_queue.cc:47 | the line "-1" stands for 2^64 - 1 |
| LinkSchedule.ScheduleClosedForm | src/frontend/link_queue.cc:164-187 | after k opportunities the cursor is where the closed form says, and without repeat exactly n exist |
| LinkSchedule.CursorAdvances | src/frontend/link_queue.cc:173-187 | one use moves from the k-th to the next, and the k-th falls at base + (k div n) L + schedule[k mod n] |
| LinkSchedule.TimesNondecreasing | src/frontend/link_queue.cc:173-187 | opportunities come in order, and a turn of the schedule takes its last entry |
| LinkSchedule.FirstTurn | src/frontend/link_queue.cc:164-171 | in its first turn the schedule falls at its own times after the base |
| LinkSchedule.TimesUnbounded | src/frontend/link_queue.cc:192-194 | only finitely many opportunities fall by any moment, repeated or zero timestamps notwithstanding |
| LinkService.DrainExact | src/frontend/link_queue.cc:201-230 | a capacity of c bytes takes exactly the longest prefix of total at most c, and c minus the rest off the next packet |
| LinkService.FillServed | src/frontend/link_queue.cc:201-230 | the inner loop is 1504 bytes of capacity, its departures stamped with the opportunity's time |
| LinkService.FifoClosedForm | src/frontend/link_queue.cc:192-232 | after k opportunities the i-th packet left at opportunity ceil( S_i / 1504 ), in order, the rest is untouched |
| LinkService.FifoLongestPrefix | src/frontend/link_queue.cc:192-232 | those gone are the longest prefix of at most 1504 k bytes, and the next packet lacks what the sum leaves |
| LinkQueue.DepartureTimes | src/frontend/link_queue.cc:192-232 | the same in terms of the schedule's own times |
| LinkHistory.DrawnLoad | src/frontend/link_queue.cc:202-208 | taking the head, whatever the queue drops behind it, keeps the line of packets a subsequence of those that arrived, and the very same line if the queue drops nothing |
| LinkHistory.DrawnArrive | src/frontend/link_queue.cc:158-161 | so does a packet arriving in a queue that may refuse it or drop packets from its front |
| LinkHistory.ConservingMore | src/frontend/link_queue.cc:192-232 | one more opportunity keeps this: whatever departs after an opportunity that carried less than 1504 bytes had not arrived before it |
| LinkHistory.ConservingArrive | src/frontend/link_queue.cc:150-162 | so does a packet that arrives after the opportunities used |
| LinkQueue.Link.LoadPacket | src/frontend/link_queue.cc:202-208 | the packet in transit is the head of the queue, appended to those dequeued; what is left is a suffix of what was behind it |
| LinkQueue.Link.SendNext | src/frontend/link_queue.cc:201-230 | one turn of the inner loop: its four assertions hold, the bytes sent are accounted for, and the records only grow |
| LinkQueue.Link.ServeOpportunity | src/frontend/link_queue.cc:201-230 | an opportunity carries at most 1504 bytes, and fewer only if queue and transit slot are empty; the records grow by departures at its time |
| LinkQueue.Link.BurnOpportunity | src/frontend/link_queue.cc:194-231 | the record of opportunities gains exactly its time, the bytes it carried and the packets still waiting at its end |
| LinkQueue.Link.Rationalize | src/frontend/link_queue.cc:192-232 | terminates with every opportunity up to now used and none after it; every invariant of the run is kept; departures, packets dequeued and output only grow, whatever the discipline; a first-in first-out queue is served by the closed form |
| LinkQueue.Link.ReadPacket | src/frontend/link_queue.cc:150-162 | oversized packets are refused; otherwise the link first serves what was due, and the queue is then exactly what its discipline makes of that queue and the new packet; it fails if and only if a drop-head queue would need a second drop |
| LinkQueue.Link.WaitTime | src/frontend/link_queue.cc:242-253 | the 32-bit distance to the next opportunity, which lies in the future, with the records grown only |
| LinkQueue.Link.WritePackets | src/frontend/link_queue.cc:234-240 | everything ready is written once, in order of departure |
| ByteStreamQueue.RingPush | src/util/bytestream_queue.cc:32-63 | writing into the free span appends to the unread bytes, around the end if need be |
| ByteStreamQueue.RingPop | src/util/bytestream_queue.cc:65-87 | reading from the read position takes bytes off the front of the unread ones |
| ByteStreamQueue.ByteStreamQueue.AvailableToPop | src/util/bytestream_queue.cc:20-24 | is the number of unread bytes |
| ByteStreamQueue.ByteStreamQueue.AvailableToPush | src/util/bytestream_queue.cc:26-30 | with the unread bytes adds up to the size less one |
| ByteStreamQueue.ByteStreamQueue.ContiguousSpaceToPush | src/util/bytestream_queue.cc:38-43 | overruns neither the array nor unread bytes, and is positive when there is space |
| ByteStreamQueue.ByteStreamQueue.Push | src/util/bytestream_queue.cc:32-63 | for every short read, the chunk is appended to the contents and all bytes pushed are those popped followed by the contents |
| ByteStreamQueue.ByteStreamQueue.Pop | src/util/bytestream_queue.cc:65-87 | for every short write, exactly the bytes written leave the front |
| ShellQuote.ShellQuote | src/frontend/linkshell.cc:56-69 | the quoting loop |
| ShellQuote.CommandLine | src/frontend/linkshell.cc:84-87 | the joining loop |
| ShellQuote.ReadQuote | src/frontend/linkshell.cc:56-69 | a quoted argument is read by the shell's rules as exactly that argument, empty or not |
| ShellQuote.QuotingRoundTrip | src/frontend/linkshell.cc:56-87 | reading the command line by sections 2.2.1 to 2.2.3 of the POSIX Shell Command Language gives back argv |

## The invariants of the link

`LinkQueue.Link.Valid` holds between any calls, so it describes every interleaving of
`read_packet`, `wait_time` and `write_packets`, over any discipline:

* the packets dequeued followed by those still queued are a subsequence of the packets that
  arrived, and all of them in order if the queue is unlimited, so nothing is invented, duplicated
  or reordered;
* the packets departed are the first of those dequeued, the next one is in transit; none departed
  before it arrived, departure times never go back, and each is the time of an opportunity used;
* the i-th opportunity used fell at the i-th time of the schedule and carried at most 1504 bytes,
  and if it carried fewer, nothing that is still to depart, or that departed after it, had arrived
  before it: capacity is wasted only when nothing waits;
* the bytes carried are those of the packets gone and of the part of the one in transit already
  sent;
* what was written and what is ready to be written are the contents of the departures, in order.

Every method that serves the link also states that departures, packets dequeued and output ready
to be written keep what they had (`LinkHistory.Progress`).

## Left out

- LinkQueue.Link.ReadPacket: requires a packet of at least one byte; the assertion on `packet_in_transit_bytes_left_` in `rationalize` demands it, and a TUN device delivers no empty packet.
- ChunkedParser.ChunkedBodyParser.Read: requires fragments below 2^32 - 2 bytes; with a longer one, a chunk size of 2^32 - 2 or 2^32 - 1 wraps around and can be accepted. Descriptors and sockets are read in far smaller pieces.
- HttpMessageSequenceObject.MessageSequence.Parse: requires the same bound on fragments, for the same reason.
- HttpMessageSequenceObject.MessageSequence.NewRequestArrived: takes complete requests only, which is what the proxy queues.
- CodelQueue.CodelPacketQueue.Dequeue: does not model the wrap-around of `count_` after 2^32 drops, where the code would divide by zero; sqrt is exact.
- PieQueue.PiePacketQueue.CalculateDropProb: probabilities are real numbers, so the rounding of doubles is not captured.
- LinkQueue.Link.Rationalize: times and the packet and byte counters of the queues are unbounded numbers, without 64-bit or 32-bit wrap-around.
- Tokenize.SplitString: requires strings shorter than 2^63 bytes.
- Multipart/byteranges bodies and unknown request methods only throw in the code, and only fail here.
- Inheritance: the two message classes are one object with a role, the dropping queues share one object, and the disciplines meet in a datatype; a packet moved into the transit slot is a value.
- The body parser of a completed message, which nothing consults any more.
- Log text, live graphs, the parsing of queue arguments and option handling.
- Sockets, TLS, polling, child processes, namespaces, DNS, storage and protobuf conversion.
- The delay, loss, on/off and meter queues, and the text filters of the proxy.
