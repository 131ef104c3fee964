# Verified model of a Modbus library

A Dafny model of a Modbus client and server library, with proofs that hold for every input, every run and every way the
byte stream can behave. `dafny verify dfyconfig.toml` covers all of it.

## How it is laid out

- PDU codec: `Basics`, `Bits`, `Parsing`, `Items`, `Codes`, `FileRecords`, `Mei` and `Pdu` give the wire layouts as
  functions on byte sequences. `PduShapes` and `PduRoundTrip` prove encoding and decoding inverse. `PduEncoder` and
  `PduDecoder` are the appending encoders (one growing buffer, placeholders patched, truncation on failure) and the cursor
  decoders, each proved to compute those functions.
- Wire reference: `WireFormat` says what stands in which byte of every PDU, and which numbers are legal, in literals and
  apart from the codec. `WireRequests` and `WireResponses`, over `WireLists`, prove the codec equal to it in both
  directions. `WireFrames` does so for the three frame layouts, `WireBoundaries` for where a frame ends on a stream, and
  `CrcReference` for the checksum as arithmetic on numbers.
- Framings: `Crc`, `CrcDetection`, `CrcPairs`, `Rtu`, `Ascii`, `Tcp`, and `Framings` over them, with `Messages` for a PDU
  and its direction. `Extent` and `ExtentAgreement` are the derivation of an RTU ADU's length from its own bytes.
  `FrameErrors` shows that no codec reports a failure of the stream.
- Receiving: `Stream` says what a receive yields for any sequence of reads, closes, failures and elapsed timers. A receive
  that runs out of events is pending; dropping it leaves the latch set. `Transport` is the class with the actual readers.
  `Delivery`, `StreamEnds`, `Sessions` and `BufferBounds` hold the theorems.
- Pipelined client: `Pipeline` is the state machine of callers, permits, counter, channel and background task;
  `PipelineInvariant`, `PipelineRuns`, `PipelineSteps` and `PipelineLoss` reason about its runs; `BackgroundTask` is the
  task as a class with table, timers and bitmap; `TransactionIds` is the identifier cycle.
- Plain client and server: `Clients` and `ClientCall`, `Server` and `ServerLoop`. Each pair is a specification and the
  class that meets it, both over the modelled transport. `ClientAnswers` and `ServerAnswers` spell out what a call and a
  connection do in every case; `RoundTrip` puts the two at the ends of one stream.

Bytes and 16-bit words are bounded integers. The CRC register is sixteen booleans, so its polynomial 0xA001 is three taps.
Failures are modelled by kind. The service, the caller, the network and time are parameters: a list of events, a reply per
request, an outcome per write.

## Where code and documentation differ

The model follows the code.

- TR-E-008 says the read buffer never grows past `MAX_ADU_LEN`. When reads bring up to c bytes the bound is
  `MAX_ADU_LEN - 1 + c`, reached under every framing, so the statement holds if and only if c is at most 1; the code reads
  up to 513 (`BufferBounds.BufferBounded`, `BufferBounds.BoundAttained`, `BufferBounds.NeverPastMaximumIff`).
- A silence-delimited RTU ADU of the legal maximum of 256 bytes is refused, because the bound check also refuses equality
  (`Sessions.SilenceDelivers`, `Sessions.LongestRtuRefused`).
- CL-R-087 says dropping a pipelined call frees its slot in the in-flight table. The permit is freed; the entry stays. The
  table holds at most the limit plus the callers cancelled unanswered, and can hold 65535 entries under any limit but 0;
  it stays within the limit whatever callers do if and only if the limit is 0 or at least 65535
  (`PipelineRuns.TableBounded`, `PipelineLoss.CancelLeavesEntry`, `PipelineLoss.TableWithinLimitIff`).
- CL-R-013 says a request is never abandoned mid-ADU without the client becoming unusable. A caller that drops a call during
  the write leaves the client usable and the identifier unspent, so the next request goes out under the same header and
  accepts the answer to the dropped one. Identifiers of all attempts differ if and only if every write but the last was
  completed (`Clients.IdentifiersDistinctIff`, `Clients.HeaderSharedIff`, `Clients.DroppedWriteCrossAnswers`).
- TR-R-088 and SV-R-052 say a stream that ends inside an ADU is a failure. That holds for a close. A read that fails with
  the end-of-file kind, wherever it comes, ends a served link as closed, with nothing reported (`Server.LinkEnds`,
  `Server.ClosedIsClean`, `Server.MidAduEndOfFile`).
- Every registered pipelined request is said to be answered before its sender is dropped. That holds if and only if no
  write replaces an entry in flight under the same identifier: always within 65535 allocations, not always after 65536
  (`PipelineRuns.NothingLostIff`, `PipelineRuns.FirstCycleNothingLost`, `PipelineLoss.SecondCycleLoses`).

## Model

| member | source | states |
|---|---|---|
| PduRoundTrip.RequestWritten | src/frame/pdu.rs:888-992 | an encoded request decodes to itself if and only if it is canonical (an unnamed MEI body does not carry type 13 or 14) |
| PduRoundTrip.RequestRead | src/frame/pdu.rs:715-826 | every byte string the request decoder accepts, for all twenty shapes, is the encoding of what it decodes to, and that is canonical |
| PduRoundTrip.ResponseWritten | src/frame/pdu.rs:1157-1273 | an encoded response decodes to itself if and only if it is canonical (bit reads in whole bytes, MEI as above); exceptions included |
| PduRoundTrip.ResponseRead | src/frame/pdu.rs:997-1094 | every byte string the response decoder accepts re-encodes to exactly the same bytes |
| PduRoundTrip.RequestInjective | src/frame/pdu.rs:862-885 | two canonical requests with one encoding are the same request |
| PduRoundTrip.ResponseInjective | src/frame/pdu.rs:1131-1154 | two canonical responses with one encoding are the same response |
| PduRoundTrip.PaddingIsNotDropped | src/frame/pdu.rs:304-318 | one coil encodes and comes back as eight: the canonical condition excludes something |
| PduRoundTrip.NamedTypeIsReread | src/frame/mei.rs:156-172 | an unnamed MEI request carrying type 13 encodes and comes back as another request |
| PduRoundTrip.RequestBodyRead | src/frame/pdu.rs:715-826 | whatever a request body parser consumes is exactly the fields of the value it yields, followed by what it left |
| PduRoundTrip.ResponseBodyRead | src/frame/pdu.rs:997-1094 | whatever a response body parser consumes is exactly the fields of the value it yields, followed by what it left |
| PduRoundTrip.EncodedRequestBounds | src/frame/pdu.rs:489-502 | an encoded request is 1 to 253 bytes long |
| PduRoundTrip.EncodedResponseBounds | src/frame/pdu.rs:489-502 | an encoded response is 1 to 253 bytes long |
| WireRequests.RequestEncodable | src/frame/pdu.rs:862-992 | a request encodes if and only if its numbers are the legal ones, listed in literals for each shape; otherwise the failure is the listed one |
| WireRequests.RequestEncoding | src/frame/pdu.rs:888-992 | bytes are a request's encoding if and only if the request is legal and every byte stands where the wire format puts it, function code, counts, packed bits and coil words included |
| WireRequests.RequestDecoding | src/frame/pdu.rs:715-826 | bytes decode to a request if and only if it is canonical and legal and they are its bytes in that format |
| WireResponses.ResponseEncodable | src/frame/pdu.rs:1131-1273 | the same condition for responses, exceptions included |
| WireResponses.ResponseEncoding | src/frame/pdu.rs:1157-1273 | bytes are a response's encoding if and only if the response is legal and every byte stands in its place |
| WireResponses.ResponseDecoding | src/frame/pdu.rs:997-1094 | bytes decode to a response if and only if it is canonical and legal and they are its bytes |
| PduShapes.QuantifiedWritten | src/frame/pdu.rs:533-555 | address, quantity, byte count and data written this way parse back, for bits and for registers |
| PduShapes.QuantifiedRead | src/frame/pdu.rs:340-365 | what the quantified layout accepts is what its encoder writes, byte count and width agreeing |
| PduShapes.CoilsWritten | src/frame/pdu.rs:692-708 | packed coils fill exactly the bytes their number needs and unpack to themselves |
| PduShapes.CoilsRead | src/frame/pdu.rs:323-335 | coils accepted with clear padding pack to the bytes they came from |
| PduShapes.FifoRead | src/frame/pdu.rs:1278-1291 | an accepted FIFO response has the byte count and FIFO count its encoder writes |
| PduShapes.EventLogRead | src/frame/pdu.rs:609-624 | an accepted event log is the encoding of its fields |
| Bits.Packed | src/frame/pdu.rs:692-708 | unpacking packed bits gives them back, followed by clear padding only |
| Bits.Unpacked | src/frame/pdu.rs:304-335 | packing unpacked bits gives the bytes back when their number fits and their padding is clear |
| PduEncoder.EncodeRequestInto | src/frame/pdu.rs:877-885 | for any prior buffer: the encoding is appended, or the failure is returned and the buffer is exactly as before |
| PduEncoder.EncodeResponseInto | src/frame/pdu.rs:1146-1154 | the same transaction for responses |
| PduEncoder.WriteRequest | src/frame/pdu.rs:888-992 | the writer appends exactly the specified encoding, or fails with its error having only appended |
| PduEncoder.WriteResponse | src/frame/pdu.rs:1157-1273 | the same for every response shape |
| PduEncoder.WriteBody | src/frame/file.rs:287-312 | the placeholder, the items and the patched length byte amount to the length-prefixed region, bounds checked on what was written |
| PduEncoder.WriteIdentification | src/frame/mei.rs:188-237 | the header and object loop write the device identification, or fail as it does |
| PduEncoder.PushBits | src/frame/pdu.rs:692-703 | the chunk loop appends the packed bits |
| PduDecoder.DecodeRequestPdu | src/frame/pdu.rs:715-826 | the cursor decoder returns what the specification decoder returns, on every input |
| PduDecoder.DecodeResponsePdu | src/frame/pdu.rs:997-1094 | the cursor decoder of responses does, too |
| Items.RenderThenParse | src/parse.rs:86-100 | a rendered list of items parses back to the list |
| Items.ParseThenRender | src/parse.rs:86-100 | a parsed region renders back to the region |
| Items.ParseLoop | src/parse.rs:86-100 | the item loop computes the recursive region parse, stopping at the first failure |
| FileRecords.ReadInverse | src/frame/file.rs:78-101 | a read sub-request parses exactly what it renders, whatever follows |
| FileRecords.ReadResponseInverse | src/frame/file.rs:104-142 | a read sub-response parses exactly what it renders, with its own length byte |
| FileRecords.WriteInverse | src/frame/file.rs:145-177 | a write sub-item parses exactly what it renders |
| FileRecords.ReadsRead | src/frame/file.rs:181-213 | an accepted list of read sub-requests re-encodes to the same region |
| FileRecords.ReadsWritten | src/frame/file.rs:181-213 | an encoded list of read sub-requests decodes to itself, whatever follows |
| FileRecords.ReadResponsesRead | src/frame/file.rs:216-243 | an accepted list of read sub-responses re-encodes to the same region |
| FileRecords.WritesRead | src/frame/file.rs:247-275 | an accepted list of write sub-items re-encodes to the same region |
| Mei.MeiRequestWritten | src/frame/mei.rs:135-170 | an MEI request survives encoding and decoding if and only if it is canonical |
| Mei.MeiResponseWritten | src/frame/mei.rs:173-237 | an MEI response survives encoding and decoding if and only if it is canonical |
| Mei.MeiResponseRead | src/frame/mei.rs:173-282 | an accepted MEI response, object list included, is the encoding of its value |
| Mei.ObjectInverse | src/frame/mei.rs:274-282 | an identification object parses exactly what it renders |
| Codes.FunctionRoundTrip | src/frame/function.rs:86-130 | decoding and encoding of function codes are inverse in both directions |
| Codes.ExceptionRoundTrip | src/frame/exception.rs:62-92 | the same for exception codes |
| Codes.SubFunctionRoundTrip | src/frame/diagnostics.rs:70-108 | the same for diagnostic sub-functions |
| Messages.MessageWritten | src/frame/framing.rs:119-185 | in either direction an encoded message decodes to itself if and only if canonical, and fits a PDU |
| Messages.MessageRead | src/frame/framing.rs:119-185 | bytes that decode in a direction are the encoding of a canonical message of that direction |
| Crc.UpdateIsFeed | src/frame/rtu.rs:18-26 | the byte-wise register update equals feeding the bits one at a time |
| Crc.FeedLinear | src/frame/rtu.rs:18-26 | the register difference of two streams is the register of their difference |
| Crc.ChecksumResidue | src/frame/rtu.rs:91-101 | a body followed by two bytes leaves an empty register if and only if they are its CRC, low byte first |
| CrcReference.CrcIsNumber | src/frame/rtu.rs:18-26 | the checksum of every byte string is the number the recurrence gives from 65535, a byte folded in, then eight halvings, each folding in 40961 when odd |
| CrcReference.ZerosRefused | src/frame/rtu.rs:72-102 | every all-zero frame of 4 to 256 bytes is refused for its checksum |
| CrcDetection.BurstVisible | src/frame/rtu.rs:18-26 | a non-zero difference within sixteen consecutive bits, at any offset in any length, leaves the register non-zero |
| CrcDetection.OddVisible | src/frame/rtu.rs:18-26 | a difference of an odd number of bits leaves the register non-zero |
| CrcPairs.OrderOfShift | src/frame/rtu.rs:18-26 | the register comes back to where it was after no fewer than 32767 shifts |
| CrcPairs.TwoVisible | src/frame/rtu.rs:18-26 | a difference of exactly two bits, anywhere in up to 32767, leaves the register non-zero |
| Rtu.SplitIffIntact | src/frame/rtu.rs:72-102 | splitting succeeds if and only if the size is 4 to 256 and the whole frame leaves the register empty |
| Rtu.BurstRejected | src/frame/rtu.rs:72-102 | an accepted frame altered only within sixteen consecutive bits is refused for its checksum |
| Rtu.AdjacentBytesRejected | src/frame/rtu.rs:72-102 | an accepted frame altered only in two adjacent bytes, also across the body and checksum, is refused for its checksum |
| Rtu.OddChangeRejected | src/frame/rtu.rs:72-102 | an accepted frame with an odd number of flipped bits is refused for its checksum |
| Rtu.FewBitsRejected | src/frame/rtu.rs:72-102 | an accepted frame with one, two or three flipped bits, wherever they are, is refused for its checksum |
| Rtu.SplitWrappedRtu | src/frame/rtu.rs:72-129 | a wrapped PDU splits into its address and itself |
| Rtu.WrapSplitRtu | src/frame/rtu.rs:72-129 | whatever splits is the wrapping of its parts |
| Rtu.WrapRtuInto | src/frame/rtu.rs:108-129 | the ADU is appended whole, or the buffer is restored |
| Ascii.AcceptedIffBalanced | src/frame/ascii.rs:73-135 | a frame is accepted if and only if it is well framed and its hexadecimal pairs, LRC included, sum to zero in eight bits |
| Ascii.WrapSplitAscii | src/frame/ascii.rs:73-165 | an accepted frame, letters upper-cased, is the wrapping of its parts |
| Ascii.SplitWrappedAscii | src/frame/ascii.rs:73-165 | a wrapped PDU splits into its address and itself |
| Ascii.ReplacementRejected | src/frame/ascii.rs:73-135 | replacing any one decoded byte of an accepted frame is refused for its checksum |
| Ascii.Delimiters | src/frame/ascii.rs:73-135 | inside an accepted frame neither a colon nor a carriage return occurs |
| Ascii.DecodeHexPairs | src/frame/ascii.rs:178-184 | the loop decodes as specified, failing on the first character that is not hexadecimal |
| Ascii.SplitAsciiAdu | src/frame/ascii.rs:73-135 | the imperative split, with its decoding loop, is the specified one |
| Ascii.WrapAsciiInto | src/frame/ascii.rs:142-165 | the ADU is appended whole, or the buffer has not been touched |
| Tcp.SplitWrappedTcp | src/frame/tcp.rs:125-214 | a wrapped PDU splits into header and PDU, and the first six bytes give the ADU's length |
| Tcp.WrapSplitTcp | src/frame/tcp.rs:125-214 | whatever splits is the wrapping of its parts, length field included |
| Tcp.WrapTcpInto | src/frame/tcp.rs:177-214 | placeholder, PDU and patched length are the wrapping, or the buffer is restored |
| WireFrames.RtuWrapping | src/frame/rtu.rs:108-129 | the wrapping is the one string that holds the address, the PDU and the checksum number, low byte first |
| WireFrames.RtuSplitting | src/frame/rtu.rs:72-102 | a frame splits into an address and a PDU if and only if it is 4 to 256 bytes long and laid out so; too short, too long and a wrong checksum are told apart |
| WireFrames.TcpWrapping | src/frame/tcp.rs:177-214 | the wrapping is the one string with the identifier, two zero bytes, the length of what follows, the unit and the PDU |
| WireFrames.TcpSplitting | src/frame/tcp.rs:125-170 | a frame splits into a header and a PDU if and only if it is laid out so |
| WireFrames.TcpRefusals | src/frame/tcp.rs:108-170 | which failure a frame that does not split gives, by length, protocol number and length field |
| WireFrames.AsciiWrapping | src/frame/ascii.rs:142-165 | the wrapping is the one string of ':', upper-case hexadecimal pairs that sum to a multiple of 256, CR and LF |
| WireFrames.AsciiSplitting | src/frame/ascii.rs:73-135 | a frame splits into an address and a PDU if and only if, letters upper-cased, it is laid out so |
| WireFrames.AsciiRefusals | src/frame/ascii.rs:73-135 | which failure a frame that does not split gives |
| Framings.AduWritten | src/frame/framing.rs:112-185 | a message that encodes fits an ADU of every framing, and header and message come back if and only if it is canonical |
| Framings.AduRead | src/frame/framing.rs:112-185 | an accepted ADU re-encodes to itself, up to letter case under ASCII |
| Framings.AduInjective | src/frame/framing.rs:112-185 | one ADU carries one header and one canonical message of a direction |
| Framings.SplitAdu | src/frame/framing.rs:119-161 | splitting with the loops of each framing is the specified split |
| Framings.EncodeAduInto | src/frame/framing.rs:138-174 | in every framing encoding into a buffer is a transaction |
| Extent.IdentificationExtent | src/frame/rtu.rs:354-394 | the object-list loop computes the recursive walk |
| Extent.ExtentOf | src/frame/rtu.rs:188-345 | the derivation with its object-list loop is the specified one |
| Extent.ExtentStable | src/frame/rtu.rs:188-345 | once an extent or a failure is derived, every extension of the bytes yields the same |
| Extent.ExtentExact | src/frame/rtu.rs:188-345 | an extent n satisfies 4 <= n <= 256 and fits what is in hand, and every shorter prefix asks for more |
| Extent.PrefixFree | src/frame/rtu.rs:188-345 | no derivable ADU is a proper prefix of another of its direction |
| Extent.SplitUnique | src/frame/rtu.rs:188-345 | a stream splits into derivable ADUs of a direction in one way only |
| ExtentAgreement.ExtentOfEncoded | src/frame/rtu.rs:188-394 | on the ADU of every canonical message, whatever follows it, the extent is exactly its length, or the code is refused exactly when it is not derivable |
| ExtentAgreement.EncodedIsFrame | src/frame/rtu.rs:188-394 | every derivable message is carried by one frame of the prefix-free code |
| ExtentAgreement.WalkRendered | src/frame/rtu.rs:366-378 | walking a rendered object list ends right behind it |
| WireBoundaries.RequestExtent | src/frame/rtu.rs:188-345 | on any bytes: more are needed below four, 18 function codes and every exception tell their length, at the stated byte and with the stated constant, and the rest are refused; over 256 is too large |
| WireBoundaries.ResponseExtent | src/frame/rtu.rs:188-345 | the same for responses, with the FIFO count in two bytes |
| WireBoundaries.IdentificationExtent | src/frame/rtu.rs:354-394 | a device identification ends at n if and only if the objects its eighth byte counts stand one behind the other up to two bytes before n, and is too large if and only if they end past byte 254 |
| WireBoundaries.TcpBoundary | src/transport/mod.rs:459-479 | what the length-prefixed rule makes of any buffer, with the length in bytes 5 and 6 |
| WireBoundaries.AsciiBoundary | src/transport/mod.rs:483-530 | the delimited rule delivers from the first ':' to the first CR LF behind it, drops only what comes before the ':', and refuses 513 characters without an end |
| WireBoundaries.SilenceBoundary | src/transport/mod.rs:617-625 | no bytes end a silence-delimited frame, and 256 are refused |
| WireBoundaries.ContentBoundary | src/transport/mod.rs:568-595 | what the content-length rule makes of any buffer |
| Transport.FrameTransport.constructor | src/transport/mod.rs:121-137 | a new transport holds nothing and is not receiving |
| Transport.FrameTransport.FillTo | src/transport/mod.rs:599-614 | either the receive has ended as specified, or it goes on unchanged from a buffer of the asked length |
| Transport.FrameTransport.ReadPrefixed | src/transport/mod.rs:459-479 | the length-prefixed reader does what deciding afresh on the whole buffer after every read does |
| Transport.FrameTransport.Search | src/transport/mod.rs:493-509 | resuming the terminator search where the last pass left off finds what searching from the start finds |
| Transport.FrameTransport.ReadDelimited | src/transport/mod.rs:483-530 | the incremental delimited reader refines the naive one: first start character, first terminator after it |
| Transport.FrameTransport.ReadUntilSilence | src/transport/mod.rs:533-562 | the silence reader does what its rule says for bytes, gaps, closes and failures |
| Transport.FrameTransport.ReadContentLength | src/transport/mod.rs:568-595 | the content-length reader does what its rule says |
| Transport.FrameTransport.ReceiveAdu | src/transport/mod.rs:405-433 | latch, reader and clearing together are the specified receive, for every sequence of read outcomes |
| Delivery.Conserved | src/transport/mod.rs:405-654 | in every framing, whatever the stream does, bytes discarded, handed out, kept and to come are those that were kept and to come, in that order; only ASCII discards, and never a start character |
| Delivery.HandedOutIsAdu | src/transport/mod.rs:437-595 | whatever is handed out is exactly one ADU of the framing |
| Delivery.ReadBounded | src/transport/mod.rs:616-654 | with reads of at most c bytes the buffer is at most the maximum less one plus c, during a receive and after it |
| Delivery.ReceiveOne | src/transport/mod.rs:405-595 | one receive takes exactly the first frame of the stream, however it is split between buffer and reads, skipping colon-free garbage under ASCII |
| Delivery.ReceiveNone | src/transport/mod.rs:405-595 | until the first frame is complete a receive stays pending, however its part is split |
| StreamEnds.StreamFailure | src/transport/mod.rs:483-654 | a receive fails with an I/O error if and only if its last event is that failed read or a close with nothing begun, with a closed connection if and only if it is a close inside an ADU silence does not end, with a timeout if and only if it is a gap inside an ASCII frame |
| Sessions.FramesDelivered | src/transport/mod.rs:405-625 | for TCP, RTU over TCP and ASCII: any concatenation of frames in any split into reads comes out frame by frame, surplus kept |
| Sessions.BurstsDelivered | src/transport/mod.rs:533-562 | on a silence-delimited line bursts of fewer than 256 bytes, in any reads, are delivered one by one |
| Sessions.BroughtDelivered | src/transport/mod.rs:405-625 | under all four rules as many receives yield exactly the frames the events bring |
| Sessions.FailureContained | src/transport/mod.rs:405-433 | in every framing each receive yields the decoding of the frame in its place, so one that does not decode costs only itself |
| Sessions.MessagesDelivered | src/transport/mod.rs:405-625 | end to end in every framing: encoded messages, run together and split anyhow or in bursts, are received with their headers, in order |
| Sessions.SilenceDelivers | src/transport/mod.rs:533-562 | gapless bytes followed by silence or a close are delivered if and only if they are fewer than 256 |
| Sessions.SilenceDeliversMessage | src/transport/mod.rs:533-562 | an RTU message is received if and only if its PDU is shorter than 253 bytes |
| Sessions.LongestRtuRefused | src/transport/mod.rs:617-625 | a legal 256-byte ADU decodes, and the silence reader refuses it |
| BufferBounds.BufferBounded | src/transport/mod.rs:405-654 | over any sequence of receives with reads of at most c bytes, under all four rules, the buffer stays within the maximum less one plus c at every moment |
| BufferBounds.BoundAttained | src/transport/mod.rs:616-654 | under each rule and for every size of read that bound is reached |
| BufferBounds.NeverPastMaximumIff | src/transport/mod.rs:616-654 | the buffer stays within the maximum for all streams with reads of at most c bytes if and only if c is at most 1 |
| Sessions.LatchHolds | src/transport/mod.rs:416-420 | an abandoned receive is refused ever after without touching anything |
| Sessions.FailureLeaves | src/transport/mod.rs:421-432 | a failed receive empties the buffer of a self-locating framing and drops nothing under the others |
| FrameErrors.RequestErrors | src/error.rs:340-356 | no request decoder reports a failure of the stream |
| FrameErrors.ResponseErrors | src/error.rs:340-356 | no response decoder reports a failure of the stream |
| FrameErrors.SplitErrors | src/error.rs:340-356 | no framing reports a failure of the stream for a malformed ADU |
| FrameErrors.RequestEncodeErrors | src/error.rs:340-356 | a request that does not encode is not a failure of the stream |
| FrameErrors.ResponseEncodeErrors | src/server/mod.rs:556-563 | a response that does not encode never ends the stream |
| TransactionIds.AdvancedId | src/client/mod.rs:793-798 | n steps from the k-th identifier lead to the (k+n)-th |
| TransactionIds.SingleCycle | src/client/mod.rs:793-798 | from any identifier but 0 every other is reached in exactly one number of steps below 65535 |
| TransactionIds.SameIdIff | src/client/mod.rs:793-798 | two allocations share an identifier if and only if whole cycles lie between them |
| TransactionIds.WindowDistinct | src/client/mod.rs:793-798 | any 65535 consecutive allocations are distinct and none is 0 |
| PipelineInvariant.StepKeeps | src/client/pipeline.rs:259-476 | every step of callers, channel and task keeps: permits within the limit, identifiers by allocation, entries unanswered with their own live timer and issued identifier, at most one answer each, an empty table once desynchronized |
| PipelineRuns.RunInv | src/client/pipeline.rs:361-476 | that invariant holds at every state of every run |
| PipelineRuns.Fate | src/client/pipeline.rs:361-476 | a taken request is registered, answered exactly once, or lost, and only one of these |
| PipelineRuns.LostStep | src/client/pipeline.rs:387-448 | one step loses exactly the holder of an entry a successful write replaces, and nothing else |
| PipelineRuns.NothingLostIff | src/client/pipeline.rs:361-476 | in every run no request is lost if and only if no write replaced an entry still in flight |
| PipelineRuns.ExactlyOnce | src/client/pipeline.rs:361-476 | without such a write every taken request is registered and unanswered, or answered exactly once |
| PipelineRuns.TimersPaired | src/client/pipeline.rs:361-476 | without such a write table entries and live timers are in bijection, and a desynchronized handle has neither |
| PipelineRuns.PositiveAnswerExplained | src/client/pipeline.rs:388-427 | in every run a positive answer goes back to a write of the request and a later frame under its identifier, met while it was registered and the timer of that write was running |
| PipelineRuns.EntryWritten | src/client/pipeline.rs:402-406 | every table entry of a run goes back to the write that made it and started its timer |
| PipelineRuns.DesynchronizedForever | src/client/pipeline.rs:387-448 | desynchronization never reverts: the table stays empty and nothing more is written |
| PipelineRuns.InFlightBounded | src/client/pipeline.rs:259-290 | registered requests whose callers still wait never exceed the limit |
| PipelineRuns.TableBounded | src/client/pipeline.rs:259-328 | in every run the table holds at most the limit plus the callers cancelled unanswered, so at most the limit if only answered ones are cancelled |
| PipelineRuns.WindowedNothingLost | src/client/pipeline.rs:305-313 | nothing is lost while no request stays outstanding across 65535 allocations |
| PipelineRuns.FirstCycleNothingLost | src/client/pipeline.rs:305-313 | nothing is lost before the 65536th allocation |
| PipelineSteps.FrameAnswersHolder | src/client/pipeline.rs:419-426 | in every run a frame whose identifier a caller holds answers that caller with its response, takes out its entry and timer, and leaves every other entry, timer and answer as it was |
| PipelineSteps.StrayFrame | src/client/pipeline.rs:427-440 | a frame no one holds changes nothing if a request was ever taken under its identifier, and otherwise gives the handle up, telling exactly the callers in the table |
| PipelineSteps.IssuedIff | src/client/pipeline.rs:398-400 | an identifier counts as issued if and only if some earlier step of the run took a request under it on a working handle |
| PipelineSteps.ReceiveFails | src/client/pipeline.rs:441-447 | a failed receive gives the handle up |
| PipelineSteps.ExpiryAnswersHolder | src/client/pipeline.rs:449-461 | an expiry answers the holder of its identifier with a response timeout; the others are failed too if and only if timeouts desynchronize the transport, and are left alone otherwise |
| PipelineSteps.StrayExpiry | src/client/pipeline.rs:449-461 | an expiry whose identifier no one holds only takes its timer off the queue |
| PipelineSteps.CommandWritten | src/client/pipeline.rs:401-406 | a request is written as its TCP ADU under its own identifier and unit and entered with a timer of its own, and no one is answered |
| PipelineSteps.CommandFails | src/client/pipeline.rs:407-412 | a request that does not encode or is not written is answered with that failure, and the handle is given up |
| PipelineSteps.CommandRefused | src/client/pipeline.rs:394-397 | on a given-up handle a request is answered as desynchronized, and nothing else happens |
| PipelineSteps.ChannelInOrder | src/client/pipeline.rs:316-325 | in every run what was written followed by what is queued is exactly what callers put on the channel, in order; after the handle is given up, what was written is a prefix of it |
| PipelineSteps.EnqueuedBears | src/client/pipeline.rs:305-325 | each of those commands bears the identifier its caller was allocated |
| PipelineSteps.WireCarriesWritten | src/client/pipeline.rs:401-406 | in every run the ADUs on the wire are the encodings of the written requests under their identifiers and units, one each, in order |
| PipelineSteps.ReturnedWhy | src/client/pipeline.rs:290-328 | a call returns the one answer sent down its channel, or was refused as desynchronized on a handle given up by then, its request never taken |
| PipelineLoss.SecondCycleLoses | src/client/pipeline.rs:402-406 | 65536 allocations suffice to lose a request, with two calls at a time |
| PipelineLoss.CancelLeavesEntry | src/client/pipeline.rs:290-328 | cancelling keeps the entry: under every limit from 1 on, any table size up to 65535 is reachable with no one waiting |
| PipelineLoss.TableWithinLimitIff | src/client/pipeline.rs:259-328 | the table of a handle stays within the limit in every reachable state if and only if the limit is 0 or at least 65535 |
| BackgroundTask.ArmsAllowed | src/client/pipeline.rs:468-476 | in every state of a run each entry's timer is live and its own, so removing it cannot panic |
| BackgroundTask.PipelineTask.constructor | src/client/pipeline.rs:361-384 | a new task is idle |
| BackgroundTask.PipelineTask.FailAll | src/client/pipeline.rs:468-476 | draining the table in any order cancels each entry's timer and answers each caller once |
| BackgroundTask.PipelineTask.OnCommand | src/client/pipeline.rs:388-413 | the command arm encodes the request into a buffer of its own and makes the specified step, on the table, the timers and the bitmap |
| BackgroundTask.PipelineTask.OnReceive | src/client/pipeline.rs:414-449 | the receive arm makes the step that `PipelineSteps.FrameAnswersHolder`, `StrayFrame` and `ReceiveFails` spell out |
| BackgroundTask.PipelineTask.OnExpire | src/client/pipeline.rs:449-461 | the timer arm makes the step that `PipelineSteps.ExpiryAnswersHolder` and `StrayExpiry` spell out |
| ClientCall.ModbusClient.constructor | src/client/mod.rs:162-176 | a new client is untried and starts at identifier 1 |
| ClientCall.ModbusClient.Decode | src/frame/framing.rs:155-161 | decoding a response ADU with the framing and PDU loops is the specified decoding |
| ClientCall.ModbusClient.AwaitLoop | src/client/mod.rs:247-290 | the receive loop over the transport computes the wait whose result, state and leftovers `Clients.AwaitSound`, `Clients.AwaitComplete` and `ClientAnswers.AwaitLeaves` spell out |
| ClientCall.ModbusClient.Issue | src/client/mod.rs:218-291 | a call does to client and transport what `ClientAnswers.CallSpelled` spells out, the bytes written included, for every behaviour of stream and caller |
| Clients.UnusableForever | src/client/mod.rs:218-222 | an unusable client stays so for the same reason through any calls, which write and read nothing |
| Clients.CallKeepsLatch | src/client/mod.rs:218-291 | a call its caller stays with returns, and keeps that a latched receive means an unusable client |
| Clients.LatchNeverSurfaces | src/client/mod.rs:218-291 | over every run without dropped calls a latched receive means an unusable client, and no call returns its refusal |
| Clients.AbandonedThenRefused | src/client/mod.rs:218-291 | after a dropped wait the next call that waits times out at once and ends the client |
| Clients.AwaitSound | src/client/mod.rs:247-290 | an answer is decoded from the first frame of this call's own stream under exactly the header sent, for the function asked, every frame before it answering another; what follows it is what the transport still holds |
| Clients.AwaitComplete | src/client/mod.rs:247-290 | such a frame ends the wait however the stream is split into reads, on every framing silence does not end: with its response if the function is the one asked, else as an unexpected function, and as answered either way |
| Clients.AwaitFailure | src/client/mod.rs:249-273 | a failed wait leaves the client unusable if and only if the failure ends the stream or the framing is not self-locating, with the reason it classifies to |
| Clients.EncodesInEveryFraming | src/client/mod.rs:223-231 | a request that encodes as a PDU encodes in every framing |
| Clients.CallAttempts | src/client/mod.rs:228-237 | a call begins a write if and only if the client is usable and the request encodes; the bytes are the request's ADU under the identifier due, spent if and only if the write is completed |
| Clients.HeaderSharedIff | src/client/framing.rs:26-45 | the header due is that of an earlier attempt within the cycle if and only if that was for the same unit and neither it nor any later write was completed |
| Clients.IdentifiersDistinctIff | src/client/mod.rs:228-237 | over a run within one cycle all attempts bear different identifiers if and only if every write but the last was completed |
| Clients.NoCrossAnswer | src/client/mod.rs:218-291 | over every TCP run what a call returns was decoded from its own stream under its own header, which is an earlier attempt's within the cycle if and only if that attempt and all after it were left uncompleted, for the same unit |
| Clients.DroppedWriteCrossAnswers | src/client/mod.rs:230-237 | after a dropped write the next request shares its header and returns the answer to it |
| ClientAnswers.CallSpelled | src/client/mod.rs:218-291 | every outcome of a call in its own terms: refused, unencodable, dropped, failed (peer closed or that I/O kind), broadcast, or awaited; what it writes and what it leaves of the client |
| ClientAnswers.RunWrites | src/client/mod.rs:228-237 | in a run of calls the n-th call adds exactly the ADU of its own request under the header due then, or nothing if and only if the client was unusable or the request does not encode |
| ClientAnswers.FailureClassified | src/client/mod.rs:756-769 | the state each failure leaves, both ways, for every framing |
| ClientAnswers.AwaitLeaves | src/client/mod.rs:249-273 | read off the events its last receive met, a wait leaves the peer closed, an I/O failure of that kind, silence or an undecodable frame if and only if that is what the stream brought; a malformed frame under RTU or ASCII leaves the client usable |
| ClientAnswers.PassedOverFrames | src/client/mod.rs:274-290 | what comes before that last receive are whole frames that answer other headers, and nothing else |
| ClientAnswers.CallAnswered | src/client/mod.rs:218-291 | on every framing silence does not end, a response under the request's header, behind any frames for others and in any split into reads, is what the call returns |
| ClientAnswers.RtuCallAnswered | src/client/mod.rs:218-291 | the same on a silence-delimited line, each frame in a burst of its own |
| RoundTrip.ResponseReturned | src/client/mod.rs:218-291 | end to end: what a client writes makes a server for that unit dispatch exactly that request, and what the server writes makes the call return the service's response, both streams split in any way |
| RoundTrip.BurstReturned | src/client/mod.rs:218-291 | the same exchange on a silence-delimited line |
| Server.ExchangeDiscipline | src/server/mod.rs:483-565 | over a whole connection each response directly follows the dispatch of its request under the same header, only requests for this unit or for all are dispatched, only the former answered, and what is written is the response's ADU under that header |
| Server.LinkEnds | src/server/mod.rs:503-523 | read off the stream: a link is closed, fails with a severed ADU or times out if and only if the stated event was met, and on a self-locating framing only a failure of the stream ends it as failed |
| Server.ClosedIsClean | src/server/mod.rs:505-510 | where no read fails with the end-of-file kind a link is closed if and only if a close came between two ADUs |
| Server.MidAduEndOfFile | src/server/mod.rs:505-510 | a read that fails with that kind inside an ADU closes the link with nothing reported |
| Server.DisconnectOnceAndLast | src/server/mod.rs:454-480 | connect is notified once and first, disconnect once and last with the reason the link ended for, between them exactly what the exchange did; the result is that reason's |
| Server.WantedAreDispatched | src/server/mod.rs:525-550 | while a link goes on what is dispatched is exactly the decodable requests received for this unit or for all, in order, each once |
| Server.HandledContinues | src/server/mod.rs:525-563 | a connection goes on after every request whose response was written or did not encode |
| Server.ServedInOrder | src/server/mod.rs:483-565 | a stream of frames, decodable or not, in any reads and arriving anyhow with the passes, is served as the in-order handling of those frames, for all replies, broken writes and shutdowns, up to and including how the link ends |
| Server.BurstsServedInOrder | src/server/mod.rs:483-565 | the same on a silence-delimited line for bursts of fewer than 256 bytes |
| Server.HandlesMessage | src/server/mod.rs:525-563 | a frame that carries an encoded request is handled as that request |
| ServerAnswers.RequestAnswered | src/server/mod.rs:525-563 | a decoded request for this unit, or for any if none is configured, is dispatched and its answer, or its exception under the same function, written as its ADU under the request's header; serial address 0 is only dispatched; another unit's is ignored; a response that does not encode, or is not written, is reported |
| ServerAnswers.FailureReported | src/server/mod.rs:503-523 | an end of file closes the link with no report; any other failure is reported once and ends the link if and only if it is one of the stream or the framing is TCP or RTU over TCP |
| ServerAnswers.ShutdownEnds | src/server/mod.rs:495-502 | a pass ends for shutdown if and only if the signal is there first or comes before a frame is complete; nothing is done then |
| ServerAnswers.StreamAnswered | src/server/mod.rs:483-565 | end to end: encoded requests for this server on one stream in any reads are all dispatched and answered, in order, each with its response's ADU under its own header, and nothing else is done |
| ServerAnswers.BurstsAnswered | src/server/mod.rs:483-565 | the same on a silence-delimited line |
| ServerLoop.Connection.constructor | src/server/mod.rs:454-467 | a new connection has notified no one |
| ServerLoop.Connection.Decode | src/frame/framing.rs:119-125 | decoding a request ADU with the framing and PDU loops is the specified decoding |
| ServerLoop.Connection.Dispatch | src/server/mod.rs:525-563 | the loop body encodes into a buffer and handles a request as `ServerAnswers.RequestTreated` spells out |
| ServerLoop.Connection.Run | src/server/mod.rs:483-565 | the loop over transport events is the specified exchange |
| ServerLoop.Connection.Serve | src/server/mod.rs:454-480 | notifications and result of a whole connection are as specified |

## Left out

- Sockets, TLS, UDP, serial ports and RS-485: foreign code behind the read and write outcomes.
- The serial inter-frame interval: an elapsed timer is an event.
- Error payloads and message texts: failures are kinds.
- Buffer capacities and reservations: they do not change what is written.
- The typed client methods and the mapping of exception responses to errors in `exchange`: one-branch wrappers over a call.
- The pipelined `try_send` refusal at the limit: no state changes; acquiring is merely not enabled.
- The end of the background task when every handle is dropped: no caller is left then.
- Server accept loops, datagram serving and shutdown handles: task plumbing around a connection.
- Register masking (`mask_write_result`) and display forms: easy members on their own.
