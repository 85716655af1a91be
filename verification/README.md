# libstyxe: a verified model of the 9P2000 codec

libstyxe encodes and decodes the messages of 9P2000, 9P2000.u, 9P2000.e and 9P2000.L.
It performs no I/O: writers fill a fixed buffer, parsers read one. This project models
the codec, the writers that go back and patch sizes they could not know in advance, the
directory listing writer, the directory entry reader and the parser dispatch, and proves
how they fit together.

## How the model is built

| file | contents |
|---|---|
| `Bytes.dfy` | integer widths, little-endian numbers, overwriting a stretch of a buffer |
| `Fields.dfy` | field kinds and values; a message body as a list of fields; round trip, canonical form, truncation for every list |
| `Messages.dfy` | qids, stats and all 78 messages: codes, writing order, reading order |
| `Orders.dfy` | the two orders of every message agree |
| `Tables.dfy` | the parse tables of the four versions |
| `Framing.dfy` | header, validation, dispatch; round trip, canonical form and truncation of whole messages |
| `Wire.dfy`, `Layout.dfy`, `Records.dfy` | the manual's byte forms of all messages, written independently of the codec; the codec agrees with them |
| `Extensions.dfy` | 9P2000.u messages as base messages with a suffix |
| `Bounds.dfy` | the size bound behind the minimum frame size |
| `Streams.dfy`, `Readers.dfy` | the writing and the reading stream, encoder and decoder |
| `Writers.dfy` | the message writer, its early return, its reuse, its whole runs |
| `Partials.dfy`, `PartialData.dfy` | the partial writers |
| `Refinement.dfy`, `PartialLimits.dfy` | partial writers against one-shot writers, and where they stop agreeing |
| `Paging.dfy`, `DirListing.dfy`, `Listings.dfy` | directory reads: windows, paging, the listing writer, reading listings back |
| `DirEntries.dfy` | the directory entry iterator |
| `EndToEnd.dfy` | writers and parsers together; a directory listed page by page |
| `Examples.dfy` | concrete inputs for the findings below |

Buffers are arrays and the writers are classes over them, as in the code. Byte views are
sequences. Counters keep their widths: the segment count and the string length wrap at
2^16, sizes at 2^32, the traversal counter at 2^64. A message is begun with whatever size
an earlier message left in the writer.

The order in which a writer emits fields and the order in which the decoder assigns them
are two separate transcriptions; `Orders.dfy` proves that they agree in both directions.
What the bytes are is a third: `Wire.dfy` gives each message the number and the fields of
the protocol's manual (docs/9p2000.txt:78-122, docs/9p2000.L.txt:127-434,
docs/9p2000.e.txt:52-70), byte by byte and without the codec's lists, codes or tables;
`Layout.dfy` and `Records.dfy` prove that frames and records are those bytes.

`Decoded.Undefined` marks the two inputs whose treatment the model does not describe: a
path whose segments run past the bytes, and a walk response that announces more than
sixteen qids and carries sixteen.

## What the proofs found

- The tag given to the two-argument `messageType` is lost as soon as the size is patched.
  `WriteTagged` states exactly when the frame keeps it.
- `PartialDataWriter::update` with a size beyond the buffer leaves a message that announces
  data it does not have. `PartialDataWriter.UpdateSize` states exactly when the message is
  whole; `UpdateRead` and `UpdateWrite` state what a receiver of the bytes gets in each case.
- A path written in more than 65535 segments, or a string of more than 65535 bytes in
  pieces, reads back as a truncated one: `SegmentCounterLimit`, `StringLengthLimit`.
- The listing writer adds an entry to its u32 counter before it tests the limit, and refused
  entries stay in the counter. `VerdictRight` states for every state that offers can lead to
  exactly when the verdict is that of an unbounded count; `ServeIsWindow` and
  `ServeOnIsWindow` state exactly when a run up to the first refusal, or beyond it, emits the
  window. With a caller that goes on after a refusal a limit of zero is enough to fail.
- Directory reads with one count return the whole listing if and only if every entry fits
  the count: `PagingTilesIff`.
- A payload limit of 2^32 - 7 or more wraps to a maximum size below the header size, so that
  no frame is accepted: `FramingAcceptance`.

`Examples.dfy` has a concrete input for each of these.

Where code and documentation disagree the model follows the code. The Twstat request writes
and reads the stat directly after the fid (src/9p2000_writer.cpp:187-189,
src/9p2000.cpp:193-196), while docs/9p2000.txt:64-65 and 121 put a two-byte count before it;
only Rstat has that count (`dummySize`). Equality of stats is equality of all fields; the
operator in include/styxe/9p2000.hpp:161-174 does not compare `muid`.

## Model

| member | source | states |
|---|---|---|
| `Bytes.LEDigit` | src/encoder.cpp:71-90 | byte i of an encoded integer is its digit of weight 256^i |
| `Fields.RoundTrip` | src/parse_helper.hpp:33-41 | for every list of fields and any following bytes, decoding the encoding gives back every field and leaves exactly the following bytes |
| `Fields.Canonical` | src/decoder.cpp:24-118 | on any bytes, if decoding succeeds, the bytes are the encoding of the decoded fields followed by the unread bytes |
| `Fields.PrefixFree` | src/encoder.cpp:71-105 | no encoding of a field list is a prefix of a different encoding of the same kinds |
| `Fields.Truncated` | include/styxe/decoder.hpp:114-120 | every strict prefix of an encoding fails, at the first field that it does not cover; only a path cut behind its count is a malformed path |
| `Fields.UndefinedExactly` | src/decoder.cpp:98-118 | the outcome that is not modelled arises exactly from a path whose count is there and whose segments are not, and from more than sixteen announced qids with sixteen there |
| `Fields.ListUndefinedExactly` | src/parse_helper.hpp:33-41 | for a list of fields it arises exactly if the decoding reaches such a field |
| `Fields.TextsThere` | include/styxe/9p2000.hpp:587-597 | so many strings can be read exactly if the bytes begin with the encoding of so many |
| `Fields.FirstUncoveredIsFirst` | include/styxe/decoder.hpp:114-120 | the reported field is the one in which the prefix ends |
| `Fields.DecodeAppend` | src/9p2000u.cpp:75-98 | decoding a base message and then an extension on one reader is decoding the joined list |
| `Fields.QidArrayRoundTrip` | src/9p2000.cpp:55-69 | the qid array of a walk response survives the round trip |
| `Fields.PathRoundTrip` | src/decoder.cpp:98-118 | so does a path, whatever follows it |
| `Orders.QidOneEncoding` | include/styxe/9p2000.hpp:539-545 | a qid field and an element of the qid array have one encoding |
| `Orders.StatOrderAgrees` | include/styxe/9p2000.hpp:552-632 | a stat anywhere in a message is assigned from the fields that it was written to |
| `Orders.RequestOrderAgrees` | src/9p2000.cpp:133-196 | what the writer of any request emits has the kinds that its decoder expects and is assigned to the same fields |
| `Orders.RequestOrderComplete` | src/9p2000L.cpp:334-433 | every value list that a request decoder can produce is what the writer of the assembled request emits |
| `Orders.ResponseOrderAgrees` | src/9p2000.cpp:55-127 | the same agreement for every response |
| `Orders.ResponseOrderComplete` | src/9p2000L.cpp:438-560 | and its converse |
| `Tables.RequestSlotExact` | src/messageParser.cpp:85-228 | a version dispatches a code to a request decoder if and only if it has that request and the writer of the request uses that code |
| `Tables.ResponseSlotExact` | src/messageParser.cpp:112-257 | the same for responses |
| `Tables.VersionsConservative` | src/messageParser.cpp:142-257 | .e agrees with base outside 150-155; .u and, on base codes, .L agree with base except at the six replaced codes; .L agrees with .u on base codes |
| `Tables.RequestNumbers` | src/messageParser.cpp:85-228 | the request numbers that each version dispatches, listed |
| `Tables.ResponseNumbers` | src/messageParser.cpp:112-257 | the response numbers that each version dispatches, listed |
| `Tables.ReplyIsNext` | docs/9p2000.txt:132-135 | in every version the number behind that of a request belongs to the response of the same name |
| `Tables.ResponseHasRequest` | docs/9p2000.txt:132-135 | every response but the errors answers a request of the same version |
| `Layout.RequestOnTheWire` | docs/9p2000.txt:78-122 | for every request and tag, the written frame is size, the manual's number, tag and the manual's fields, byte for byte |
| `Layout.ResponseOnTheWire` | docs/9p2000.txt:78-122 | the same for every response |
| `Layout.RequestReceived` | src/messageParser.cpp:85-228 | the manual's bytes of a request are received as that request, tag included, by exactly the versions that have it |
| `Layout.ResponseReceived` | src/messageParser.cpp:112-257 | the same for responses |
| `Layout.ReceivedRequestForm` | src/messageParser.cpp:348-356 | whatever a version parses is a request that it has, in the manual's bytes, and the unread bytes |
| `Layout.ReceivedResponseForm` | src/messageParser.cpp:337-345 | the same for responses |
| `Layout.RequestFieldAt` | src/9p2000_writer.cpp:115-189 | in every request each field lies behind the widths of the fields before it |
| `Layout.ResponseFieldAt` | src/9p2000_writer.cpp:27-111 | the same for responses |
| `Layout.WalkLayout` | src/9p2000_writer.cpp:139-141 | fid, newfid and count of a walk lie at bytes 0, 4 and 8 of the payload, the segments behind them |
| `Layout.LinkLayout` | docs/9p2000.L.txt:404 | directory, file and name of a link lie at bytes 0, 4 and 8 |
| `Layout.AttributesLayout` | src/9p2000L.cpp:269-286 | mask, qid, mode and owners of the attributes response lie at bytes 0, 8, 21, 25 and 29 of 153 |
| `Layout.AttributesLayoutRest` | src/9p2000L.cpp:269-286 | and its fifteen 64-bit fields at their offsets from byte 33 |
| `Layout.SixteenQids` | include/styxe/9p2000.hpp:397-401 | sixteen qids are read from the bytes of sixteen qids |
| `Records.StatNumbersAt` | include/styxe/9p2000.hpp:552-566 | the ten numbers of a stat lie at bytes 0, 2, 4, 8, 9, 13, 21, 25, 29 and 33 |
| `Records.StatNamesAt` | include/styxe/9p2000.hpp:552-566 | its four strings follow from byte 41 and end it |
| `Records.StatReading` | include/styxe/9p2000.hpp:618-632 | whatever decodes as a stat holds its fields at those places |
| `Records.StatExLayout` | include/styxe/9p2000u.hpp:55-77 | the extended stat is the stat, the extension string and three ids |
| `Records.EntryLayout` | include/styxe/9p2000L.hpp:557-563 | qid, offset, type and name of a directory entry lie at bytes 0, 13, 21 and 22 |
| `Records.EntryReading` | include/styxe/9p2000L.hpp:565-571 | raw bytes hold an entry exactly if its 24 bytes and its name are there, and these are its fields |
| `Framing.HeaderLayout` | include/styxe/messageWriter.hpp:31-37 | size, type and tag lie at bytes 0, 4 and 5 of the header |
| `Framing.HeaderRoundTrip` | src/messageParser.cpp:296-315 | a written header parses back to itself |
| `Framing.HeaderParses` | src/messageParser.cpp:296-315 | a header is read if and only if seven bytes are there and they declare at least seven |
| `Framing.FramingAcceptance` | src/messageParser.cpp:266-356 | for every byte string and limit, a decoder is reached if and only if the bytes are one whole frame within the limit and header plus limit stay within 32 bits |
| `Framing.FramingErrors` | src/messageParser.cpp:266-315 | under every limit, request and response parsers answer any other byte string by the error of the first failing check; when header plus limit leave 32 bits every well-formed header is too big |
| `Framing.FirstFrameAgrees` | src/messageParser.cpp:318-333 | the parser of the version request agrees with the parser of every version on Tversion frames and on frames that reach no decoder, and refuses every other type |
| `Framing.FirstFrameExact` | src/messageParser.cpp:318-333 | it receives a version request with nothing left over if and only if the bytes are the frame of that request, within the limit for the whole message |
| `Framing.RequestPayloadParses` | src/messageParser.cpp:40-51 | a payload that starts with an encoded request parses to it and leaves the rest |
| `Framing.ResponsePayloadParses` | src/messageParser.cpp:53-64 | the same for responses |
| `Framing.RequestRoundTrip` | src/messageParser.cpp:348-356 | for every version, request and tag within the limit: the version has the request if and only if the written frame parses to the same variant, tag and fields with nothing unread |
| `Framing.ResponseRoundTrip` | src/messageParser.cpp:337-345 | the same for every response |
| `Framing.RequestCanonical` | src/messageParser.cpp:348-356 | whenever a frame parses, it is the header, the encoding of the request and the unread bytes, and the version has the request |
| `Framing.ResponseCanonical` | src/messageParser.cpp:337-345 | the same for responses |
| `Framing.RequestsPrefixFree` | src/9p2000_writer.cpp:115-189 | two requests of one type never share an encoding, and neither is a prefix of the other |
| `Framing.ResponsesPrefixFree` | src/9p2000_writer.cpp:27-111 | the same for responses |
| `Framing.RequestTruncated` | src/parse_helper.hpp:33-41 | a request payload that is cut short is refused at the first field that is not whole; only a cut behind the count of a path leaves a malformed path |
| `Framing.ResponseTruncated` | src/parse_helper.hpp:33-41 | the same for every response |
| `Extensions.ExtendedFields` | src/9p2000u.cpp:30-60 | a .u request writes the fields of its base request and then its extension, under the same code |
| `Extensions.ExtendedResponseFields` | src/9p2000u.cpp:63-72 | the same for .u responses |
| `Extensions.ExtendedKinds` | src/9p2000u.cpp:75-104 | a .u decoder reads what the base decoder reads and then the extension |
| `Extensions.BaseParserReadsExtendedRequest` | src/9p2000u.cpp:30-60 | a base or .e parser reads the base request out of a .u frame and leaves exactly the extension bytes |
| `Extensions.BaseParserReadsExtendedResponse` | src/9p2000u.cpp:63-72 | the same for Rerror and Rstat |
| `Extensions.ExtendedParserRejectsBaseRequest` | src/messageParser.cpp:144-154 | a .u or .L parser refuses every base Auth, Attach, Create and WStat frame, at the missing field |
| `Extensions.ExtendedParserRejectsBaseResponse` | src/messageParser.cpp:156-164 | and every base Rerror and Rstat frame |
| `Bounds.WalkFrameBound` | src/messageParser.cpp:25 | every walk of at most 16 names of at most 256 bytes fits 4145 bytes, and one needs them all |
| `Streams.PutNum` | src/encoder.cpp:71-90 | an integer is written little-endian at the position, nothing else changes |
| `Streams.PutText` | src/encoder.cpp:92-97 | a string is written as u16 length and bytes |
| `Streams.PutData` | src/encoder.cpp:100-105 | data is written as u32 length and bytes |
| `Streams.PutQid` | include/styxe/9p2000.hpp:539-545 | a qid is written as type, version, path |
| `Streams.PutPath` | include/styxe/9p2000.hpp:587-597 | the loop over a path writes the count and each segment |
| `Streams.PutQids` | src/9p2000_writer.cpp:54-64 | the loop over the qids of a walk response writes the count and each qid |
| `Streams.PutFields` | src/write_helper.hpp:25-44 | the fold of writes leaves the encoding of the list at the old position and nothing else changed |
| `Readers.ReadText` | src/decoder.cpp:57-78 | reads a string, or consumes at most the length and leaves the destination as it was |
| `Readers.ReadData` | src/decoder.cpp:81-95 | reads u32-counted data, or consumes at most the length |
| `Readers.SkipLandsAfterSegments` | src/decoder.cpp:98-118 | skipping the summed sizes of the segments lands where decoding them one at a time lands |
| `Readers.ReadPath` | src/decoder.cpp:98-118 | the skip-sum loop reads what sequential decoding of the segments reads |
| `Readers.ReadQid` | include/styxe/9p2000.hpp:605-610 | reads type, version and path in that order; a failure leaves what follows the fields that were there |
| `Readers.ReadQids` | src/9p2000.cpp:55-69 | the qid loop reads all announced qids, or fails at the first that is not whole and consumes nothing behind it |
| `Readers.ReadFields` | src/parse_helper.hpp:33-41 | the fold of reads decodes the list on one reader; or it fails at the field the decoding function names, the values before it decoded, the reader left where that one field's read left it |
| `Readers.ReadHeader` | src/messageParser.cpp:296-315 | reads a header, or fails with the error of the parsing function; unless bytes are missing exactly seven are consumed |
| `Readers.ReceiveRequest` | src/messageParser.cpp:348-356 | on one reader: header, validation, dispatch and decoding give the parsing function's header, request or error and leave its unread bytes; a frame that fails validation or dispatch loses its header only |
| `Readers.ReceiveResponse` | src/messageParser.cpp:337-345 | the same for responses |
| `Writers.MessageWriter.constructor` | include/styxe/messageWriter.hpp:50-54 | records the position and the tag; the size is the header size |
| `Writers.MessageWriter.MessageType` | include/styxe/messageWriter.hpp:77-79 | begins a message: the bytes at the start are the remembered header, with the size left by earlier messages |
| `Writers.MessageWriter.MessageTypeTagged` | include/styxe/messageWriter.hpp:92-96 | begins a message with a tag that is written but not remembered |
| `Writers.MessageWriter.UpdateMessageSize` | src/messageWriter.cpp:24-42 | on a begun message the header bytes become the header with the actual size whether or not the early return is taken; position and other bytes stay |
| `Writers.WriteMessage` | src/write_helper.hpp:25-44 | leaves exactly one frame with the encoded fields, whatever size was remembered before |
| `Writers.WriteRequest` | src/9p2000_writer.cpp:115-189 | leaves exactly the frame of the request, which is the manual's bytes for it |
| `Writers.WriteResponse` | src/9p2000_writer.cpp:27-111 | leaves exactly the frame of the response, which is the manual's bytes for it |
| `Writers.WriteTagged` | include/styxe/messageWriter.hpp:92-96 | the frame carries the explicit tag if and only if it is the writer's own tag or the remembered size is already right |
| `Writers.Perform` | src/messageWriter.cpp:24-42 | one step of a run keeps buffer, header and run in agreement |
| `Writers.PerformAll` | src/messageWriter.cpp:24-42 | after every legal run of begins, writes, updates and rewinds on one writer the header on the wire is the remembered one, the payload is what was emitted since the last begin, and earlier bytes are untouched |
| `Writers.UpdatedRunIsFrame` | src/messageWriter.cpp:24-42 | a run that ends with an update leaves a complete frame whose size field is position minus start |
| `Partials.PartialPathWriter.constructor` | include/styxe/messageWriter.hpp:210-216 | the message with an empty path is complete at once |
| `Partials.PartialPathWriter.Segment` | src/messageWriter.cpp:53-65 | appends one segment, patches the u16 count and the size; the message stays complete and no byte outside it changes |
| `Partials.PartialPathWriter.Data` | src/messageWriter.cpp:115-121 | appends the data field behind the path and completes the message |
| `PartialData.PartialStringWriter.constructor` | include/styxe/messageWriter.hpp:288-294 | the message with an empty string is complete at once |
| `PartialData.PartialStringWriter.String` | src/messageWriter.cpp:98-112 | appends a piece, patches the u16 length and the size; the message stays complete |
| `PartialData.PartialDataWriter.constructor` | include/styxe/messageWriter.hpp:162-168 | the message with empty data is complete at once |
| `PartialData.PartialDataWriter.UpdateSize` | src/messageWriter.cpp:75-86 | sets length and size and touches no data byte; the message is whole if and only if the new length fits the buffer |
| `PartialData.PartialDataWriter.Append` | src/messageWriter.cpp:89-95 | writes a chunk behind the data and takes it in; the message is whole if and only if the chunk fits |
| `Refinement.AddSegments` | src/messageWriter.cpp:53-65 | after each segment the bytes of the message are the frame with the segments so far |
| `Refinement.AddPieces` | src/messageWriter.cpp:98-112 | the same for pieces of a string |
| `Refinement.AddChunks` | src/messageWriter.cpp:89-95 | the same for chunks of data |
| `Refinement.PartialWalk` | src/9p2000_writer.cpp:198-205 | leaves the buffer and position of the one-shot walk, which is number 110 with fid, newfid and path, and after every segment the frame of the shorter walk |
| `Refinement.PartialWrite` | src/9p2000_writer.cpp:207-214 | the same for a write in chunks |
| `Refinement.PartialRead` | src/9p2000_writer.cpp:217-222 | the same for a read response in chunks |
| `Refinement.PartialError` | src/9p2000_writer.cpp:225-230 | the same for an error in pieces |
| `Refinement.PartialShortRead` | src/9p2000e.cpp:115-121 | the same for a short read |
| `Refinement.PartialShortWrite` | src/9p2000e.cpp:124-130 | leaves the buffer and position of the one-shot short write |
| `PartialLimits.SegmentCounterLimit` | include/styxe/messageWriter.hpp:233-235 | a path written in segments reads back whole if and only if there are at most 65535 |
| `PartialLimits.StringLengthLimit` | include/styxe/messageWriter.hpp:303-306 | a string written in pieces reads back whole if and only if it has at most 65535 bytes |
| `PartialLimits.WriteAround` | src/messageWriter.cpp:75-86 | a message written around data that is in the buffer already is a frame with the announced length and all those bytes, or none if the buffer has fewer |
| `PartialLimits.UpdateRead` | src/9p2000_writer.cpp:217-222 | the bytes written for a read response parse, in every version, to the response with the data in the buffer if the length fits the buffer, and fail at the data field otherwise |
| `PartialLimits.UpdateWrite` | src/9p2000_writer.cpp:207-214 | the same for a write request, which fails at its third field |
| `PartialLimits.TurnMeaning` | src/messageWriter.cpp:75-95 | a chunk extends the data; a length change is last-wins; shrinking and growing back restores the data |
| `PartialLimits.PerformAllData` | src/messageWriter.cpp:75-95 | under any interleaving of chunks and length changes within the buffer the message is whole, its position is the end of the data and its data is the tape's |
| `Paging.ServeIsWindow` | src/9p2000_writer.cpp:288-307 | offering a listing until the first refusal emits the window of offset and limit, and stays within the limit, if and only if nothing is behind the window or the window and the entry behind it are shorter than 2^32 bytes |
| `Paging.ServeOnIsWindow` | src/9p2000_writer.cpp:288-307 | offering every entry, refusals or not, emits exactly the window if and only if the offered bytes modulo 2^32 exceed the limit at every entry behind it |
| `Paging.ServeOnSame` | src/9p2000_writer.cpp:295-300 | from any state below the limit, while the counters do not wrap, offering on after a refusal emits nothing more, however small the entry |
| `Paging.VerdictRight` | src/9p2000_writer.cpp:297-300 | after any offers, refused or not, the verdict on a wanted entry is that of an unbounded count if and only if that count is below 2^32 or leaves a remainder above the limit |
| `Paging.CounterHoldsForSmallLimits` | src/9p2000_writer.cpp:297-300 | a limit that stays below 2^32 with any one entry added meets the condition of `ServeIsWindow` at every offset |
| `Paging.WindowIsMaximalRun` | src/9p2000_writer.cpp:288-307 | the window is the longest contiguous run within the limit from the first entry that ends after the offset |
| `Paging.MidEntryOffset` | src/9p2000_writer.cpp:291-294 | an offset inside an entry is answered like the offset of its start |
| `Paging.PagesAreEntries` | src/9p2000_writer.cpp:288-307 | for any counts, successive pages are whole entries in order, none lost, split or repeated |
| `Paging.PagingTiles` | src/9p2000_writer.cpp:264-307 | with counts that hold the largest entry, as many reads as entries return the whole listing and the next is empty |
| `Paging.PagingTilesIff` | src/9p2000_writer.cpp:288-307 | with one count, enough reads return the whole listing if and only if every entry fits it |
| `Paging.NoEarlyEmptyPage` | src/9p2000_writer.cpp:288-307 | no page is empty before the listing is exhausted |
| `DirListing.StatSizeIsEncodedSize` | src/9p2000_writer.cpp:234-259 | the size that is added up is the number of bytes that the encoder emits |
| `DirListing.StatExSizeIsEncodedSize` | include/styxe/9p2000u.hpp:144-151 | the same for the extended stat |
| `DirListing.DirListingWriter.constructor` | src/9p2000_writer.cpp:264-273 | the empty read response is complete at once |
| `DirListing.DirListingWriter.EncodeStat` | src/9p2000_writer.cpp:288-307 | skips, refuses or emits an entry by the two counters; the response stays complete |
| `DirListing.DirListingWriter.EmitStat` | src/9p2000_writer.cpp:276-285 | appends an entry and patches the data length and the message size |
| `DirListing.ServeRead` | include/styxe/9p2000.hpp:466-475 | the documented loop leaves the read response whose data is the window of the listing, whenever the counter reaches the entry behind it without wrapping; the count it reports is the size of the window, plus that of the refused entry if there is one |
| `Paging.CounterOfRun` | src/9p2000_writer.cpp:295-300 | the counter of such a run ends at that count |
| `Listings.StatListingSelfDescribing` | include/styxe/9p2000.hpp:485-488 | if every size field is `sizeStat`, jumping by size + 2 visits exactly the boundaries that decoding visits |
| `Listings.StatExListingSelfDescribing` | include/styxe/9p2000u.hpp:55-77 | the same for extended stats |
| `Listings.ReadStatsRoundTrip` | include/styxe/9p2000.hpp:618-632 | decoding the data of a listing gives back the stats |
| `Listings.PageHoldsStats` | src/9p2000_writer.cpp:288-307 | the data of a page decodes to a contiguous run of the listed stats, bounded as the window is |
| `DirEntries.EntrySize` | include/styxe/9p2000L.hpp:557-563 | an entry takes 24 bytes and its name |
| `DirEntries.EntryRoundTrip` | include/styxe/9p2000L.hpp:557-571 | an encoded entry decodes to itself and leaves the rest |
| `DirEntries.EntriesMaximal` | include/styxe/9p2000L.hpp:456-521 | on any bytes the entries found are encoded at the start and no further entry can be read after them |
| `DirEntries.EntriesOfTruncation` | include/styxe/9p2000L.hpp:463-494 | any truncation of an encoded list yields the longest prefix of entries that fits whole |
| `DirEntries.Iterator.constructor` | include/styxe/9p2000L.hpp:463-475 | a new iterator holds the entry at its offset, or is at the end |
| `DirEntries.Iterator.Read` | src/9p2000L.cpp:563-573 | reads one entry of at least 24 bytes or fails |
| `DirEntries.Iterator.Next` | include/styxe/9p2000L.hpp:486-494 | moves on by at least 24 bytes or to the end, and stays at the end |
| `DirEntries.Iterator.Equals` | include/styxe/9p2000L.hpp:508-515 | of two iterators over one buffer: the same if and only if they stand at the same entry, and then they yield the same; equal to an end iterator if and only if nothing is left |
| `DirEntries.Collect` | include/styxe/9p2000L.hpp:538-552 | the loop from begin to end terminates on every buffer and yields exactly its entries |
| `EndToEnd.ExchangeRequest` | src/write_helper.hpp:25-32 | a request written by the writer is received with its header and tag by the parser of every version that has it, with nothing unread |
| `EndToEnd.ExchangeResponse` | src/write_helper.hpp:36-44 | the same for responses |
| `EndToEnd.ReadPage` | src/9p2000_writer.cpp:264-307 | a page served on a reused writer and received by a parser of any version is the window |
| `EndToEnd.ListDirectory` | src/9p2000_writer.cpp:264-307 | reading until an empty page collects the whole listing, decodes to the listed stats and takes at most one read more than there are entries |
| `Examples.TagLost` | include/styxe/messageWriter.hpp:92-96 | a message begun with tag 2 on a writer with tag 1 goes out with tag 1 |
| `Examples.UpdateBeyondBuffer` | src/messageWriter.cpp:82 | a read response written into eleven bytes with one byte of data announced is refused by every version |
| `Examples.SegmentsForgotten` | src/messageWriter.cpp:59-60 | 65536 segments read back as none |
| `Examples.StringForgotten` | src/messageWriter.cpp:102-107 | 65536 bytes of a string read back as none |
| `Examples.LimitOverrun` | src/9p2000_writer.cpp:297-300 | a read of 65536 stats of 65536 bytes with the limit 2^32 - 1 emits more than the limit |
| `Examples.RefusalForgotten` | src/9p2000_writer.cpp:297-300 | with the limit 0 such a stat is refused 65535 times and accepted the next time |
| `Examples.ReaderStalls` | src/9p2000_writer.cpp:297-300 | with a count smaller than a stat every read of it comes back empty |
| `Examples.LiteralFrames` | docs/9p2000.txt:93-115 | Tclunk, Tremove and Twalk as literal bytes are received by every version |
| `Examples.LimitWrapped` | include/styxe/messageParser.hpp:186 | a payload limit of 2^32 - 7 refuses a whole frame of seven bytes |

## Left out

- ReadPath: paths whose segments run past the bytes are excluded, because how the span type of libsolace iterates over them is not part of this model.
- ReceiveRequest: for the same reason payloads with such a path are excluded.
- ReadQids: a walk response that announces more than sixteen qids and carries sixteen is excluded; the array it would overrun has room for sixteen.
- ReceiveResponse: walk responses of that kind are excluded.
- RequestTruncated: for a payload cut inside a path, behind its count, it only says that this is such a malformed path.
- UpdateMessageSize: the message must be shorter than 2^32 bytes and, if it is not empty, hold at least a header; the code narrows the size and would otherwise overwrite later bytes.
- WriteRequest: the buffer must have room for the frame; the encoder ignores failed writes, and what is then left is not modelled. The same holds for the other writers.
- UpdateSize: the end of the message must stay below 2^32, where the size field would be narrowed.
- Append: the new length must be below 2^32, where the argument of `update` would be narrowed.
- PerformAllData: the buffer must be smaller than 2^32 bytes, for the same reason.
- ServeIsWindow: the whole listing must stay below 2^64 bytes, where the traversal counter would wrap; so must those of `ServeOnIsWindow` and `VerdictRight`.
- ServeRead: has the same bound, and the counter must hold (`CounterHolds`): beyond that the response would pass 2^32 bytes, which its size field cannot say. `ReadPage` and `ListDirectory` ask the same of every read.
- ReadData: on a failure the destination already is a view clamped to the remaining bytes; the model gives none.
- PartialError: the joined string must be below 2^16 bytes (see `StringLengthLimit`).
- The streams of libsolace: `ByteWriter` and `ByteReader` are small classes with bounds-checked reads, writes and moves; the library itself is not part of this model.
- Lifetime and aliasing of the views that decoded strings and data are: they are values here.
- The parse tables are functions of the code; the filling of the 256 slots in order is not modelled.
- Version strings, message names and error texts: finite lookups.
- The `messageName` mappers and the lock, mode and attribute constants: no behaviour depends on them.
- Field names: a few 9P2000.L fields that share a name with a field of another type are renamed (`mode` is `bits`, `type` is `typ` or `fsType`).
- UTF-8 validity and the prohibition of NUL: not checked by the code.
- What a server does with fids, tags, locks and permissions: not part of the library.
