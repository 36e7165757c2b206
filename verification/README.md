# Verified model of the mssql-rs data paths

This project models, in Dafny, the parts of mssql-rs in which bytes, rows and numbers must arrive exactly as they
were sent, and proves that they do.

- **Binary rows (mssql-js).** `BinaryRowWriter` streams cells into a buffer and interns strings; `decodeRawResult`
  reads the buffer in JavaScript. `RowFormat` is the layout, `RowDecoder` the decoder (a recursive specification and
  the cursor loops proved equal to it), `RowRoundTrip` the round trip, `BinaryRowWriters` the writer class, and
  `ResultStreams` the two ways a query reads its result sets: whole (`query_raw`) and in chunks (`fetch_chunk`).
- **TLS handshake wrapper (mssql-mock-tds).** `TlsWrapper` models the poll-driven read and write machines over a socket
  that returns any number of bytes, is not ready, or fails, as it likes. The reference is `Unwrap`, a function of the
  whole wire stream.
- **Mock server.** `Packets` is the framing and the reference meaning of a byte stream (`MessagesOf`), `Walkers` the
  Login7 feature, FedAuth and ALL_HEADERS walkers, `SqlText` the text of a batch, and `ConnectionProcessors` the server
  object: framing loop, batch reassembly, delays interrupted by Attention, and the login state. `FramingCases` holds
  concrete client streams.
- **Token stream.** `TokenStream` is the layout of a query response and an independent token reader, `TokenRoundTrip`
  proves that the reader gives back what was laid out, `TokenBuilder` contains the builders, including the back-patched
  error length.
- **Trace files (mssql-odbc).** `TraceFiles` models the rotating trace writer over a file system whose operations may
  fail at any time and in which other processes create files.
- **Arithmetic and text (mssql-py-core, mssql-odbc-bench).** `DecimalRescale`, `DecimalText`, `Timestamps`,
  `UnicodeText` and `Preflight`.

Code that changes state in place is modelled by classes and loops; each method is proved against a specification
function or an invariant that names the whole history (bytes received, bytes delivered, events accepted). `ByteCodec`
holds the integer layouts that all of them share. What the environment decides (how many bytes a read returns, whether
a call is ready or fails, whether a delay is interrupted, which queries the registry knows) is left undetermined or is a
parameter, so the statements hold for every choice.

## What the proofs found

- *Short packet lengths.* A header that declares fewer than eight bytes is not refused. The framing loop panics exactly
  when it is a batch header, not withdrawn, met while a batch is pending (`PanicsOn`), and repeats for ever exactly when
  it is an unfinished batch header of length zero with nothing pending (`StuckOn`); `NextFrame` states both as
  equivalences. A message that gets past the framing panics in its handling exactly in the arms that look inside it
  (`LooksInside`): a login, a transaction request, an awaited token, a query of a logged-in client. A header of length
  zero is answered, and then answered again and again, exactly for a withdrawn batch, a batch that ends its message with
  nothing pending or a request before login, an Attention, and a token that is not awaited (`Repeats`, `ProcessPacket`).
  Otherwise an answered short message leaves a part of its header in the buffer, to be read as the next header. Without
  delays `DrainEnd` computes from the buffer alone whether a drain waits, stops, panics or never ends, and `Drain` is
  proved to end that way. `FramingCases` has a stream for each case. `WellFramed` describes the streams without such
  headers; those only wait or stop (`WellFramedEnds`), and the message theorem is for those.
- *Ignored messages.* A PreLogin or TabularResult message ends the drain of a read, although complete packets may be
  buffered behind it (`IgnoredHidesRest`). Without delays `Serve` answers exactly the messages that `Reached` counts
  from the reads; all of them exactly under the condition of `ReachedAllIff`. With delays, and no ignored message in the
  stream, it answers all of them unless the connection closes on a delayed answer; that drop is then the last entry.
- *Raw TLS with an empty caller buffer.* A poll panics exactly when its buffer has no room and a raw TLS byte ends the
  framing in it (`TakeType`, `PollReadBytes`); `EmptyBufferPanics` is an instance with byte 0x17.
- *NULL under a character column.* A plain NULL is written as one zero byte under every column. It reads back exactly
  under the integer columns; `ReadsBackIff` states this for every value and every column type.
- *Oversized handshake buffers.* The two-byte length wraps above 65527 bytes. `FrameReadsBackIff` gives the exact
  condition under which such a frame is still read back.
- *Column names.* The length byte counts characters although UTF-16 units are written; it is right exactly for names of
  fewer than 256 characters of the basic plane (`NameLengthIff`).
- *Feature id 0xFF.* It terminates the walk, so the ids are reported completely exactly when no entry uses it
  (`Login7ReportsIds`).
- *Half-unit overflow.* Lowering a decimal scale adds half a unit before dividing. That leaves the 128-bit type exactly
  within half a unit of its ends (`RescaleErrorsIff`), never for a decimal of at most 38 digits.
- *Just before 1900.* The timestamps refused although they round into range are exactly those of the last thirty
  seconds before 1900 (`ToSmallDateTime`).

## Model

| member | source | states |
|---|---|---|
| `BinaryRowWriters.BinaryRowWriter.constructor` | mssql-js/src/binary_row_writer.rs:67-76 | An empty writer satisfies the invariant: map and table are inverse, row data is the encoding of the rows written |
| `BinaryRowWriters.BinaryRowWriter.InternString` | mssql-js/src/binary_row_writer.rs:78-86 | Equal strings share one index, indices handed out earlier stay good, and everything already written still means the same |
| `BinaryRowWriters.BinaryRowWriter.InternColumnNames` | mssql-js/src/binary_row_writer.rs:89-94 | Index i resolves to column name i, repeated names included |
| `BinaryRowWriters.BinaryRowWriter.WriteCell` | mssql-js/src/binary_row_writer.rs:168-322 | Appends the tagged encoding of exactly this cell and keeps the map and table bijective |
| `BinaryRowWriters.BinaryRowWriter.EndRow` | mssql-js/src/binary_row_writer.rs:324-326 | Closes the open row, so the row count is the number of rows ended |
| `BinaryRowWriters.BinaryRowWriter.BuildStringData` | mssql-js/src/binary_row_writer.rs:119-127 | Entry i locates string i inside the concatenated string data |
| `BinaryRowWriters.BinaryRowWriter.Finalize` | mssql-js/src/binary_row_writer.rs:112-164 | Lays out any column indices; where those of the columns lie in the table and sizes fit, the decoder recovers columns, row count, rows affected and every cell, and stops exactly at the end of the rows |
| `RowDecoder.ReadDescriptors` | mssql-js/lib/decode.ts:108-115 | The cursor loop computes the specified descriptors, errors included |
| `RowDecoder.ReadEntries` | mssql-js/lib/decode.ts:118-140 | The entry loop computes the specified entries, errors included |
| `RowDecoder.ReadTable` | mssql-js/lib/decode.ts:118-160 | The string table and the position behind its data, with the data length found as the largest entry end |
| `RowDecoder.ReadColumns` | mssql-js/lib/decode.ts:162-172 | Column names resolved through the table |
| `RowDecoder.ReadCells` | mssql-js/lib/decode.ts:174-374 | One row of cells, whatever the tags, errors included |
| `RowDecoder.ReadRows` | mssql-js/lib/decode.ts:174-374 | The nested row loop equals the recursive specification |
| `RowDecoder.DecodeRawResult` | mssql-js/lib/decode.ts:80-377 | The whole cursor-driven decoder equals the specification `Decode` on every buffer |
| `RowRoundTrip.WordsValueOfWords` | mssql-js/src/binary_row_writer.rs:221-231 | The 32-bit words of a decimal magnitude add up to it |
| `RowRoundTrip.DecimalRoundTrip` | mssql-js/lib/decode.ts:240-257 | A decimal cell of up to 128 bits is read back with sign, magnitude and scale |
| `RowRoundTrip.CellRoundTrip` | mssql-js/lib/decode.ts:180-374 | Every cell kind, decoded from its encoding anywhere in a buffer, gives what the decoder keeps of it, and the cursor ends behind it |
| `RowRoundTrip.RowsRoundTrip` | mssql-js/lib/decode.ts:174-374 | The same for all rows in order |
| `RowRoundTrip.MaxEndIsDataLen` | mssql-js/lib/decode.ts:154-160 | The largest entry end equals the length of the string data, so the rows are found where they start |
| `RowRoundTrip.TableRoundTrip` | mssql-js/lib/decode.ts:118-160 | Every interned string resolves to itself through the decoded table |
| `RowRoundTrip.LayoutRoundTrip` | mssql-js/src/binary_row_writer.rs:112-164 | Decoding a laid-out result gives back header, columns and all cells and ends at the last byte, whenever sizes fit 32 bits |
| `ResultStreams.TdsClient.Advance` | mssql-tds/src/connection/tds_client.rs:6398-6430 | One statement forward; the row sets still to come are those of the remaining statements |
| `ResultStreams.TdsClient.AdvanceToRows` | mssql-tds/src/connection/tds_client.rs:6439-6447 | Stops at the next row set in order, or reports that none is left |
| `ResultStreams.TdsClient.NextRowInto` | mssql-tds/src/connection/tds_client.rs:7382-7400 | Each row goes into the writer exactly once, in order, then none |
| `ResultStreams.QueryRaw` | mssql-js/src/connection.rs:187-233 | One buffer for each row set, each decoding to exactly that set |
| `ResultStreams.FetchChunk` | mssql-js/src/connection.rs:241-280 | A chunk decodes to the next stretch of rows; it ends with the first row whose encoded size brings the stretch to the budget, or with the set, and says which |
| `ResultStreams.FetchMerged` | mssql-js/lib/request.ts:183-205 | Merging the chunks of one row set gives the set whole, for every budget including zero |
| `ResultStreams.ChunkTableFits` | mssql-js/src/connection.rs:241-280 | A set whose strings fit the format fits chunk by chunk too |
| `ResultStreams.MergeSlices` | mssql-js/lib/request.ts:191-196 | Appending rows and adding counts of adjacent chunks gives their union |
| `ResultStreams.CreateResultFast` | mssql-js/lib/request.ts:179-211 | All row sets in order, whatever the byte budget |
| `ResultStreams.QueryFast` | mssql-js/lib/request.ts:148-152 | The one-shot path returns all row sets in order |
| `ResultStreams.PathsAgree` | mssql-js/lib/request.ts:148-211 | The chunked and the one-shot path return the same results |
| `TlsWrapper.UnwrapPrefix` | mssql-mock-tds/src/tds_tls_wrapper.rs:125-307 | More wire bytes never change what was already delivered |
| `TlsWrapper.Refines` | mssql-mock-tds/src/tds_tls_wrapper.rs:125-307 | In every intact state, delivered plus buffered bytes are the unwrapping of the bytes consumed, and a prefix of that of the whole stream |
| `TlsWrapper.UnwrapFrames` | mssql-mock-tds/src/tds_tls_wrapper.rs:325-350 | Framed buffers of at most 65527 bytes unwrap to their concatenation, and the stream goes on behind them |
| `TlsWrapper.FrameReadsBackIff` | mssql-mock-tds/src/tds_tls_wrapper.rs:325-350 | Exactly which buffers survive framing when the length field wraps |
| `TlsWrapper.OversizedIsLost` | mssql-mock-tds/src/tds_tls_wrapper.rs:325-350 | A buffer of 65528 bytes that does not come back |
| `TlsWrapper.TdsTlsWrapper.constructor` | mssql-mock-tds/src/tds_tls_wrapper.rs:101-117 | A fresh wrapper satisfies the read and write invariants |
| `TlsWrapper.TdsTlsWrapper.Detect` | mssql-mock-tds/src/tds_tls_wrapper.rs:163-212 | A boundary byte starts a packet or switches to raw for good; panics only without room in the caller's buffer |
| `TlsWrapper.TdsTlsWrapper.TakeType` | mssql-mock-tds/src/tds_tls_wrapper.rs:178-207 | Exactly when the byte starts a packet, is delivered raw, or is lost to a panic because the caller's buffer has no room |
| `TlsWrapper.TdsTlsWrapper.EmptyBufferPanics` | mssql-mock-tds/src/tds_tls_wrapper.rs:178-190 | Byte 0x17 and a buffer without room: the poll panics and the byte is lost |
| `TlsWrapper.TdsTlsWrapper.FillHeader` | mssql-mock-tds/src/tds_tls_wrapper.rs:214-240 | The header is assembled from any fragments, with progress kept across polls |
| `TlsWrapper.TdsTlsWrapper.ReadHeader` | mssql-mock-tds/src/tds_tls_wrapper.rs:214-263 | Decides between error, empty packet and payload, keeping the position in the specification |
| `TlsWrapper.TdsTlsWrapper.ReadPayload` | mssql-mock-tds/src/tds_tls_wrapper.rs:265-304 | The payload grows by what was read; a pending read leaves no trace |
| `TlsWrapper.TdsTlsWrapper.ReadSettled` | mssql-mock-tds/src/tds_tls_wrapper.rs:134-161 | Raw and buffered phases deliver in order, at least a byte when there is room and one to deliver; a drained buffer leads to the next packet |
| `TlsWrapper.TdsTlsWrapper.PollReadBytes` | mssql-mock-tds/src/tds_tls_wrapper.rs:125-307 | For any fragmentation, readiness and buffer size: terminates, loses and invents no byte, what has been delivered is a prefix of the unwrapped stream, a poll with room delivers a byte unless the socket refused or the stream is over, an error of the wire itself comes only when its whole unwrapping is delivered, and exactly when it panics |
| `TlsWrapper.TdsTlsWrapper.PollAll` | mssql-mock-tds/src/tds_tls_wrapper.rs:125-307 | Polled to the end of the wire, the reader has delivered exactly its unwrapping; an inner error is reported exactly when the socket broke; each poll with room delivers a byte, was blocked or is the last; and polled with room more often than there are bytes to deliver and blocked polls, on a socket that does not break, it gets to the end |
| `TlsWrapper.TdsTlsWrapper.PollWriteBytes` | mssql-mock-tds/src/tds_tls_wrapper.rs:311-376 | The wire holds the accepted buffers, each framed once with ids counting up modulo 256, then the started part of the packet in progress, then raw output; in raw mode the accepted count is the part of the buffer written |
| `TlsWrapper.TdsTlsWrapper.StartPacket` | mssql-mock-tds/src/tds_tls_wrapper.rs:325-350 | Puts one framed buffer in progress without touching the wire |
| `TlsWrapper.TdsTlsWrapper.WritePacket` | mssql-mock-tds/src/tds_tls_wrapper.rs:352-374 | Partial writes continue the same packet until it is out, blocked or broken; it is accepted once |
| `TlsWrapper.TdsTlsWrapper.WrittenUnwraps` | mssql-mock-tds/src/tds_tls_wrapper.rs:311-376 | The wire of an intact writer unwraps to the accepted buffers in order, then the reading of the raw output |
| `TlsWrapper.TdsTlsWrapper.Loopback` | mssql-mock-tds/src/tds_tls_wrapper.rs:125-376 | A fresh reader over what a writer wrote, polled to the end, delivers the accepted buffers in order; polled with room more often than there are bytes and blocked polls, it gets to the end unless its socket breaks |
| `TlsWrapper.TdsTlsWrapper.Send` | mssql-mock-tds/src/tds_tls_wrapper.rs:311-376 | Every buffer is accepted once, in order, exactly when the socket does not break and is blocked at most as often as there is patience |
| `TlsWrapper.TdsTlsWrapper.Exchange` | mssql-mock-tds/src/tds_tls_wrapper.rs:125-376 | End to end: sent exactly when the sending socket did not break and was blocked at most as often as there is patience; then the other side delivers exactly what was sent, if it is polled often enough on a socket that does not break |
| `Packets.HeaderRoundTrip` | mssql-mock-tds/src/protocol.rs:114-156 | A written header parses back, whatever follows |
| `Packets.WrappedLength` | mssql-mock-tds/src/protocol.rs:1200-1213 | The declared length is the real one exactly below 65536 bytes |
| `Packets.StreamRoundTrip` | mssql-mock-tds/src/server.rs:402-462 | A stream of well-sized packets is split back into just those packets |
| `Packets.WellFramedPrefix` | mssql-mock-tds/src/server.rs:402-462 | A prefix of a well-framed stream is well framed |
| `Packets.BatchDivision` | mssql-mock-tds/src/server.rs:429-461 | Any division of a batch body into fragments and a last packet arrives as the single message one packet would carry |
| `Packets.DividedBatch` | mssql-mock-tds/src/server.rs:402-462 | The bytes of any division carry one message with the whole body |
| `SqlText.DividedBatchText` | mssql-mock-tds/src/protocol.rs:1376-1414 | However a batch is divided on the wire, the same SQL text is read |
| `Packets.NoResidue` | mssql-mock-tds/src/server.rs:429-461 | A withdrawn or interrupted partial batch leaves nothing in any later message |
| `Walkers.ParseLogin7` | mssql-mock-tds/src/protocol.rs:344-414 | The walk loop equals the recursive reading on every input |
| `Walkers.BuildFeatureExtAck` | mssql-mock-tds/src/protocol.rs:553-563 | Lays the entries out one after another with the terminator |
| `Walkers.WalkReadsBack` | mssql-mock-tds/src/protocol.rs:344-414 | Entries so laid out are walked back with ids and data, up to the first id 0xFF |
| `Walkers.BeforeTerminatorAll` | mssql-mock-tds/src/protocol.rs:344-414 | All entries are read exactly when no id is 0xFF; what is read is always a front part, in order |
| `Walkers.Login7ReportsIds` | mssql-mock-tds/src/protocol.rs:344-414 | The reported feature ids are the laid-out ids in order, all of them exactly when none is 0xFF |
| `Walkers.ParseTransactionDescriptorHeader` | mssql-mock-tds/src/protocol.rs:1431-1471 | Terminates, and returns exactly the first descriptor header of at least 18 bytes behind only well-formed headers, inside the block |
| `Walkers.ChainUnique` | mssql-mock-tds/src/protocol.rs:1431-1471 | At most one position can be that header, so the result is determined |
| `Walkers.FedAuthTokenIff` | mssql-mock-tds/src/protocol.rs:577-603 | A token is returned exactly for its own encoding |
| `SqlText.BatchTextRoundTrip` | mssql-mock-tds/src/protocol.rs:1376-1414 | Text laid out behind any ALL_HEADERS block is read back, trimmed |
| `ConnectionProcessors.LoggedInIff` | mssql-mock-tds/src/server.rs:466-611 | Logged in means a login was completed and no challenge was issued or failed since |
| `ConnectionProcessors.ChallengedIff` | mssql-mock-tds/src/server.rs:466-611 | Awaiting a token means a challenge was issued and not resolved since |
| `ConnectionProcessors.AnswersDetermined` | mssql-mock-tds/src/server.rs:466-870 | A conversation in which no delayed answer was lost is a function of the messages alone |
| `ConnectionProcessors.AnswersNeedLogin` | mssql-mock-tds/src/server.rs:579-705 | In any history a registry answer follows a completed login exchange, and an accepted FedAuth token an open challenge |
| `ConnectionProcessors.TookInStep` | mssql-mock-tds/src/server.rs:402-462 | Taking a packet off the buffer keeps buffer, pending batch and messages in step with the specification |
| `ConnectionProcessors.TakenMessages` | mssql-mock-tds/src/server.rs:402-462 | Messages taken are a prefix of those of every continuation of the stream, and all of them once no packet is complete |
| `ConnectionProcessors.ConnectionProcessor.constructor` | mssql-mock-tds/src/server.rs:154-192 | A fresh processor satisfies framing and login invariants |
| `ConnectionProcessors.ConnectionProcessor.Append` | mssql-mock-tds/src/server.rs:256-258 | Arriving bytes extend what was received and break nothing |
| `ConnectionProcessors.ConnectionProcessor.NextFrame` | mssql-mock-tds/src/server.rs:402-462 | The framing loop yields exactly the next message of the specification, never before its last byte; exactly when it panics, exactly when it does not end, and draining comes to the same end before and after it |
| `ConnectionProcessors.ConnectionProcessor.ShortFrame` | mssql-mock-tds/src/server.rs:425-461 | What a header of fewer than eight bytes does, case by case |
| `ConnectionProcessors.RepeatsLoop` | mssql-mock-tds/src/server.rs:402-462 | With a header of length zero at the front, draining never ends exactly when that packet is held as an empty batch or answered |
| `ConnectionProcessors.WellFramedEnds` | mssql-mock-tds/src/server.rs:402-870 | Without short headers draining only waits for more bytes or stops at an ignored message |
| `ConnectionProcessors.WellFramedIsSafe` | mssql-mock-tds/src/server.rs:402-462 | Streams without short headers never panic the loop or hold it up |
| `ConnectionProcessors.ConnectionProcessor.TryTakeAttention` | mssql-mock-tds/src/server.rs:881-898 | Takes an Attention packet exactly if one is complete at the front, and otherwise changes nothing |
| `ConnectionProcessors.ConnectionProcessor.WaitOutDelay` | mssql-mock-tds/src/server.rs:328-360 | Bytes arriving during a delay are kept, and only an Attention is taken |
| `ConnectionProcessors.ConnectionProcessor.HandleLogin` | mssql-mock-tds/src/server.rs:466-577 | The answer is the one the login earns (acknowledged, routed or challenged), or it was lost to an Attention or a close during the delay |
| `ConnectionProcessors.ConnectionProcessor.HandleToken` | mssql-mock-tds/src/server.rs:579-611 | A token is stored exactly while one is awaited and the body encodes one; the answer is the one the token earns |
| `ConnectionProcessors.ConnectionProcessor.HandleQuery` | mssql-mock-tds/src/server.rs:613-782 | Queries leave the login state alone, get the answer they earn (refused, malformed, registered or empty), and have their transaction descriptor recorded exactly when authenticated |
| `ConnectionProcessors.ConnectionProcessor.HandleTransaction` | mssql-mock-tds/src/server.rs:790-858 | Transaction requests are answered by their request type; only begin, commit and rollback can be delayed |
| `ConnectionProcessors.ConnectionProcessor.DispatchShort` | mssql-mock-tds/src/server.rs:464-870 | A message cut off inside its header panics exactly in the arms that look inside it, a login only after its delay; exactly which other ones are answered |
| `ConnectionProcessors.ConnectionProcessor.ProcessPacket` | mssql-mock-tds/src/server.rs:395-870 | One message and its answer; an answered message shrinks what is left unless its header declares no bytes, and then nothing moves; exactly which packets without bytes are answered; without delays draining comes to the same end before and after it |
| `ConnectionProcessors.ConnectionProcessor.Drain` | mssql-mock-tds/src/server.rs:1630-1634 | Processes up to the first unanswered message; without delays through exactly the first ignored one, and on every buffer, well framed or not, it waits, stops, panics or never ends exactly as `DrainEnd` says; with delays too it never ends exactly when it is left, neither stopped nor panicking, at an endless header |
| `ConnectionProcessors.ConnectionProcessor.Serve` | mssql-mock-tds/src/server.rs:1620-1640 | However the stream is cut into reads, the messages answered are a prefix of those of the whole stream; when none is of an ignored type all of them are answered, or the last entry is an answer dropped at the close; no entry but the last is ever dropped; without delays exactly those the reads let it reach, with the answers they earn |
| `ConnectionProcessors.ReachedAllIff` | mssql-mock-tds/src/server.rs:1630-1634 | Exactly when undelayed reads lead to all messages being answered |
| `ConnectionProcessors.ConnectionProcessor.SilentEnd` | mssql-mock-tds/src/server.rs:860-866 | A silent end means that the last answer was dropped or that the stream holds an ignored message |
| `FramingCases.IgnoredHidesRest` | mssql-mock-tds/src/server.rs:860-866 | A stream on which an ignored packet leaves a complete packet unanswered in one read, and none in two |
| `FramingCases.ShortBatchPanics` | mssql-mock-tds/src/server.rs:446-458 | A stream that panics the framing loop |
| `FramingCases.ZeroBatchLoops` | mssql-mock-tds/src/server.rs:446-454 | A stream on which the framing loop does not end |
| `FramingCases.ZeroAttentionRepeats` | mssql-mock-tds/src/server.rs:425-461 | A stream whose one packet is answered for ever |
| `FramingCases.ShortAttentionLeavesRest` | mssql-mock-tds/src/server.rs:425-461 | A short header that neither panics nor loops |
| `FramingCases.ShortLoginPanics` | mssql-mock-tds/src/server.rs:466-482 | A short login that gets past the framing and panics in its handling |
| `FramingCases.ShortRequestPanicsIff` | mssql-mock-tds/src/server.rs:698-709 | A short request that panics exactly when the client is logged in |
| `TokenRoundTrip.NameLengthIff` | mssql-mock-tds/src/protocol.rs:1075-1151 | Exactly the names whose length byte is right |
| `TokenRoundTrip.SupplementaryNameMiscounted` | mssql-mock-tds/src/protocol.rs:1116-1121 | A name whose length byte is wrong |
| `TokenRoundTrip.ReadChunksAt` | mssql-mock-tds/src/query_response.rs:120-142 | A partially length-prefixed value is its concatenation, however it is chunked |
| `TokenRoundTrip.ReadValueAt` | mssql-mock-tds/src/query_response.rs:94-147 | Every column value is read back under its column type |
| `TokenRoundTrip.ReadsBackIff` | mssql-mock-tds/src/query_response.rs:94-147 | A value that fits reads back under a column exactly when it is of a kind the column carries |
| `TokenRoundTrip.NullIff` | mssql-mock-tds/src/query_response.rs:94-147 | Reading the bytes of a cell gives NULL exactly when a null was written |
| `TokenRoundTrip.ReadTokensAt` | mssql-mock-tds/src/protocol.rs:1033-1151 | A token list that ends once is read back and reading stops exactly at its end |
| `TokenRoundTrip.SetsReadable` | mssql-mock-tds/src/protocol.rs:1033-1071 | In any chain of result sets only the last DONE lacks the more flag |
| `TokenRoundTrip.ResponseRoundTrip` | mssql-mock-tds/src/protocol.rs:1033-1151 | The reader recovers columns, notices, rows and errors of a whole response and stops at the last byte |
| `TokenBuilder.WriteToBuffer` | mssql-mock-tds/src/query_response.rs:94-147 | Appends the layout of the value, chunk loops included |
| `TokenBuilder.WriteColumns` | mssql-mock-tds/src/protocol.rs:1082-1122 | Appends the column metadata token |
| `TokenBuilder.BuildInfoToken` | mssql-mock-tds/src/protocol.rs:886-924 | The length computed in 16 bits is that of the body written, modulo 65536 |
| `TokenBuilder.BuildErrorTokens` | mssql-mock-tds/src/protocol.rs:930-1000 | The back-patched length covers exactly the error body, and a DONE with the given status follows |
| `TokenBuilder.AppendResultSet` | mssql-mock-tds/src/protocol.rs:1075-1151 | Columns, classification bytes, notices, rows, trailing notices and DONE in the order of the layout |
| `TokenBuilder.PlainResponseBytes` | mssql-mock-tds/src/protocol.rs:1033-1071 | Without classification bytes a response is the token layout the reader knows |
| `TokenBuilder.BuildQueryResults` | mssql-mock-tds/src/protocol.rs:1033-1071 | The packet holds the whole response, classification bytes included; where there are none, the token reader recovers every result set from it |
| `TraceFiles.RotatedPathInjective` | mssql-odbc/src/tracing_init.rs:553-599 | Different rollover numbers name different files |
| `TraceFiles.FilesAreEvents` | mssql-odbc/src/tracing_init.rs:147-277 | The base file and its rotated files, in creation order, are exactly the accepted events in order |
| `TraceFiles.SoundRolledOver` | mssql-odbc/src/tracing_init.rs:151-161 | A roll over starts an empty file and loses or moves no event |
| `TraceFiles.SoundAttemptFailed` | mssql-odbc/src/tracing_init.rs:162-174 | A failed reservation keeps the current file, and the next attempt costs a full limit again |
| `TraceFiles.SoundAccepted` | mssql-odbc/src/tracing_init.rs:115-119 | Accepted bytes extend the last event of the current file only, and the saturating counter follows |
| `TraceFiles.FilesShort` | mssql-odbc/src/tracing_init.rs:151-174 | Without failed reservations every file is shorter than the limit plus its last event, and with a limit of zero every event has a file to itself |
| `TraceFiles.SkippedNumbersHeld` | mssql-odbc/src/tracing_init.rs:553-599 | Rollover numbers strictly increase, and a number passed over is held by a file outside the trace |
| `TraceFiles.AttemptsPaidFor` | mssql-odbc/src/tracing_init.rs:151-174 | Every rotation attempt is paid for by at least a limit of recorded bytes |
| `TraceFiles.TraceFileWriter.constructor` | mssql-odbc/src/tracing_init.rs:126-139 | Starts sound on an empty base file |
| `TraceFiles.TraceFileWriter.CloseFile` | mssql-odbc/src/tracing_init.rs:147-149 | Drops the cached handle; the accounts are untouched |
| `TraceFiles.TraceFileWriter.Reserve` | mssql-odbc/src/tracing_init.rs:553-599 | Takes the first free number, passes over only numbers that files hold, and keeps the number on a failed creation; fails exactly when a creation failed or all the names it tries were taken |
| `TraceFiles.TraceFileWriter.RotateIfNeeded` | mssql-odbc/src/tracing_init.rs:151-174 | Nothing below the limit; otherwise a roll over, failed exactly when a creation failed or all the names tried were taken, with the counter reset |
| `TraceFiles.TraceFileWriter.MakeWriter` | mssql-odbc/src/tracing_init.rs:237-277 | Never opens a second handle, and any handle picked writes at the end of the current file |
| `TraceFiles.TraceFileWriter.RecordWritten` | mssql-odbc/src/tracing_init.rs:115-119 | Saturating count, in step with the journal |
| `TraceFiles.TraceFileWriter.WriteAll` | mssql-odbc/src/tracing_init.rs:188-207 | Partial writes continue; what is taken is a prefix of the event, and all of it exactly on success |
| `TraceFiles.TraceFileWriter.WriteEvent` | mssql-odbc/src/tracing_init.rs:188-277 | One event goes whole into one file, or up to a failure, or to the sink; it is lost or cut exactly when an opening or a write failed, never by a failed roll over |
| `TraceFiles.TraceFileWriter.Run` | mssql-odbc/src/tracing_init.rs:147-277 | Over any sequence of events, closes, environment changes, failures and foreign files: each emitted event is taken whole, up to a failure, or not at all; the files hold exactly what was taken, in order; exactly as many events are lost or cut as openings and writes failed; and unless a creation fails or foreign files hold a hundred numbers in a row, no roll over fails and every file stays below the limit plus its last event |
| `TraceFiles.Crowded` | mssql-odbc/src/tracing_init.rs:553-599 | When all the names a reservation tries are taken, files outside the trace hold that many numbers in a row |
| `TraceFiles.NothingSpoiled` | mssql-odbc/src/tracing_init.rs:188-277 | When no emitted event was lost or cut, what was taken is what was emitted |
| `DecimalRescale.RescaleErrorsIff` | mssql-py-core/src/arrow_bulkcopy.rs:632-655 | Exactly when each error or overflow happens |
| `DecimalRescale.LargestHasNoRoom` | mssql-py-core/src/arrow_bulkcopy.rs:643-653 | An input on which the half unit overflows |
| `DecimalRescale.DecimalsNeverOverflow` | mssql-py-core/src/arrow_bulkcopy.rs:632-655 | Lowering the scale of a decimal of at most 38 digits succeeds exactly when the scales are at most 38 apart |
| `DecimalRescale.RaisingIsExact` | mssql-py-core/src/arrow_bulkcopy.rs:634-642 | Raising the scale keeps the value |
| `DecimalRescale.LoweringIsNearest` | mssql-py-core/src/arrow_bulkcopy.rs:643-653 | Lowering gives the nearest value, ties away from zero |
| `DecimalRescale.NearestUnique` | mssql-py-core/src/arrow_bulkcopy.rs:643-653 | That value is unique |
| `DecimalRescale.RescaleOdd` | mssql-py-core/src/arrow_bulkcopy.rs:643-653 | Lowering commutes with negation |
| `DecimalRescale.RescaleMonotone` | mssql-py-core/src/arrow_bulkcopy.rs:632-655 | Rescaling keeps order |
| `DecimalRescale.RaiseThenLower` | mssql-py-core/src/arrow_bulkcopy.rs:632-655 | Raising is undone by lowering, unless the half unit overflows |
| `DecimalRescale.SplitUndone` | mssql-js/lib/decode.ts:350-359 | The decoder's recombination undoes the money split for every 64-bit value |
| `DecimalRescale.MoneyArrives` | mssql-py-core/src/arrow_bulkcopy.rs:527-550 | What a client reads of a money or smallmoney column is the decimal at four places, exactly or to the nearest |
| `DecimalRescale.MoneyAcceptedIff` | mssql-py-core/src/arrow_bulkcopy.rs:527-550 | A decimal of at most 38 digits is accepted exactly when its value at four places fits |
| `DecimalText.Decimal128ToString` | mssql-py-core/src/arrow_bulkcopy.rs:796-823 | The text reads back as exactly raw / 10^scale, with `scale` fraction digits and no redundant leading zero |
| `DecimalText.NatTextRoundTrip` | mssql-py-core/src/arrow_bulkcopy.rs:796-823 | Decimal digits read back as the number they print |
| `Timestamps.TicksAreFloor` | mssql-py-core/src/arrow_bulkcopy.rs:695-711 | Every time unit is read as the same instant rounded down to a tick, refused exactly on 64-bit overflow |
| `Timestamps.DateTime2Lossless` | mssql-py-core/src/arrow_bulkcopy.rs:713-731 | No tick is lost, and refusal is exactly outside years 1 to 9999 |
| `Timestamps.DateTime2Ordered` | mssql-py-core/src/arrow_bulkcopy.rs:713-731 | Order is kept both ways |
| `Timestamps.ComponentsSameInstant` | mssql-py-core/src/arrow_bulkcopy.rs:659-673 | The 1900-based components are the same instant truncated to microseconds, on a 24-hour clock |
| `Timestamps.DaysDiffer` | mssql-py-core/src/arrow_bulkcopy.rs:659-731 | Both splits count the same day, 693595 days apart |
| `Timestamps.ToSmallDateTime` | mssql-py-core/src/arrow_bulkcopy.rs:563-595 | The result is the floor of (ticks since 1900 + 30 s) / 60 s through all carries, refused exactly before 1900 or past the last day; refused although it rounds into range exactly in the last 30 s before 1900 |
| `UnicodeText.ToSqlString` | mssql-odbc-bench/src/odbc_bench.cpp:217-262 | Accepts exactly the well-formed strings of section 4 of RFC 3629, and section 2.2 of RFC 2781 decodes the output to the same scalars |
| `UnicodeText.StepIff` | mssql-odbc-bench/src/odbc_bench.cpp:222-257 | One step of the converter accepts exactly a grammar character and computes its scalar |
| `UnicodeText.AppendCodePoint` | mssql-odbc-bench/src/odbc_bench.cpp:206-214 | Appends the UTF-16 form of the scalar |
| `UnicodeText.Decode16RoundTrip` | mssql-odbc-bench/src/odbc_bench.cpp:206-214 | Every scalar sequence survives encoding and decoding |
| `UnicodeText.ScalarsDetermine` | mssql-odbc-bench/src/odbc_bench.cpp:217-262 | A well-formed string is determined by its scalars |
| `UnicodeText.ConversionInjective` | mssql-odbc-bench/src/odbc_bench.cpp:217-262 | Different well-formed strings have different conversions |
| `Preflight.ExpectedChecksum` | mssql-odbc-bench/src/odbc_bench.cpp:1544-1546 | The sum of the mixed ids 1..n modulo 2^64 |
| `Preflight.Pigeonhole` | mssql-odbc-bench/src/odbc_bench.cpp:1551-1581 | At most n distinct ids fit in 1..n; n of them are all of it, with the same checksum in every order |
| `Preflight.PermutationIff` | mssql-odbc-bench/src/odbc_bench.cpp:1551-1581 | Distinct, in range and complete is the same as a rearrangement of 1..n |
| `Preflight.BuildRepresentatives` | mssql-odbc-bench/src/odbc_bench.cpp:1529-1542 | Ascending, without repetition, and exactly the candidates that are rows of the table |
| `Preflight.LowerBound` | mssql-odbc-bench/src/odbc_bench.cpp:1592-1601 | The first position not below the key, holding it exactly when it is there |
| `Preflight.PreflightValidator.constructor` | mssql-odbc-bench/src/odbc_bench.cpp:1525-1547 | Nothing seen, nothing counted, the expected checksum in place |
| `Preflight.PreflightValidator.IsRepresentative` | mssql-odbc-bench/src/odbc_bench.cpp:1592-1601 | Marks the row among the chosen ones, and no other |
| `Preflight.PreflightValidator.AcceptRow` | mssql-odbc-bench/src/odbc_bench.cpp:1551-1581 | Refuses exactly ids out of range or seen before, then failed checks; counts everything else |
| `Preflight.PreflightValidator.AcceptRowset` | mssql-odbc-bench/src/odbc_bench.cpp:1584-1588 | Accepts to the end exactly when the ids are new rows, each once, and every check passes |
| `Preflight.PreflightValidator.FinishRun` | mssql-odbc-bench/src/odbc_bench.cpp:1604-1616 | Fails on the count alone: the checksum and, with intact rows, the representatives then follow; passing means a rearrangement of 1..n |
| `Preflight.PreflightValidator.Validate` | mssql-odbc-bench/src/odbc_bench.cpp:1525-1616 | A whole validation passes exactly for the rearrangements of 1..n whose checks pass |

## Left out

- Sockets, tasks, timers, certificates and the TLS protocol itself: readiness, partial transfers and delays are undetermined steps.
- Floating point and calendar conversion in decode.ts: the model stops at integer fields and bit patterns, and table strings are their bytes.
- `reshapeRawToIResult`: it only regroups decoded rows into objects keyed by column name.
- `narrow_int`, prelogin responses, routing tokens and the transaction manager's response layouts: range checks and fixed layouts that would only add easy members.
- `build_error_response`: its length field is written in the other byte order and is not part of the token layout.
- `datetime_to_ticks`, `DecimalParts`, `SqlString` decoding: not part of this model.
- `close_requested`: closing a connection after a particular answer would only cut the message sequence short.
- Concurrent writers of one trace: the source holds a lock for the whole event, so events are atomic steps here.
- TlsWrapper.TdsTlsWrapper.PollReadBytes: the prefix property is stated until a poll reports an error, because an inner error in the payload phase leaves filler bytes in the buffer.
- TlsWrapper.TdsTlsWrapper.PollWriteBytes: a ready inner write is taken to move at least one byte; an inner write of zero bytes would repeat for ever in the source.
- TlsWrapper.TdsTlsWrapper.Loopback: stated for packets that are out and buffers of at most 65527 bytes; a change of mode in mid-packet leaves a torn packet on the wire, which the write invariant shows as the part in flight.
- ConnectionProcessors.ConnectionProcessor.Serve: the message theorem is for well-framed streams; after a header of fewer than eight bytes the login invariant, the byte accounts and the end of each drain are promised. With delays, how far it gets past ignored messages depends on what arrives meanwhile, so only the sufficient condition is stated.
- ConnectionProcessors.ConnectionProcessor.HandleQuery: the registry is a predicate of the text; what the answer contains is modelled by the token stream, not by the processor.
- TraceFiles.TraceFileWriter.Run: that files stay short is stated for runs in which the rollover counter does not reach its 32-bit end, where it stays on one name.
- TokenBuilder.BuildInfoToken: the 16-bit sum wraps, as it does without overflow checks; with them the source panics where the sum of the truncated parts exceeds 65535.
- TokenBuilder.WriteToBuffer: chunks of partially length-prefixed values are nonempty and their length fits 32 bits, as the source asserts.
- TokenBuilder.BuildQueryResults: classification bytes are laid out but not read back, because their layout is not part of this model.
- Walkers.ParseLogin7: server name, database, user agent, data classification version and session recovery are not reported by the model.
- Preflight.PreflightValidator.AcceptRow: the outcomes of the indicator and value checks come with the row; what those checks compare is not modelled.
- ResultStreams.TdsClient.Advance: an abstract cursor over statements; tokens, errors and cancellation of the client are not part of this model.
- ResultStreams.TdsClient.NextRowInto: an abstract cursor over rows; decoding, decryption and the pull cursor are not part of this model.
- ResultStreams.PathsAgree: stated for result sets that fit the format's 16-bit column and 32-bit size fields.
- DecimalRescale.RescaleOdd: stated where neither side overflows; the two ends of the 128-bit type are not symmetric.
