# Verified models of BoringSSL's handshake transports and nanopb's codec

The libraries vendored under `ChaDas5/Pods` contain protocol code whose correctness rests on
invariants that no single function shows. This Dafny project models five parts of it and proves
what they are for.

**DTLS handshake transport** (`Reassembly`, `ReplayWindow`, `DtlsWire`, `DtlsReceiver`, `DtlsRing`,
`DtlsRecordWriter`, `DtlsSender`, `DtlsTimer`, `DtlsEndToEnd`, `DtlsConnection`). A sender cuts a flight
of handshake messages into fragments that fit the MTU, retries and retransmits; a receiver reassembles them in a
ring of seven slots with byte-packed bitmaps, behind a 64-wide replay window. `DtlsReceiver` is the
receiver on values, `DtlsRing` the array of reassembly objects that refines it, `DtlsEndToEnd` the runs
of the receiver over an unreliable network, and `DtlsConnection` the sender's own part in them.

**TLS write path and handshake stream** (`SslBuffer`, `TlsWriter`, `HandshakeStream`). Two queues
drain into a transport that takes part of a write or fails; nothing is lost or repeated across retries.

**TLS 1.0 to 1.2 handshakes** (`Handshake`, `ClientHandshake`, `ServerHandshake`, `HandshakeScript`,
`ClientCourse`, `ServerCourse`, `HandshakeLink`, `ClientOnScript`, `ServerOnScript`, `Lockstep`).
The two state machines, their safety and their transcripts against an arbitrary peer, and their
joint run: a common script of twenty slots says which side sends what, and both machines are shown
to follow it in every interleaving. Every do_* step ensures `Sound` (the rank falls unless the step
blocks or fails, and the tally stays the one its state and rank call for) and `Moves` (a step that
blocks changes nothing); its row below says what that comes to in its state and, after its name,
what `StepOrderly` adds for it.

**nanopb** (`PbFields`, `PbWire`, `PbMessage`, `PbScalars`, `PbTransparency`, `PbRoundTrip`,
`PbStreams`, `PbDecoder`, `PbEncoder`, `PbConformance`, `PbBounds`, `PbMemory`). `PbMessage` says
what bytes stand for a message; `PbEncoder` and `PbDecoder` are the loops over streams, tied to it;
`PbConformance` and `PbBounds` are about bytes from other writers and for other readers, and
`PbMemory` about the memory behind the defaults.

**Small extras** (`Refcount`, `CipherChoice`, `ConstantTime`).

`dafny verify dfyconfig.toml` checks everything.

## Where the code and its surroundings differ

- A fragment seven ahead of handshake_read_seq passes the range check whose comment says that such
  fragments are ignored, and is then a fatal error (`DtlsReceiver.SevenAheadIsFatal`).
- The 16-bit offset of SSLBuffer wraps when offset and capacity exceed 2^16
  (`SslBuffer.ConsumesExactlyIffAddressable`).
- The 32-bit varint decoder accepts 64-bit values that are neither small nor sign-extended, and longer
  encodings with bits it does not look at (`PbWire.Varint32Exact` and the two lemmas after it).
- The check for zero of a proto3 submessage reads the first word of a fixed-count array as if it were a
  count (`PbRoundTrip.RoundTripExact`).
- An initial DTLS timeout of 2^31 ms or slightly more wraps to a short one at the first doubling
  (`DtlsTimer.IntervalDoublesExactly`).
- A field with tag 0 and a wire type other than 0 is skipped, except in an empty message, where it
  matches the terminator and fails (`PbMessage.DecTurn`).

## Model

| member | source | states |
|---|---|---|
| ReplayWindow.ToU64Be | ChaDas5/Pods/BoringSSL/ssl/dtls_record.cc:128-134 | the loop yields the big-endian value of the eight octets |
| ReplayWindow.Bitmap.ShouldDiscard | ChaDas5/Pods/BoringSSL/ssl/dtls_record.cc:140-150 | against the unbounded set of recorded numbers: refused exactly when the number was recorded or lies 64 or more behind the greatest |
| ReplayWindow.Bitmap.Record | ChaDas5/Pods/BoringSSL/ssl/dtls_record.cc:155-175 | after recording, the 64-bit map still represents the unbounded set, now with the new number |
| ReplayWindow.RecordReader.OpenRecord | ChaDas5/Pods/BoringSSL/ssl/dtls_record.cc:225-259 | a record is accepted exactly when its epoch is current, it authenticates, and its number is not refused; only an accepted one is recorded |
| ReplayWindow.RecordReader.NextEpoch | ChaDas5/Pods/BoringSSL/ssl/dtls_method.cc:89-91 | a new epoch starts with an empty window |
| ReplayWindow.WindowRefinesReference | ChaDas5/Pods/BoringSSL/ssl/dtls_record.cc:140-175 | over every sequence of records, the window accepts exactly what an unbounded seen-set with a 64-wide horizon accepts |
| ReplayWindow.AcceptedAtMostOnce | ChaDas5/Pods/BoringSSL/ssl/dtls_record.cc:140-175 | no sequence number is accepted twice in an epoch, whatever arrives (section 4.1.2.6 of RFC 6347) |
| ReplayWindow.FreshInWindowIsAccepted | ChaDas5/Pods/BoringSSL/ssl/dtls_record.cc:140-150 | no fresh number inside the window is refused |
| Reassembly.BitRangeFormula | ChaDas5/Pods/BoringSSL/ssl/d1_both.cc:201-205 | the shift expression of bit_range is the byte with exactly the bits from start up to end set |
| Reassembly.HmFragment.constructor | ChaDas5/Pods/BoringSSL/ssl/d1_both.cc:152-199 | a fresh fragment has nothing received, and needs no bitmap exactly when its body is empty |
| Reassembly.HmFragment.Mark | ChaDas5/Pods/BoringSSL/ssl/d1_both.cc:211-251 | the received positions grow by exactly the range marked, no bit past the length is set, and the bitmap is dropped exactly when all positions are received |
| Reassembly.HmFragment.CompleteIffAllReceived | ChaDas5/Pods/BoringSSL/ssl/d1_both.cc:232-250 | the bitmap is gone if and only if every position of the body has been received |
| Reassembly.AllSetMeansEveryPosition | ChaDas5/Pods/BoringSSL/ssl/d1_both.cc:232-245 | the byte-wise completeness test, with its special last byte, holds exactly when every position is marked |
| Reassembly.MarkAll | ChaDas5/Pods/BoringSSL/ssl/d1_both.cc:211-251 | after any sequence of valid ranges, overlapping or repeated, reassembly is complete exactly when their union is the whole body |
| DtlsWire.ParseSerialize | ChaDas5/Pods/BoringSSL/ssl/d1_both.cc:459-473 | parsing a fragment header and body gives back what was serialized |
| DtlsWire.HeaderLayout | ChaDas5/Pods/BoringSSL/ssl/d1_both.cc:459-473 | the octets of a header in which every field is told apart, as section 4.2.2 of RFC 6347 lays it out |
| DtlsReceiver.TakeFragmentWellformed | ChaDas5/Pods/BoringSSL/ssl/d1_both.cc:265-295 | taking any fragment keeps the ring invariant: slot i holds a message whose number is i modulo 7 and lies in the window of seven from handshake_read_seq |
| DtlsReceiver.NextMessageWellformed | ChaDas5/Pods/BoringSSL/ssl/d1_both.cc:426-438 | so does moving on to the next message, also when handshake_read_seq wraps from 65535 to 0, where the ring must be empty |
| DtlsReceiver.OpenChangeCipherSpecWellformed | ChaDas5/Pods/BoringSSL/ssl/d1_both.cc:475-491 | so does taking up a ChangeCipherSpec, be it one seen before or the record at hand |
| DtlsReceiver.SetReadStateWellformed | ChaDas5/Pods/BoringSSL/ssl/dtls_method.cc:81-95 | so does a new read epoch, which is refused while unprocessed handshake data is left |
| DtlsReceiver.SevenAheadIsFatal | ChaDas5/Pods/BoringSSL/ssl/d1_both.cc:265-271 | a fragment exactly seven ahead is a fatal error, although the code before it lets it through to be ignored |
| DtlsReceiver.SurvivesExactly | ChaDas5/Pods/BoringSSL/ssl/d1_both.cc:253-295 | any fragment, honest or not, is survived exactly if it fits its message, may come now and agrees with what its message announced before; otherwise the alert is the one for the reason |
| DtlsReceiver.KeepsTheRest | ChaDas5/Pods/BoringSSL/ssl/d1_both.cc:253-402 | what it leaves in the ring, octet by octet: in the window, its octets merged into its message, and nothing else anywhere |
| DtlsReceiver.HandedUpIsProcessed | ChaDas5/Pods/BoringSSL/ssl/d1_both.cc:404-457 | a message that is handed up stays in its slot but no longer counts as unprocessed; any other slot and a ChangeCipherSpec do |
| DtlsReceiver.ChangesExactly | ChaDas5/Pods/BoringSSL/ssl/dtls_method.cc:81-95 | the read cipher changes exactly when nothing is unprocessed, to the next epoch |
| DtlsReceiver.MalformedIsFatal | ChaDas5/Pods/BoringSSL/ssl/d1_both.cc:340-352 | a record that does not end with a fragment is an error, after its fragments have been taken in |
| DtlsRing.Receiver.NewSlot | ChaDas5/Pods/BoringSSL/ssl/d1_both.cc:265-295 | the slot of the sequence number is filled with a new partial message of the announced type and length |
| DtlsRing.Receiver.MergeSlot | ChaDas5/Pods/BoringSSL/ssl/d1_both.cc:383-402 | the fragment is copied in and marked in the slot that holds its message |
| DtlsRing.Receiver.TakeFragment | ChaDas5/Pods/BoringSSL/ssl/d1_both.cc:362-402 | the array of seven reassembly objects does what the abstract receiver does with one fragment |
| DtlsRing.Receiver.OpenHandshake | ChaDas5/Pods/BoringSSL/ssl/d1_both.cc:297-406 | the same for a whole record, and for an early epoch-1 record or a stray ChangeCipherSpec; after a fatal error the state is the one in which the failing fragment was met |
| DtlsRing.Receiver.OpenChangeCipherSpec | ChaDas5/Pods/BoringSSL/ssl/d1_both.cc:475-491 | a ChangeCipherSpec seen before is taken up without reading a record; otherwise the record at hand must be one, and other records before it are handled as handshake records |
| DtlsRing.Receiver.GetMessage | ChaDas5/Pods/BoringSSL/ssl/d1_both.cc:408-424 | a message is handed up exactly when the current slot is complete |
| DtlsRing.Receiver.NextMessage | ChaDas5/Pods/BoringSSL/ssl/d1_both.cc:426-438 | the slot is released and the 16-bit read number advances |
| DtlsRing.Receiver.HasUnprocessedHandshakeData | ChaDas5/Pods/BoringSSL/ssl/d1_both.cc:440-457 | true exactly when a ChangeCipherSpec or a buffered message other than the current one is pending |
| DtlsRing.Receiver.SetReadState | ChaDas5/Pods/BoringSSL/ssl/dtls_method.cc:81-95 | the read epoch changes only without unprocessed data |
| DtlsRecordWriter.RecordWriter.SetWriteState | ChaDas5/Pods/BoringSSL/ssl/dtls_method.cc:97-107 | the previous cipher and sequence are kept for retransmission; number freshness is kept |
| DtlsRecordWriter.RecordWriter.SealRecord | ChaDas5/Pods/BoringSSL/ssl/dtls_record.cc:294-351 | a sealed record takes an (epoch, 48-bit sequence) pair that no earlier one has, in the current or the previous epoch, until a counter wraps |
| DtlsSender.ChainProgress | ChaDas5/Pods/BoringSSL/ssl/d1_both.cc:782-827 | pieces lead from one position of the flight to a later one, never back: the measure of the sending loop |
| DtlsSender.FlightPartitionsMessages | ChaDas5/Pods/BoringSSL/ssl/d1_both.cc:644-827 | the fragments in the records of a completed flight, put together per message, are exactly its body, contiguous and without overlap, with one empty fragment for an empty body |
| DtlsSender.FlightIsFullySent | ChaDas5/Pods/BoringSSL/ssl/d1_both.cc:644-737 | every octet of every message of a completed flight lies in some fragment that was sent, under the sequence number of its message |
| DtlsSender.SentMessageIsDelivered | ChaDas5/Pods/BoringSSL/ssl/d1_both.cc:297-424 | once the receiver has all fragments sent for the message it waits for, in any order, with repeats and, outside the first encrypted epoch, with fragments of earlier and later messages among them, it hands up that very message |
| DtlsSender.CcsIsTaken | ChaDas5/Pods/BoringSSL/ssl/d1_both.cc:661-678 | the record of a queued ChangeCipherSpec is one that the receiver takes for it, under the epoch in which it was queued |
| DtlsSender.Sender.AddOutgoing | ChaDas5/Pods/BoringSSL/ssl/d1_both.cc:555-602 | the message or ChangeCipherSpec joins the flight with the present write epoch; a completed flight is cleared first |
| DtlsSender.Sender.SealNextMessage | ChaDas5/Pods/BoringSSL/ssl/d1_both.cc:644-737 | the record is exactly the fragment of the message from the present offset, as long as the room allows, or the ChangeCipherSpec, sealed under the epoch in which the message was queued; the position moves on by exactly what was cut, and not at all on failure; there is no progress exactly when the room is below the minimum, and an error only for a message of another epoch or from the cipher |
| DtlsSender.Sender.SealNextPacket | ChaDas5/Pods/BoringSSL/ssl/d1_both.cc:739-780 | the records fit the room with their sealed lengths added up, and carry the flight from the old position to the new one; nothing more would have fitted, unless a fragment filled the room; and it fails only for the cipher, a message of another epoch, or too little room |
| DtlsSender.Sender.UpdateMtu | ChaDas5/Pods/BoringSSL/ssl/d1_both.cc:615-633 | an MTU that suffices is kept, as is any when querying is switched off; otherwise it becomes what the transport reports if that lies between the minimum and 2^30, and the default if not |
| DtlsSender.Sender.SendFlight | ChaDas5/Pods/BoringSSL/ssl/d1_both.cc:782-827 | the transport gets exactly the records of the accepted packets, each packet fits the MTU, and they lead from the old position to the new one; a refused packet starts at the new position, so it is what the next call sends first; the result is 1 exactly when the flight is at its end and flushed; and the loop ends; when cipher and transport do their part it succeeds, unless a counter wraps |
| DtlsSender.Sender.FlushFlight | ChaDas5/Pods/BoringSSL/ssl/d1_both.cc:829-834 | the same, with the flight closed for more messages; written from its start to its end, every message of it is fully sent |
| DtlsSender.Sender.NoteReply | ChaDas5/Pods/BoringSSL/ssl/d1_both.cc:433-437 | a message after a completed flight counts as its reply |
| DtlsSender.Sender.OnHandshakeComplete | ChaDas5/Pods/BoringSSL/ssl/dtls_method.cc:71-79 | the last flight is kept for retransmission exactly when it had no reply |
| DtlsSender.Sender.Retransmit | ChaDas5/Pods/BoringSSL/ssl/d1_both.cc:836-845 | a retransmission starts from the first message again, and when it succeeds the records given to the transport hold fragments that cover every message and, put together, are its body |
| DtlsEndToEnd.DeliveredIsPrefixOfSent | ChaDas5/Pods/BoringSSL/ssl/d1_both.cc:297-438 | over every run of a network that loses, repeats, delays and reorders but does not forge, with any fragment sizes, retransmissions, ChangeCipherSpecs and epoch changes, the messages handed up are a prefix of those sent, each assembled within one read epoch (section 4.2.3 of RFC 6347) |
| DtlsEndToEnd.EpochAdvances | ChaDas5/Pods/BoringSSL/ssl/dtls_method.cc:81-95 | once a ChangeCipherSpec is taken up, the change of the read cipher succeeds if and only if no handshake message is left over; then the epoch is the next one and the connection lives on |
| DtlsEndToEnd.EncryptedEpochIsReached | ChaDas5/Pods/BoringSSL/ssl/d1_both.cc:475-491 | a run that sends, receives and takes up a ChangeCipherSpec and is in the encrypted epoch afterwards |
| DtlsEndToEnd.EpochCountsChanges | ChaDas5/Pods/BoringSSL/ssl/dtls_method.cc:81-95 | over every run the read epoch counts the changes of the read cipher in 16 bits, and records are read in the clear exactly until the first |
| DtlsEndToEnd.FateOfRecord | ChaDas5/Pods/BoringSSL/ssl/d1_both.cc:297-360 | over every run, what a record that arrives in its epoch does, by its type: application data is dropped, with nothing changed, once the read cipher has changed, and fatal before; a well-formed ChangeCipherSpec is flagged before, and fatal after; handshake data is survived exactly if every fragment is to be expected; anything else is fatal |
| DtlsEndToEnd.AwaitIsReceive | ChaDas5/Pods/BoringSSL/ssl/d1_both.cc:475-491 | waiting for a ChangeCipherSpec is receiving a record and consuming the flag it leaves; a flag left before is consumed without a record |
| DtlsEndToEnd.ExpectedFragmentIsTaken | ChaDas5/Pods/BoringSSL/ssl/d1_both.cc:362-402 | an honest fragment of any message but the seventh after the next, or in the first encrypted epoch one of the next message, never fails the connection; it is kept if it lies in the window and ignored if not |
| DtlsEndToEnd.OthersAreFatal | ChaDas5/Pods/BoringSSL/ssl/d1_both.cc:362-402 | and these are exactly the honest fragments that do not fail it |
| DtlsEndToEnd.CoveredMessageIsDelivered | ChaDas5/Pods/BoringSSL/ssl/d1_both.cc:297-424 | once fragments that cover the current message have arrived, in any order and with repeats and in any epoch, exactly that message is handed up |
| DtlsEndToEnd.HonestRecordsExtend | ChaDas5/Pods/BoringSSL/ssl/d1_both.cc:555-598 | what was sent stays a piece of the history however many messages follow |
| DtlsConnection.Serve | ChaDas5/Pods/BoringSSL/ssl/d1_both.cc:555-845 | whatever the handshake asks of the sender, the records its flights and retransmissions give to the transport are honest, so that a run of the network can take them; which messages it takes, when a flight is full, flushed, replied to and dropped, does not depend on the transport; and when that takes everything, a flight is sent to its end, and a retransmission holds every message in full |
| DtlsConnection.Converse | ChaDas5/Pods/BoringSSL/ssl/d1_both.cc:297-845 | a sender that carries out any orders, and so takes the messages that the ledger of its orders says, against a network that loses, repeats, delays and reorders: the messages handed up at the other end are a prefix of those the sender took, each assembled within one epoch, and the network carried exactly the records of its packets |
| DtlsTimer.IntervalDoublesExactly | ChaDas5/Pods/BoringSSL/ssl/d1_lib.cc:155-160 | the interval doubles up to a minute for every number of timeouts if and only if the initial one is below 2^31 ms or so large that the wrapped double still exceeds a minute |
| DtlsTimer.Timer.GetTimeout | ChaDas5/Pods/BoringSSL/ssl/d1_lib.cc:197-245 | the time left is exact in microseconds, and zero when it is less than 15 ms |
| DtlsTimer.Timer.HandleTimeout | ChaDas5/Pods/BoringSSL/ssl/d1_lib.cc:247-267 | nothing happens before expiry; the thirteenth timeout in a row gives up and leaves the timer alone; otherwise it is restarted with the next interval |
| SslBuffer.Buffer.EnsureCap | ChaDas5/Pods/BoringSSL/ssl/ssl_buffer.cc:47-81 | the contents survive growing, with the data aligned behind the header; failure changes nothing; a capacity that 16 bits can address in any alignment stays addressable |
| SslBuffer.Buffer.Consume | ChaDas5/Pods/BoringSSL/ssl/ssl_buffer.cc:90-97 | drops exactly the first octets while the 16-bit offset does not wrap, in particular from a buffer that is addressable to its end |
| SslBuffer.Buffer.DiscardConsumed | ChaDas5/Pods/BoringSSL/ssl/ssl_buffer.cc:99-103 | an empty buffer is freed, and no octet is lost |
| SslBuffer.ConsumesExactlyIffAddressable | ChaDas5/Pods/BoringSSL/ssl/ssl_buffer.cc:47-97 | consuming is exact for every content and length if and only if offset and capacity together do not exceed 2^16 |
| TlsWriter.Writer.AddRecordToFlight | ChaDas5/Pods/BoringSSL/ssl/s3_both.cc:135-165 | the pending flight grows by exactly the ciphertext of the record; earlier ciphertexts stay, and octets accepted, buffered and pending together stay all ciphertexts in order |
| TlsWriter.Writer.AddMessage | ChaDas5/Pods/BoringSSL/ssl/s3_both.cc:184-205 | a message is sealed as the records of its chunks, one even for an empty message, and the pending flight grows by exactly their ciphertexts |
| TlsWriter.Writer.WriteBufferFlush | ChaDas5/Pods/BoringSSL/ssl/ssl_buffer.cc:239-252 | whatever short writes the transport makes, what it accepted is what left the buffer; success means that every record written through the buffer is with the transport |
| TlsWriter.Writer.FlushFlight | ChaDas5/Pods/BoringSSL/ssl/s3_both.cc:231-279 | the write buffer drains before the pending flight; when a flight was pending, success means that the transport has every ciphertext, and failure loses and repeats none; with none pending it succeeds at once and leaves the write buffer alone |
| TlsWriter.Writer.WritePending | ChaDas5/Pods/BoringSSL/ssl/s3_pkt.cc:202-219 | success means that the buffer is drained and that the retry had the same type, enough data and, unless moving buffers are accepted, the same buffer; it ends the pending write with the result due |
| TlsWriter.Writer.MoveFlight | ChaDas5/Pods/BoringSSL/ssl/s3_pkt.cc:238-262 | moving the unwritten flight into the write buffer keeps the order of all ciphertexts; what does not fit a 16-bit capacity is refused and stays pending |
| TlsWriter.Writer.SealPending | ChaDas5/Pods/BoringSSL/ssl/s3_pkt.cc:238-286 | one record is sealed behind the pending flight and the arguments are remembered, or nothing is sealed |
| TlsWriter.Writer.DoWrite | ChaDas5/Pods/BoringSSL/ssl/s3_pkt.cc:221-289 | at most one record is sealed, exactly when no write was pending; a positive result means that the transport has its ciphertext and all before it; a pending flight too large for the buffer is refused with nothing changed |
| TlsWriter.Writer.WriteAppData | ChaDas5/Pods/BoringSSL/ssl/s3_pkt.cc:129-200 | on success the application records sealed since the first attempt are exactly those of everything, cut into records of the maximum size, or with partial writes of the first such record, which is then what the result counts; the transport has all of it; on failure the call can be repeated; and it succeeds when cipher and transport do their part |
| TlsWriter.WriteWithRetries | ChaDas5/Pods/BoringSSL/ssl/s3_pkt.cc:129-289 | the same over any number of failed attempts with flushes and alerts in between |
| TlsWriter.PiecesAreTheData | ChaDas5/Pods/BoringSSL/ssl/s3_pkt.cc:165-200 | those records carry the data exactly; each is full, or the last, and none is empty |
| TlsWriter.BetweenAttempts | ChaDas5/Pods/BoringSSL/ssl/s3_pkt.cc:405-423 | a flush or an alert between attempts keeps what the retry relies on and reorders nothing |
| HandshakeStream.PrefixParses | ChaDas5/Pods/BoringSSL/ssl/s3_both.cc:399-425 | a message at the front of the buffer parses whatever follows it, and before it is complete the buffer says how much it takes |
| HandshakeStream.HeaderLayout | ChaDas5/Pods/BoringSSL/ssl/s3_both.cc:399-425 | the octets of a message header, as section 7.4 of RFC 5246 lays it out |
| HandshakeStream.Reader.GetMessage | ChaDas5/Pods/BoringSSL/ssl/s3_both.cc:427-439 | hands up the first message if it is complete |
| HandshakeStream.Reader.AppendRecord | ChaDas5/Pods/BoringSSL/ssl/s3_both.cc:553-560 | the record body joins the buffer |
| HandshakeStream.Reader.NextMessage | ChaDas5/Pods/BoringSSL/ssl/s3_both.cc:562-583 | drops exactly the first message |
| HandshakeStream.ChunksPartition | ChaDas5/Pods/BoringSSL/ssl/s3_both.cc:184-205 | the chunks of a message are non-empty up to the last, no longer than the maximum, and join up to the message |
| HandshakeStream.StreamIndependentOfCuts | ChaDas5/Pods/BoringSSL/ssl/s3_both.cc:184-205 | for any message list and fragment size, and draining at arbitrary moments, the messages handed up are a prefix of those sent, and all of them in the end (section 6.2.1 of RFC 5246) |
| ClientHandshake.StepSound | ChaDas5/Pods/BoringSSL/ssl/handshake_client.cc:1707-1789 | every step of the client that lets the loop go on lowers a rank that depends on resumption, none raises it, every step keeps the tally of Finished messages, cipher changes and certificate checks, and a step that lowers nothing changes nothing |
| ClientHandshake.StepOrderly | ChaDas5/Pods/BoringSSL/ssl/handshake_client.cc:385-1705 | in every state, whatever the peer has sent, a step takes at most the first message and only one of the kind its state awaits, adds to the flight only what its state sends, and goes only where its state leads |
| ClientHandshake.ResumptionStepsBack | ChaDas5/Pods/BoringSSL/ssl/handshake_client.cc:1658-1672 | a concrete run, from the start, in which a resumption steps back in the numbering of the states |
| ClientHandshake.StepsBackExactly | ChaDas5/Pods/BoringSSL/ssl/handshake_client.cc:1658-1672 | a step goes back in the numbering of the states if and only if it has verified the server's Finished of a resumed session |
| ClientHandshake.DoneMeansAuthenticated | ChaDas5/Pods/BoringSSL/ssl/handshake_client.cc:871-889 | whatever the peer sends, a client that is done counts exactly one Finished of each side, changed each cipher once, the read cipher after a ChangeCipherSpec, and accepted the certificate of a full certificate handshake; ClientCourse.DoneMeansCourse says what those Finished messages cover |
| ClientHandshake.KeysFollowChangeCipherSpec | ChaDas5/Pods/BoringSSL/ssl/handshake_client.cc:1649-1672 | at every moment, read keys follow a ChangeCipherSpec and a verified Finished follows the keys |
| ClientHandshake.Machine.Handshake | ChaDas5/Pods/BoringSSL/ssl/handshake_client.cc:1707-1789 | the loop ends, and is a run of the steps |
| ClientHandshake.Machine.Resolve | ChaDas5/Pods/BoringSSL/ssl/handshake.cc:491-605 | a wait is resolved exactly when there was none, the flight could be written, or an awaited record arrived and was taken; one record is consumed exactly when one was awaited and there; an early return is reported exactly when the machine asked for it |
| ClientHandshake.Machine.RunHandshake | ChaDas5/Pods/BoringSSL/ssl/handshake.cc:491-626 | the driver loop ends on any finite input, is a run of the machine, reports completion only when the machine is done, and otherwise returns only after an error, for lack of input or of a callback, early under False Start, or because the transport does not take a flight |
| ClientHandshake.DoStartConnect | ChaDas5/Pods/BoringSSL/ssl/handshake_client.cc:385-452 | the tally is still zero afterwards, and the rank falls unless the step fails; StepOrderly: it sends nothing but the first ClientHello |
| ClientHandshake.DoEnterEarlyData | ChaDas5/Pods/BoringSSL/ssl/handshake_client.cc:454-489 | the tally stays zero and the rank falls; StepOrderly: it takes and sends nothing and leads to the HelloVerifyRequest or the ServerHello |
| ClientHandshake.DoReadHelloVerifyRequest | ChaDas5/Pods/BoringSSL/ssl/handshake_client.cc:491-533 | it waits only with an empty buffer, and then changes nothing; StepOrderly: it takes nothing but a HelloVerifyRequest and sends nothing but a ClientHello with the cookie |
| ClientHandshake.DoReadServerHello | ChaDas5/Pods/BoringSSL/ssl/handshake_client.cc:535-759 | whichever way it goes, the rank of the branch is lower and its tally still zero; StepOrderly: it takes nothing but a ServerHello and leads to TLS 1.3, the certificate or the ticket |
| ClientHandshake.DoReadServerCertificate | ChaDas5/Pods/BoringSSL/ssl/handshake_client.cc:771-819 | it waits only with an empty buffer, and then changes nothing; StepOrderly: it takes nothing but a certificate that is not empty |
| ClientHandshake.DoReadCertificateStatus | ChaDas5/Pods/BoringSSL/ssl/handshake_client.cc:821-869 | it waits only with an empty buffer, and otherwise the rank falls or the step fails; StepOrderly: it takes nothing but a CertificateStatus |
| ClientHandshake.DoVerifyServerCertificate | ChaDas5/Pods/BoringSSL/ssl/handshake_client.cc:871-889 | with a certificate cipher suite the client gets past it only with the certificate accepted in the tally; a callback that is not ready changes nothing |
| ClientHandshake.DoReadServerKeyExchange | ChaDas5/Pods/BoringSSL/ssl/handshake_client.cc:891-1071 | past it an accepted certificate stays accepted, and waiting changes nothing; StepOrderly: it takes nothing but a ServerKeyExchange |
| ClientHandshake.DoReadCertificateRequest | ChaDas5/Pods/BoringSSL/ssl/handshake_client.cc:1073-1143 | it waits only with an empty buffer, with no cipher changed yet; StepOrderly: it takes nothing but a CertificateRequest |
| ClientHandshake.DoReadServerHelloDone | ChaDas5/Pods/BoringSSL/ssl/handshake_client.cc:1145-1167 | it waits only with an empty buffer, and the rank falls when it goes on; StepOrderly: it takes nothing but the ServerHelloDone and leads to the certificate |
| ClientHandshake.DoSendClientCertificate | ChaDas5/Pods/BoringSSL/ssl/handshake_client.cc:1169-1215 | a callback that is not ready changes nothing, and no cipher has changed yet; StepOrderly: it sends nothing but a Certificate |
| ClientHandshake.DoSendClientKeyExchange | ChaDas5/Pods/BoringSSL/ssl/handshake_client.cc:1220-1371 | only in a full handshake, before any cipher change or Finished; StepOrderly: it sends nothing but the ClientKeyExchange |
| ClientHandshake.DoSendClientCertificateVerify | ChaDas5/Pods/BoringSSL/ssl/handshake_client.cc:1373-1455 | only in a full handshake, before any cipher change, and a key operation that is not ready changes nothing; StepOrderly: it sends nothing but a CertificateVerify |
| ClientHandshake.DoSendClientFinished | ChaDas5/Pods/BoringSSL/ssl/handshake_client.cc:1457-1510 | past it exactly one ChangeCipherSpec and one Finished have been sent and the write epoch is 1; before it none, and 0 |
| ClientHandshake.DoFinishFlight | ChaDas5/Pods/BoringSSL/ssl/handshake_client.cc:1538-1564 | the rank falls on every branch, so an early return happens once; StepOrderly: it leads to the ticket or to the end, with nothing taken or sent |
| ClientHandshake.DoReadSessionTicket | ChaDas5/Pods/BoringSSL/ssl/handshake_client.cc:1566-1647 | waiting for a ticket changes nothing, and the read cipher is still the old one when the wait for the ChangeCipherSpec begins; StepOrderly: it takes nothing but a ticket |
| ClientHandshake.DoProcessChangeCipherSpec | ChaDas5/Pods/BoringSSL/ssl/handshake_client.cc:1649-1656 | past it the read epoch is 1 and exactly one ChangeCipherSpec was received; the wait for it is over before this step |
| ClientHandshake.DoReadServerFinished | ChaDas5/Pods/BoringSSL/ssl/handshake_client.cc:1658-1672 | past it exactly one server Finished has been counted, with read epoch 1, and the rank falls also where a resumption goes back in the numbering; ClientCourse.OnReadServerFinished: it is one over the transcript before it |
| ClientHandshake.DoFinishClientHandshake | ChaDas5/Pods/BoringSSL/ssl/handshake_client.cc:1674-1705 | ends in Done, with the whole tally as DoneMeansAuthenticated states it |
| ServerHandshake.StepSound | ChaDas5/Pods/BoringSSL/ssl/handshake_server.cc:1539-1621 | the same for the server |
| ServerHandshake.StepOrderly | ChaDas5/Pods/BoringSSL/ssl/handshake_server.cc:426-1537 | the same for the server |
| ServerHandshake.DoneMeansVerified | ChaDas5/Pods/BoringSSL/ssl/handshake_server.cc:1439-1509 | whatever the peer sends, a server that is done counts exactly one Finished of each side and changed each cipher once, the read cipher after a ChangeCipherSpec; ServerCourse.DoneMeansCourse says what those Finished messages cover |
| ServerHandshake.ClientCertificateIsProven | ChaDas5/Pods/BoringSSL/ssl/handshake_server.cc:1042-1363 | past the CertificateVerify state a client certificate has been accepted and its signature checked; ServerCourse.ClientCertificateIsProven says over which transcript |
| ServerHandshake.Machine.Handshake | ChaDas5/Pods/BoringSSL/ssl/handshake_server.cc:1539-1621 | the loop ends, and is a run of the steps |
| ServerHandshake.Machine.Resolve | ChaDas5/Pods/BoringSSL/ssl/handshake.cc:491-605 | the same for the server |
| ServerHandshake.Machine.RunHandshake | ChaDas5/Pods/BoringSSL/ssl/handshake.cc:491-626 | the driver loop over the server machine, which returns for the same reasons |
| ServerHandshake.DoStartAccept | ChaDas5/Pods/BoringSSL/ssl/handshake_server.cc:426-430 | goes on to the ClientHello; the tally is zero and the rank falls |
| ServerHandshake.DoReadClientHello | ChaDas5/Pods/BoringSSL/ssl/handshake_server.cc:432-510 | waiting, for the message or for a callback, changes nothing, and the tally is still zero; StepOrderly: it takes nothing out of the buffer |
| ServerHandshake.DoSelectCertificate | ChaDas5/Pods/BoringSSL/ssl/handshake_server.cc:512-560 | a callback that is not ready changes nothing, and otherwise the rank falls or the step fails; StepOrderly: it leads to TLS 1.3 or on to the parameters, with nothing taken or sent |
| ServerHandshake.DoSelectParameters | ChaDas5/Pods/BoringSSL/ssl/handshake_server.cc:572-684 | whether it resumes or not, the rank falls and the tally is still zero, and a pending session changes nothing; StepOrderly: it takes nothing but the ClientHello |
| ServerHandshake.DoSendServerHello | ChaDas5/Pods/BoringSSL/ssl/handshake_server.cc:686-752 | on either branch the rank falls and nothing of the tally has happened; StepOrderly: it sends nothing but the ServerHello and leads to the certificate or to Finished |
| ServerHandshake.DoSendServerCertificate | ChaDas5/Pods/BoringSSL/ssl/handshake_server.cc:754-840 | no cipher has changed and no client certificate is present yet; StepOrderly: it sends nothing but the certificate and its status |
| ServerHandshake.DoSendServerKeyExchange | ChaDas5/Pods/BoringSSL/ssl/handshake_server.cc:842-912 | a key operation that is not ready changes nothing, and otherwise the rank falls or the step fails; StepOrderly: it sends nothing but a ServerKeyExchange |
| ServerHandshake.DoSendServerHelloDone | ChaDas5/Pods/BoringSSL/ssl/handshake_server.cc:914-947 | the rank falls before the flush is waited for; StepOrderly: it sends nothing but a CertificateRequest and the ServerHelloDone |
| ServerHandshake.DoReadClientCertificate | ChaDas5/Pods/BoringSSL/ssl/handshake_server.cc:949-1040 | only past it can a client certificate be present, and only in a full handshake; StepOrderly: it takes nothing but a Certificate |
| ServerHandshake.DoVerifyClientCertificate | ChaDas5/Pods/BoringSSL/ssl/handshake_server.cc:1042-1056 | a client certificate that is present is accepted in the tally past it; a callback that is not ready changes nothing |
| ServerHandshake.DoReadClientKeyExchange | ChaDas5/Pods/BoringSSL/ssl/handshake_server.cc:1058-1267 | waiting, for the message or for the decryption, changes nothing, and a certificate that is present is accepted; StepOrderly: it takes nothing but the ClientKeyExchange |
| ServerHandshake.DoReadClientCertificateVerify | ChaDas5/Pods/BoringSSL/ssl/handshake_server.cc:1269-1363 | with a client certificate present, the signature check is in the tally past it |
| ServerHandshake.DoReadChangeCipherSpec | ChaDas5/Pods/BoringSSL/ssl/handshake_server.cc:1365-1368 | the rank falls with the read cipher still the old one, whatever it then waits for; StepOrderly: it takes and sends nothing and leads to the change |
| ServerHandshake.DoProcessChangeCipherSpec | ChaDas5/Pods/BoringSSL/ssl/handshake_server.cc:1370-1377 | past it the read epoch is 1 and exactly one ChangeCipherSpec was received; the wait for it is over before this step |
| ServerHandshake.DoReadNextProto | ChaDas5/Pods/BoringSSL/ssl/handshake_server.cc:1379-1413 | the read epoch is 1 and no Finished is verified yet, and waiting changes nothing; StepOrderly: it takes nothing but NextProto |
| ServerHandshake.DoReadChannelId | ChaDas5/Pods/BoringSSL/ssl/handshake_server.cc:1415-1437 | the read epoch is 1 and no Finished is verified yet, and waiting changes nothing; StepOrderly: it takes nothing but a Channel ID |
| ServerHandshake.DoReadClientFinished | ChaDas5/Pods/BoringSSL/ssl/handshake_server.cc:1439-1461 | past it exactly one client Finished has been counted, with read epoch 1; ServerCourse.OnReadClientFinished: it is one over the transcript before it |
| ServerHandshake.DoSendServerFinished | ChaDas5/Pods/BoringSSL/ssl/handshake_server.cc:1463-1509 | past it exactly one ChangeCipherSpec and one Finished have been sent and the write epoch is 1, whichever side came first |
| ServerHandshake.DoFinishServerHandshake | ChaDas5/Pods/BoringSSL/ssl/handshake_server.cc:1511-1537 | ends in Done, with the whole tally as DoneMeansVerified states it |
| ClientCourse.RunOnCourse | ChaDas5/Pods/BoringSSL/ssl/handshake_client.cc:385-1705 | over every run against an arbitrary peer, the transcript is at every moment, as far as the state has got, that of a handshake that section 7.3 of RFC 5246 allows: every message in its place, the mandatory ones present, none that the cipher suite or the ServerHello rules out, and each Finished and CertificateVerify over exactly the messages before it |
| ClientCourse.DoneMeansCourse | ChaDas5/Pods/BoringSSL/ssl/handshake.cc:380-476 | a client that is done has received a Finished over exactly the transcript before it, and sent its own and, where one was due, its CertificateVerify over exactly the transcript before them |
| ClientCourse.OnReadServerFinished | ChaDas5/Pods/BoringSSL/ssl/handshake_client.cc:1658-1672 | the server's Finished joins the transcript only as a MAC over all of it |
| ClientCourse.FailureIsFinal | ChaDas5/Pods/BoringSSL/ssl/handshake_client.cc:385-1705 | in every state, an oracle that says no (parsing, verification, key derivation, sending) leaves transcript, flight and tally as they were, and is an error wherever the step needs it |
| ClientCourse.ErrorsExactly | ChaDas5/Pods/BoringSSL/ssl/handshake_client.cc:385-1705 | with oracles that say yes, a step is an error exactly for a message out of place, one that the cipher suite rules out, a wrong MAC, or data left over when the read keys change |
| ClientCourse.AcceptedByOracle | ChaDas5/Pods/BoringSSL/ssl/handshake_client.cc:871-889 | the server's certificate is accepted in no other state and by no other verdict |
| ClientCourse.Returns | ChaDas5/Pods/BoringSSL/ssl/handshake_client.cc:871-1564 | each callback that is not ready is waited for exactly in its own state, and an early return happens exactly under False Start in a full handshake |
| ClientCourse.HandsOver | ChaDas5/Pods/BoringSSL/ssl/handshake_client.cc:535-759 | a handshake becomes one of TLS 1.3 exactly by such a ServerHello, which is left unread |
| ServerCourse.RunOnCourse | ChaDas5/Pods/BoringSSL/ssl/handshake_server.cc:426-1537 | the same for the server: the transcript is the one that its configuration and the ClientHello call for |
| ServerCourse.DoneMeansCourse | ChaDas5/Pods/BoringSSL/ssl/handshake.cc:380-476 | a server that is done has received a Finished, and for a client certificate a CertificateVerify, over exactly the transcript before it, and sent its own Finished over exactly the transcript before that; a certificate it insists on was there |
| ServerCourse.ClientCertificateIsProven | ChaDas5/Pods/BoringSSL/ssl/handshake_server.cc:1269-1363 | in every run, once the CertificateVerify state is past, a client certificate is proved by a signature over exactly the transcript up to there |
| ServerCourse.OnReadClientFinished | ChaDas5/Pods/BoringSSL/ssl/handshake_server.cc:1439-1461 | the client's Finished joins the transcript only as a MAC over all of it |
| ServerCourse.FailureIsFinal | ChaDas5/Pods/BoringSSL/ssl/handshake_server.cc:426-1537 | as for the client |
| ServerCourse.ErrorsExactly | ChaDas5/Pods/BoringSSL/ssl/handshake_server.cc:540-1567 | the same for the server, which also insists on certificates as configured |
| ServerCourse.AcceptedByOracle | ChaDas5/Pods/BoringSSL/ssl/handshake_server.cc:1042-1363 | a client certificate is accepted in no other state and by no other verdict, and its signature counts only over the present transcript |
| ServerCourse.Returns | ChaDas5/Pods/BoringSSL/ssl/handshake_server.cc:432-1267 | each callback that is not ready is waited for exactly in its own state |
| ServerCourse.HandsOver | ChaDas5/Pods/BoringSSL/ssl/handshake_server.cc:512-560 | a handshake becomes one of TLS 1.3 exactly by the choice of version, with the ClientHello unread |
| Handshake.Deliver | ChaDas5/Pods/BoringSSL/ssl/handshake.cc:507-540 | a read succeeds exactly for a ChangeCipherSpec that is awaited, or for handshake data under the read keys when none is; what it adds to the buffer is the messages of the record, and a failed read changes nothing |
| ClientOnScript.StepOnScript | ChaDas5/Pods/BoringSSL/ssl/handshake_client.cc:385-1705 | every client step, fed the next slot of the common script, neither fails nor leaves it: it writes its own slots, takes at most the peer's next one, and its transcript is the script's |
| ClientOnScript.OnReadServerHello | ChaDas5/Pods/BoringSSL/ssl/handshake_client.cc:535-759 | the ServerHello settles the parameters and the branch between resumption and full handshake |
| ClientOnScript.OnReadServerKeyExchange | ChaDas5/Pods/BoringSSL/ssl/handshake_client.cc:891-1071 | a ServerKeyExchange that is not due is skipped without losing a message |
| ClientOnScript.OnSendClientFinished | ChaDas5/Pods/BoringSSL/ssl/handshake_client.cc:1457-1510 | ChangeCipherSpec, NextProto, Channel ID and Finished leave in this order |
| ClientOnScript.OnReadSessionTicket | ChaDas5/Pods/BoringSSL/ssl/handshake_client.cc:1566-1647 | the ticket is awaited exactly when it was announced |
| ServerOnScript.StepOnScript | ChaDas5/Pods/BoringSSL/ssl/handshake_server.cc:426-1537 | the same for every server step |
| ServerOnScript.OnSelectParameters | ChaDas5/Pods/BoringSSL/ssl/handshake_server.cc:572-684 | the parameters are those of the negotiation |
| ServerOnScript.OnSendServerHello | ChaDas5/Pods/BoringSSL/ssl/handshake_server.cc:686-752 | Channel ID and stapling are announced exactly when they will be used |
| ServerOnScript.OnSendServerFinished | ChaDas5/Pods/BoringSSL/ssl/handshake_server.cc:1463-1509 | ticket, ChangeCipherSpec and Finished leave in this order, before or after the client's Finished |
| HandshakeLink.LinkWrites | ChaDas5/Pods/BoringSSL/ssl/s3_both.cc:184-229 | what is written joins exactly the slots between the two positions |
| HandshakeLink.LinkReads | ChaDas5/Pods/BoringSSL/ssl/s3_both.cc:562-583 | what is consumed leaves exactly the slots between the two positions |
| HandshakeLink.SomethingIsOnTheWay | ChaDas5/Pods/BoringSSL/ssl/handshake.cc:491-626 | two sides never wait for each other with nothing on the way |
| Lockstep.ActInv | ChaDas5/Pods/BoringSSL/ssl/handshake.cc:491-626 | every act of either side in any interleaving keeps both on the script |
| Lockstep.NeverFails | ChaDas5/Pods/BoringSSL/ssl/handshake.cc:491-626 | a client and a server with agreed TLS 1.0 to 1.2 parameters never reach ssl_hs_error, in any interleaving over ordered channels (section 7.3 of RFC 5246) |
| Lockstep.NeverStuck | ChaDas5/Pods/BoringSSL/ssl/handshake.cc:491-626 | some side can always act until both are done |
| Lockstep.DoneMeansAgreed | ChaDas5/Pods/BoringSSL/ssl/handshake.cc:380-476 | both done means that each verified the other's Finished, over one transcript, with the same negotiated parameters |
| Lockstep.BothGetDone | ChaDas5/Pods/BoringSSL/ssl/handshake.cc:491-626 | no run has more than 226 acts besides callback retries, and one that cannot go on has both done |
| PbWire.VarintRoundTrip | ChaDas5/Pods/nanopb/pb_encode.c:574-594 | every 64-bit value takes at most the 10 bytes of the buffer and decodes back with exact consumption |
| PbWire.ZigzagInverts | ChaDas5/Pods/nanopb/pb_encode.c:596-605 | zigzag inverts in both directions on all 64-bit words, the least one included |
| PbWire.FixedRoundTrip | ChaDas5/Pods/nanopb/pb_encode.c:607-633 | fixed-size integers come back |
| PbWire.Varint32Exact | ChaDas5/Pods/nanopb/pb_decode.c:182-242 | what the 32-bit decoder makes of the canonical encoding of any 64-bit value: exact below 2^32, the low half exactly for the values that slip through the sign check, an error otherwise |
| PbWire.SignExtendedIsAccepted | ChaDas5/Pods/nanopb/pb_decode.c:212-226 | every negative 32-bit integer, sent sign-extended, is accepted as its low 32 bits |
| PbWire.OtherValuesSlipThrough | ChaDas5/Pods/nanopb/pb_decode.c:217-226 | a concrete 64-bit value that is no sign extension is accepted too |
| PbWire.ContinuedFifthByteIsUnchecked | ChaDas5/Pods/nanopb/pb_decode.c:210-237 | a concrete encoding of 2^35 - 1 that is longer than needed is taken for 2^32 - 1, while the canonical one is refused |
| PbWire.Varint64Any | ChaDas5/Pods/nanopb/pb_decode.c:250-270 | canonical or not, any varint of up to ten bytes is its value modulo 2^64, and a longer one is refused |
| PbFields.FieldIter.Next | ChaDas5/Pods/nanopb/pb_common.c:20-76 | position, data address and required index advance together and stay the prefix sums of the descriptors |
| PbFields.FieldIter.Find | ChaDas5/Pods/nanopb/pb_common.c:78-95 | finds the first match going round from where the iterator is, or comes back to where it was |
| PbFields.FindIsIndependentOfStart | ChaDas5/Pods/nanopb/pb_common.c:78-95 | with distinct tags the result does not depend on the start |
| PbFields.CellShared | ChaDas5/Pods/nanopb/pb_common.c:43-49 | only members of one union share storage |
| PbScalars.ScalarRoundTrip | ChaDas5/Pods/nanopb/pb_decode.c:1289-1389 | every scalar value of every size, signed and unsigned, and every byte string and NUL-terminated string that fits comes back, whatever follows it |
| PbScalars.PackedRoundTrip | ChaDas5/Pods/nanopb/pb_decode.c:414-442 | a packed array comes back item by item |
| PbRoundTrip.DecodeOfEncode | ChaDas5/Pods/nanopb/pb_decode.c:901-1063 | for every well-formed descriptor tree and every message that fits it, pb_decode of what pb_encode wrote succeeds, to the last byte, and yields the message with each submessage that was left out for being zero replaced by its default, which below a union member is all zeros |
| PbRoundTrip.RoundTripExact | ChaDas5/Pods/nanopb/pb_encode.c:307-390 | that is the message itself, whatever was in memory before, if and only if every fixed-count array in a submessage that is left out for being zero holds what setting defaults leaves: what clearing its first word makes sure of or, below a union member, zeros |
| PbRoundTrip.RoundTrip | ChaDas5/Pods/nanopb/pb_encode.c:494-516 | without fixed-count arrays in submessages that have no has flag, the round trip is exact |
| PbRoundTrip.HiddenFixedArrayIsLost | ChaDas5/Pods/nanopb/pb_encode.c:225-229 | a concrete message that is lost, because the check for zero takes the first element of a fixed-count array for a count |
| PbRoundTrip.ClearedArrayComesBack | ChaDas5/Pods/nanopb/pb_decode.c:838-845 | a fixed-count array of a single 4-byte zero does come back, because the word that is cleared is all of it |
| PbRoundTrip.UnionMemberIsZeroed | ChaDas5/Pods/nanopb/pb_decode.c:461-470 | below a union member the array of two integers does come back when it is zero, and zeros come back in place of any other second element |
| PbRoundTrip.EncodingIsInjective | ChaDas5/Pods/nanopb/pb_encode.c:494-516 | equal encodings stand for equal messages |
| PbRoundTrip.ZeroIsDefault | ChaDas5/Pods/nanopb/pb_decode.c:812-879 | a value that counts as zero is the default exactly when the fixed-count arrays in it hold what setting defaults leaves, in memory that was zeroed and in memory that was not |
| PbRoundTrip.FieldsEncode | ChaDas5/Pods/nanopb/pb_encode.c:494-516 | whatever fits its structure is encoded without error |
| PbMemory.ClearedExactly | ChaDas5/Pods/nanopb/pb_decode.c:812-900 | what setting defaults leaves in a fixed-count array, of which it clears the first word: the model takes the items for settled exactly when all memory that begins with these zeros reads alike, and then for what it reads as; for scalars, strings, flags, counters, unions and submessages at every depth |
| PbConformance.PackedOrNot | ChaDas5/Pods/nanopb/pb_decode.c:414-459 | an array of integers decodes alike whether its items come packed, each under its own key, or in any mixture of both: appended in the order of the wire, after those already there |
| PbConformance.OverflowIsRefused | ChaDas5/Pods/nanopb/pb_decode.c:436-456 | one item more than there is room for is an error in either form |
| PbConformance.OthersAreSkipped | ChaDas5/Pods/nanopb/pb_encode.c:636-675 | what is written for any field is skipped to its last byte by every reader that does not know its tag |
| PbConformance.SkipsExactly | ChaDas5/Pods/nanopb/pb_decode.c:316-326 | what is skipped for each wire type, for any bytes |
| PbConformance.WireTypeNumbers | ChaDas5/Pods/nanopb/pb_encode.c:636-675 | the wire types of the encoding |
| PbConformance.KnownMessages | ChaDas5/Pods/nanopb/pb_encode.c:494-516 | the bytes of messages that the description of the encoding gives, and of one for each fixed width |
| PbConformance.KnownPackedArray | ChaDas5/Pods/nanopb/pb_encode.c:126-211 | the same for a packed array |
| PbConformance.SecondMerges | ChaDas5/Pods/nanopb/pb_decode.c:1463-1485 | a submessage that comes twice is merged: the second goes on from what the first left |
| PbConformance.LastMemberWins | ChaDas5/Pods/nanopb/pb_decode.c:461-470 | a member of a union depends on its last occurrence alone |
| PbConformance.LastScalarWins | ChaDas5/Pods/nanopb/pb_decode.c:408-415 | and so does a single scalar |
| PbConformance.ZeroKeyEnds | ChaDas5/Pods/nanopb/pb_decode.c:293-314 | a zero byte where a key is expected ends the message |
| PbConformance.ZeroTagIsSkipped | ChaDas5/Pods/nanopb/pb_decode.c:944-1005 | a key with tag zero and another wire type is skipped like that of any unknown field, but is an error in a message without fields |
| PbConformance.LeftOutExactly | ChaDas5/Pods/nanopb/pb_encode.c:215-303 | a scalar without a has flag is left out exactly when it is the default that its absence stands for |
| PbConformance.LeftOutWhenEmpty | ChaDas5/Pods/nanopb/pb_encode.c:261-280 | and a submessage exactly when nothing would be written inside it, arrays of a fixed count aside |
| PbConformance.OversizeIsRefused | ChaDas5/Pods/nanopb/pb_encode.c:126-145 | arrays with too many items, or of a fixed count with another number of them, are errors |
| PbConformance.MisfitIsRefused | ChaDas5/Pods/nanopb/pb_encode.c:810-870 | bytes are an error exactly if they do not fit; a string may fill its storage without a NUL, and what the storage of a string or of fixed-length bytes cannot hold has no encoding |
| PbConformance.ClearingSettles | ChaDas5/Pods/nanopb/pb_decode.c:838-845 | arrays of which clearing the first word settles the contents, and arrays of which it does not |
| PbBounds.DecodedFits | ChaDas5/Pods/nanopb/pb_decode.c:901-1063 | any bytes whatsoever: what pb_decode accepts fits the structure, every integer in its range, every string with its end, every array within its bounds, fixed-count arrays full or untouched, at every depth |
| PbBounds.IntegersAccepted | ChaDas5/Pods/nanopb/pb_decode.c:1289-1375 | an integer field accepts a varint exactly when its type has a value congruent to it, modulo 2^64 or, for signed fields of up to 32 bits, 2^32; other fields only the number itself |
| PbBounds.IntegerRanges | ChaDas5/Pods/nanopb/pb_decode.c:1289-1375 | the ranges of the integers of 1, 2, 4 and 8 bytes, in numbers |
| PbBounds.DelimitedAccepted | ChaDas5/Pods/nanopb/pb_decode.c:1391-1509 | bytes, strings and fixed-length bytes are accepted exactly when they fit, and a string ends at its first NUL |
| PbTransparency.StepsThen | ChaDas5/Pods/nanopb/pb_decode.c:919-1009 | decoding whole fields and then more bytes is decoding the bytes from the state after the fields |
| PbTransparency.UnknownFieldIsTransparent | ChaDas5/Pods/nanopb/pb_decode.c:933-962 | a well-formed field with an undescribed tag between any two fields changes neither the message nor its acceptance |
| PbTransparency.RequiredCheckExact | ChaDas5/Pods/nanopb/pb_decode.c:1018-1046 | the check at the end passes exactly when every required field among the first 64 was met |
| PbTransparency.AcceptedExactly | ChaDas5/Pods/nanopb/pb_decode.c:1009-1046 | a message is accepted exactly when its fields decode, the first 64 required fields are met and the fixed-count array that came last is full |
| PbStreams.IStream.DecodeVarint32 | ChaDas5/Pods/nanopb/pb_decode.c:182-242 | the loop over the stream is the function on bytes, with the 8-bit bit counter, and reports the end of the stream exactly when it was empty |
| PbStreams.IStream.DecodeVarint | ChaDas5/Pods/nanopb/pb_decode.c:250-270 | the same for 64 bits |
| PbStreams.IStream.Skip | ChaDas5/Pods/nanopb/pb_decode.c:316-326 | skips exactly one value of the wire type |
| PbStreams.IStream.MakeStringSubstream | ChaDas5/Pods/nanopb/pb_decode.c:367-380 | the substream is exactly the delimited bytes, which the parent no longer counts |
| PbStreams.IStream.CloseStringSubstream | ChaDas5/Pods/nanopb/pb_decode.c:382-395 | the parent goes on exactly behind them, whatever was left unread |
| PbDecoder.DecodeTag | ChaDas5/Pods/nanopb/pb_decode.c:293-314 | a zero key ends the message like the end of the stream |
| PbDecoder.DecodePackedArray | ChaDas5/Pods/nanopb/pb_decode.c:414-442 | items are taken while there are bytes and room, and leftover bytes are an overflow |
| PbDecoder.DecodeStaticField | ChaDas5/Pods/nanopb/pb_decode.c:401-475 | one occurrence of a field updates its storage as specified, arrays through their counter, and a submessage in a union from zeroed memory |
| PbDecoder.DecodeLoop | ChaDas5/Pods/nanopb/pb_decode.c:919-1009 | the loop with its iterator, bit array and fixed-count bookkeeping is the declarative decoding of the bytes |
| PbDecoder.CheckRequired | ChaDas5/Pods/nanopb/pb_decode.c:1026-1046 | comparing whole words and the masked last word passes exactly when every bit below the count is set |
| PbDecoder.DecodeNoinit | ChaDas5/Pods/nanopb/pb_decode.c:901-1049 | succeeds exactly when the bytes decode, with their message |
| PbDecoder.DecodeAll | ChaDas5/Pods/nanopb/pb_decode.c:1051-1063 | the same, from the defaults |
| PbEncoder.OStream.EncodeVarint | ChaDas5/Pods/nanopb/pb_encode.c:574-594 | the buffer never overflows and what is written is the canonical varint |
| PbEncoder.EncodeArray | ChaDas5/Pods/nanopb/pb_encode.c:126-211 | a packed array is measured and then written, with the size that was measured; others item by item |
| PbEncoder.CheckDefault | ChaDas5/Pods/nanopb/pb_encode.c:215-303 | the recursive walk decides exactly the specified predicate |
| PbEncoder.EncodeBasicField | ChaDas5/Pods/nanopb/pb_encode.c:307-390 | writes the specified bytes, or nothing, or fails |
| PbEncoder.EncodeAll | ChaDas5/Pods/nanopb/pb_encode.c:494-516 | succeeds exactly when the message can be encoded and there is room, and then writes exactly its bytes, or counts exactly them |
| PbEncoder.EncodeSubmessage | ChaDas5/Pods/nanopb/pb_encode.c:682-730 | the second pass writes exactly the size that the first one counted, so that "submsg size changed" cannot occur |
| PbEncoder.GetEncodedSize | ChaDas5/Pods/nanopb/pb_encode.c:533-542 | the reported size is the number of bytes that encoding writes |
| Refcount.CompareExchangeRefinesLock | ChaDas5/Pods/BoringSSL/crypto/refcount_c11.c:37-65 | under every interleaving of threads and every spurious failure, the completed compare-and-swap calls are a history of the locked counter |
| Refcount.BalancedUseReachesZeroOnce | ChaDas5/Pods/BoringSSL/crypto/refcount_lock.c:29-51 | balanced, unsaturated use reports zero exactly once |
| Refcount.SaturationLasts | ChaDas5/Pods/BoringSSL/crypto/refcount_lock.c:29-51 | a saturated count never changes again, and zero is never reported |
| Refcount.AbortsExactly | ChaDas5/Pods/BoringSSL/crypto/refcount_c11.c:46-65 | the program is aborted exactly by a decrement of zero |
| Refcount.AloneIsLocked | ChaDas5/Pods/BoringSSL/crypto/refcount_c11.c:37-65 | an undisturbed thread gets, in two accesses, what the lock would give it |
| Refcount.SomeCallCompletes | ChaDas5/Pods/BoringSSL/crypto/refcount_c11.c:37-65 | an exchange that does not fail spuriously completes its call unless the count has changed, so that another call was completed |
| CipherChoice.ChooseCipher | ChaDas5/Pods/BoringSSL/ssl/handshake_server.cc:357-424 | the loop with its group minimum returns the earliest cipher, in the other side's order, within the first preference group that has an acceptable one, and nothing exactly when none is acceptable |
| CipherChoice.ChoiceFits | ChaDas5/Pods/BoringSSL/ssl/handshake_server.cc:385-400 | the cipher chosen is one both sides have, for the version in use, with a key exchange and an authentication the server has keys for |
| CipherChoice.WhatFitsIsAcceptable | ChaDas5/Pods/BoringSSL/ssl/handshake_server.cc:385-400 | and one that fits is acceptable |
| ConstantTime.PaddingOkIsAcceptable | ChaDas5/Pods/BoringSSL/ssl/handshake_server.cc:1157-1171 | a block that passes the check is one of section 7.2.2 of RFC 3447 with the version bytes in front of its message |
| ConstantTime.AcceptableIsPaddingOk | ChaDas5/Pods/BoringSSL/ssl/handshake_server.cc:1157-1171 | and every such block passes |
| ConstantTime.CheckPadding | ChaDas5/Pods/BoringSSL/ssl/handshake_server.cc:1157-1171 | the masked loop yields all ones exactly when the plain check holds, and zero otherwise |
| ConstantTime.SelectPremaster | ChaDas5/Pods/BoringSSL/ssl/handshake_server.cc:1157-1178 | the decrypted premaster is selected exactly when the block is acceptable, the random one otherwise |
| ConstantTime.Select8 | ChaDas5/Pods/BoringSSL/crypto/internal.h:344-361 | a mask of all ones selects the first octet, zero the second |

## Left out
- The application itself (`ChaDas5/ChaDas5`): views, alerts, Firestore and Auth calls; nothing hard in it.
- Cryptography: AEAD, hashes, PRF, signatures, RSA, ECDH, random bytes. Sealing is a box with bounded expansion that authenticates and may fail; the flag `ideal` of a writer says that neither it nor the transport does, so that what succeeds then can be stated; verdicts of signature and certificate checks are inputs of a step. A Finished or CertificateVerify is a token that carries the transcript it was computed over.
- TLS 1.3 (one opaque state on each side), SSL 3.0, 0-RTT, renegotiation, handoff, V2ClientHello, custom extensions, the error queue.
- `tls_seal_record`, `tls_open_record`, CBS, CBB and BIO: sequences of octets, and a transport that accepts any part of a write or fails.
- The do_* functions of the two handshakes are functions on a record that holds SSL_HANDSHAKE's fields; the loops around them (`ssl_client_handshake`, `ssl_server_handshake`, `ssl_run_handshake`) are methods of a class that assigns that record. Assignments field by field within one do_* step, before one of its error returns, are not captured.
- Lockstep.NeverFails: every handshake message travels in a record of its own, as ssl3_add_message sends it when it fits max_send_fragment; how messages are cut into records is the subject of HandshakeStream. The two sides are TLS, not DTLS, and no oracle fails.
- Lockstep.BothGetDone: callbacks that are not ready (certificate selection, private keys, sessions) may be retried any number of times; such retries are not counted.
- Handshake.Deliver: a failed read is final for the machine, as the shut read half makes it; alerts and the bytes behind a record are not modelled.
- ServerHandshake.DoneMeansVerified: the server's choice of parameters comes from a configuration record instead of extension parsing; session lookup is one boolean.
- DtlsEndToEnd.DeliveredIsPrefixOfSent: fewer than 2^16 messages; the network does not forge, which is what the AEAD is for.
- DtlsSender.Sender.SendFlight: a sealing failure inside a packet does not rewind to the start of that packet, only a failed write does, as in the code, so the position is not promised after one. Whether sealing, the transport or the flush fails is left open; datagrams have no content beyond their records.
- DtlsRecordWriter.RecordWriter.SealRecord: freshness ends when the 48-bit sequence or the 16-bit epoch wraps, which the model tracks in a flag.
- TlsWriter.Writer.DoWrite: with a buffer of 65530 to 65535 octets nothing is promised about the order of octets, since SSLBuffer's offset can wrap there; what is sealed and counted is promised all the same. A failing allocation is not modelled.
- DtlsTimer.Timer.CheckTimeoutNum: does not model the query for a smaller MTU after two timeouts, which is a question to the BIO.
- DtlsTimer.Timer.HandleTimeout: the retransmission that a result of 1 calls for is DtlsSender.Sender.Retransmit.
- ConstantTime: constant_time_lt is not used by the padding check and is not modelled; timing is not modelled at all.
- nanopb callbacks, extensions, fields allocated on the heap, PB_WITHOUT_64BIT, and default values other than zero (they only show in the storage of an absent optional field, which the abstract value hides). The build sets PB_FIELD_32BIT, so PB_SIZE_MAX is 2^32 - 1.
- nanopb messages are values: a message structure is a list of cells, one a field or union, and decoding returns the new list instead of overwriting memory. The iterator keeps the abstract data offsets; the bytes of the C structure are modelled only to say what clearing some of them settles (PbMemory).
- PbEncoder.EncodeAll: sizes are assumed to fit size_t, and array items of fixed size to be numbers.
- PbRoundTrip.RoundTripExact: what the check for zero reads in the first word of a fixed-count array depends on the C layout and is a parameter. Setting defaults clears that word, which has four bytes here; contents that the cleared bytes settle are the default, and others, which depend on what was in memory before, are the cell Unset. Below a union member everything starts from zero; there, arrays in fields that come a second time or out of the order of the descriptors, which the encoder never writes, are Unset as well, since what they were overwritten with is not tracked. Where clearing reaches past the end of an array shorter than a word is not modelled. Encodings of 2^32 bytes and more are excluded, because the decoder reads lengths as 32-bit numbers.
- PbTransparency.RequiredCheckExact: with more than 64 required fields only the first 64 are checked, as in the code.
