# CyrexMC session layer: a verified model

This project models the part of the CyrexMC server that turns client messages into bytes on the
wire and back, and proves what it does. It has four connected components.

* **Resource-pack scheduler** (`ChunkMath`, `SchedulerSpec`, `Scheduler`, `SchedulerRuns`, `Replies`,
  `PackQueue`, `QueueOrder`, `ChunkRequest`, `Factory`). `Scheduler.Session` keeps the fields of the C++ session:
  loaded packs with their want/sent flags and cursor, the pending queue, the pack queue, the current
  pack. Each handler is proved to take the step that `SchedulerSpec` gives for the same message, and
  the others prove what follows for every sequence of messages: `Replies` says what a session sends
  in terms of the messages alone, `QueueOrder` in which order packs come up.
* **Wire pipeline** (`Framing`, `OverRead`, `Stops`, `Cipher`, `Wire`, `WireSession`). `WireSession.Session` is the
  sending and receiving half of the same C++ class, which shares no field with the scheduler half;
  the two meet at `send`. `Wire` states its steps as functions and proves the end-to-end theorem.
* **Binary codec** (`Bits`, `Varint`, `Codec`, `BinaryIO`, `Records`, `Truncation`). Varints are unsigned LEB128
  (section 7.6 of DWARF 5). Bytes are numbers below 256; `|` and `^` are defined bit by bit, and
  integer widths, truncation and `size_t` wrap-around are written out.
* **ZIP extractor** (`Zip`, `ZipArchive`), against sections 4.3.7, 4.3.12 and 4.3.16 of PKWARE
  APPNOTE.TXT.

`Download` joins the first two: a client at the far end of the wire rebuilds each pack it asked for.
`ClosedLoop` adds the way in: its requests travel the same wire and drive the scheduler. `Vectors`
spells out one example of each format byte by byte. `Properties` is the round trip of `server.properties`.

Compressors, keystream, digest, textual UUIDs, double rounding and the peer's payload decoders are
parameters with stated laws (`Wire.Compressors.Lawful`, `Wire.World.Lawful`,
`ChunkRequest.UuidText.Lawful`, `ChunkMath.RoundsToNearest`). Pack contents, the set of packs and the
chunk size are constant during a session; a pack has less than 2^53 bytes and its chunk count fits a
32-bit `int` (`Scheduler.Session.SizeFits`).

Where the code does not do what its names promise, the model follows the code:

* `writeVarInt` and `writeVarLong` use the low bit where zig-zag needs the sign. A value survives
  exactly when it is negative iff it is odd; the writer's map identifies values 2^31 (2^63) apart.
* `nextPack` removes the current pack, not the pack that finished, and SendPacks queues a pack again
  without looking. The queue lists exactly the unfinished packs throughout a run if and only if every
  message of the run comes in turn, as it does for clients that download one pack at a time.
* The index of a chunk request is read with sixteen bits and a sign, so a pack of more than 32768
  chunks can never be completed.
* `extractFile` adds the directory's offset and size in 32 bits: a sum that wraps to something no
  larger than the file passes the test, and the file is only refused at the short read.
* `extractFile` reads past its copy of the central directory exactly when the records, none of the
  name looked for, are followed by a signature with less than a header behind it.
* NetworkSettings announces a compression threshold of 1. After it exactly the batches that are empty
  or reach 256 bytes keep to that; those of 1 to 255 bytes leave uncompressed.
* The router has no defined behaviour on some datagrams: encrypted ones shorter than a checksum, and
  those whose envelope is empty or names a compressor that rejects the rest.
* `subClientId` is written with three bits and read with two, so it comes back modulo four.
* `acceptedProtocols` has two elements and one initializer, so protocol 0 is accepted.
* The reader of a packet is as long as the whole batch, so it reaches behind the received bytes. A
  header is read there exactly when the length fields lead to one that does not stand inside the
  batch, a decoder is shown as many bytes never received as stand before its header, and what
  follows a batch of packets has no effect exactly when the decoders and handlers agree on them.
* Properties are read back exactly when name and motd contain no newline.

Methods follow the C++ methods. Where one C++ body was long it is cut into several methods called
in order (`ProcessChunkQueue` calls `DrainAll`, `DrainOne`, `ServeHead`, `ServeChunk`, `SendChunk`,
`CutChunk`, `MarkSent`, `FlagSent` and `AdvanceCursor`; `OnRaw` calls `DoTurn`).

## Model

| member | source | states |
|---|---|---|
| Download.DownloadRebuildsPack | src/network/session/network_session.cpp:189-238 | Over any run of client messages, with the scheduler's packets encoded, framed, enveloped and encrypted as they come and any queued sends, flushes, other sends and settings requests between them, a client in step that asked for every index of a pack rebuilds it byte for byte from what it decoded. |
| Download.ChunkRoundTrip | src/network/mcbe/protocol/resource_pack_chunk_data.hpp:27-34 | An encoded chunk packet reads back as its id, index, offset and data, consuming exactly its bytes, with anything before and after. |
| ClosedLoop.AskedPackArrives | src/network/session/network_session.cpp:406-456 | A client that asks for every index of a pack in encoded, framed, enveloped and encrypted batches, received by a server whose handlers run the scheduler, rebuilds the pack from what comes back over the wire. |
| ClosedLoop.BatchSteps | src/network/mcbe/protocol/resource_pack_chunk_request.cpp:5-8 | One batch of requests through envelope, cipher and router takes the scheduler from one run to the run extended by those requests. |
| SchedulerRuns.TraceIsFirstRequests | src/network/session/network_session.cpp:406-522 | For every run, the chunks sent are the first occurrences of the servable requests in request order, and the sent flags mark exactly those. |
| Replies.TraceIsAnswers | src/network/session/network_session.cpp:325-522 | For every run, everything sent, in order, is the answers to the messages: an info packet per announced pack up to the first unknown one, the stack, and for the first request of an index inside a pack a chunk with that index, its offset and the bytes of the file from there. |
| Replies.ChunkFields | src/network/session/network_session.cpp:498-503 | The i-th chunk packet of a run carries id, version and index of the i-th servable request not made before, its offset and those bytes of the pack. |
| Replies.DisconnectsIff | src/network/session/network_session.cpp:331-456 | A session is marked for disconnection iff the client announced or requested an unknown pack, or refused forced packs. |
| Replies.LoadedIff | src/network/session/network_session.cpp:341-430 | Exactly the packs announced before an unknown one, or requested, are loaded. |
| SchedulerRuns.NoChunkTwice | src/network/session/network_session.cpp:484-507 | No two chunk packets of any run carry the same pack and index, repeated SendPacks included. |
| SchedulerRuns.Reassembly | src/network/session/network_session.cpp:487-507 | Once every index of a pack was requested, in any order and mixed with anything, writing each chunk at its offset rebuilds the pack over any buffer, and the lengths add up to its size. |
| SchedulerRuns.RunCompletions | src/network/session/network_session.cpp:509-513 | In every run `nextPack` has been called once for each fully sent pack that has chunks, and for no other. |
| SchedulerRuns.ServeCompletions | src/network/session/network_session.cpp:507-513 | `nextPack` is called at the step that sends the last missing chunk of a pack, and at no other. |
| SchedulerRuns.CompletedIffAllRequested | src/network/session/network_session.cpp:406-522 | A pack completes in a run iff it has chunks and the client has asked for each of its indices. |
| SchedulerRuns.DrainIsFirstRequests | src/network/session/network_session.cpp:458-522 | On a pending queue of any length and content, the drain loop sends the first occurrences among what was sent before and the entries it reaches, and marks exactly those. |
| SchedulerRuns.AllReached | src/network/session/network_session.cpp:467-482 | If all pending entries are loaded and in range, the loop reaches every one, in order. |
| SchedulerSpec.DrainEmpties | src/network/session/network_session.cpp:467-514 | Over any number of in-range pending entries the drain loop empties the queue and never takes a disconnect branch. |
| SchedulerSpec.DrainDisconnects | src/network/session/network_session.cpp:473-482 | On any pending queue the loop disconnects iff some entry of a loaded pack has an index out of range. |
| PackQueue.RunSound | src/network/session/network_session.cpp:442-452 | In every reachable state a non-nil current pack is queued and only loaded packs are queued. |
| PackQueue.RequestExactly | src/network/session/network_session.cpp:524-539 | A chunk request keeps the queue equal to the loaded unfinished packs, once each, iff it names no finished or empty pack and does not finish a pack other than the current one. |
| PackQueue.AnnounceExactly | src/network/session/network_session.cpp:341-373 | SendPacks keeps the queue exact iff the names up to the first unknown one are new, distinct and of packs with chunks. |
| PackQueue.ExactIffOrderly | src/network/session/network_session.cpp:442-452 | The queue lists exactly the loaded unfinished packs after every prefix of a run iff every message of the run comes in turn. |
| PackQueue.SequentialIsOrderly | src/network/session/network_session.cpp:442-452 | A client that announces new packs and asks only for the current one, or for one it has not finished when there is none, stays in turn through the whole run, so its queue is exact. |
| PackQueue.InterleavedLosesPack | src/network/session/network_session.cpp:528-533 | Two requests after which the finished pack is queued and the unfinished one is not. |
| QueueOrder.AdvanceFromFront | src/network/session/network_session.cpp:528-533 | When the current pack is at the front, it is taken off and the one behind it is next. |
| QueueOrder.AdvanceFromBehind | src/network/session/network_session.cpp:530-533 | Otherwise the front is next and all others but the current one stay, in their order. |
| QueueOrder.QueueInOrder | src/network/session/network_session.cpp:360-539 | In every run whose messages come in turn the queue lists the unfinished packs in the order they came up. |
| QueueOrder.DownloadsInOrder | src/network/session/network_session.cpp:360-539 | A client that works through the queue gets the packs in the order announced: completed packs and queue together are the packs so far, and the current pack is the first of the queue. |
| Scheduler.Session.constructor | src/network/session/network_session.hpp:47-57 | A new session over any factory whose packs fit is valid and quiet and has sent nothing. |
| Scheduler.Session.Handle | src/network/session/network_session.cpp:325-456 | Any client message takes the specified step; afterwards nothing is pending, no drain is under way, wanted means sent, every cursor is the longest sent prefix and no pack stream has failed. |
| Scheduler.Session.HandleAll | src/network/session/network_session.cpp:325-456 | The messages of a whole session, handled one after the other, reach the specified state of the run. |
| Scheduler.Session.HandleClientResponse | src/network/session/network_session.cpp:325-404 | Each response status has the specified effect. |
| Scheduler.Session.AnnouncePacks | src/network/session/network_session.cpp:339-374 | The packs of the list are announced in order; an unknown one stops the list and disconnects. |
| Scheduler.Session.SendStack | src/network/session/network_session.cpp:376-396 | The stack packet lists every pack with its id, version and sub-pack name in load order, the force flag and the game version. |
| Scheduler.Session.AnnouncePack | src/network/session/network_session.cpp:351-370 | One announced pack is queued again, loaded only if new, and described with the count the server will serve. |
| Scheduler.Session.HandleChunkRequest | src/network/session/network_session.cpp:406-456 | Any id and any index: unknown packs disconnect, out-of-range indices select the pack and send nothing, the rest is served once. |
| Scheduler.Session.ProcessChunkQueue | src/network/session/network_session.cpp:458-522 | On any pending queue, in range or not, the loop does what `Drain` says; a nested call does nothing. |
| Scheduler.Session.DrainOne | src/network/session/network_session.cpp:467-513 | One turn of the loop is one step of `Drain`, whether its entry is unloaded, out of range, sent or to be sent; `false` means the loop stops. |
| Scheduler.Session.ServeChunk | src/network/session/network_session.cpp:484-513 | One in-range entry is sent unless sent before; the empty-chunk branch cannot be reached. |
| Scheduler.Session.MarkSent | src/network/session/network_session.cpp:507-513 | Flag, cursor and, when the pack is done, the move to the next pack. |
| Scheduler.Session.NextPack | src/network/session/network_session.cpp:524-539 | Removes the current pack from the queue and takes the new front as current. |
| Scheduler.ResourcePackMeta.AdvanceCursor | src/network/session/network_session.cpp:509-510 | The cursor stops at the length of the longest prefix of sent chunks. |
| Scheduler.ResourcePackMeta.FinishedMeansAllSent | src/network/mcbe/protocol/types/packs/ResourcePackMeta.hpp:42-45 | `finished()` holds iff every chunk is sent. |
| Scheduler.ResourcePackMeta.CutChunk | src/network/session/network_session.cpp:487-490 | The bytes read for an in-range index are exactly its slice and the stream does not fail. |
| Scheduler.ResourcePack.GetPackChunkString | src/network/mcbe/resourcepacks/types/zipped_resource_pack.cpp:134-156 | Seek and read with a sticky fail flag: exact bytes in range, a shrunk buffer and a failed stream past the end, an exception ever after. |
| ChunkMath.AdvertisedIsServed | src/network/session/network_session.cpp:351-353 | The ceiling of the double quotient used when announcing equals the integer ceiling used when serving, under the round-to-nearest of IEEE 754. |
| ChunkMath.SliceInside | src/network/session/network_session.cpp:487-488 | Exactly the indices below the count start inside the pack, and their slices have between one and the maximum number of bytes and stay inside. |
| ChunkMath.SlicesTile | src/network/session/network_session.cpp:487-490 | The slices in order are the pack. |
| ChunkMath.ByteInSlice | src/network/session/network_session.cpp:487-488 | Each offset lies in exactly one slice. |
| Factory.LastWithIdIs | src/network/mcbe/resourcepacks/resource_pack_factory.cpp:43-47 | An id means the last pack loaded with it, and nothing iff no pack has it. |
| Factory.IndexedById | src/network/mcbe/resourcepacks/resource_pack_factory.cpp:20-29 | Every indexed pack carries the id it is indexed under. |
| Factory.ResourcePackFactory.ReloadPacks | src/network/mcbe/resourcepacks/resource_pack_factory.cpp:15-30 | Packs are kept in load order and the index answers with the last one of an id. |
| Factory.ConcatIs | src/network/mcbe/resourcepacks/resource_pack_factory.cpp:20-29 | The packs of one loader after those of another. |
| Factory.ResourcePackFactory.GetPackById | src/network/mcbe/resourcepacks/resource_pack_factory.cpp:43-47 | Returns the last pack loaded with the id, or none. |
| Factory.ResourcePackFactory.GetResourceStack | src/network/mcbe/resourcepacks/resource_pack_factory.cpp:32-41 | Lists the packs in load order. |
| Factory.ResourcePackFactory.SetMaxChunkSize | src/network/mcbe/resourcepacks/resource_pack_factory.cpp:54-59 | Only positive sizes are accepted; others throw and change nothing. |
| Factory.ResourcePackFactory.NewSession | src/network/mcbe/resourcepacks/resource_pack_factory.hpp:15-30 | A session over a factory starts valid, offers the last pack of each id and stacks the packs in load order. |
| Wire.EndToEnd | src/network/raknet/handler/mcbe_packet_router.cpp:12-67 | Over any run of queued sends, immediate sends, flushes and settings requests, a peer in step records exactly the packets sent, in order, and flags, counter and keystream position stay equal. |
| Wire.BatchArrives | src/network/session/network_session.cpp:189-238 | One transmitted batch passes the router, the cipher and the envelope and is recorded packet by packet, to its end if any packet of it was encoded. |
| Wire.BatchHandled | src/network/raknet/handler/mcbe_packet_router.cpp:12-67 | With any handlers: one transmitted batch has the effect of its packets handled in order, and the cipher stays in step. |
| Wire.EmptyHandled | src/network/raknet/handler/mcbe_packet_router.cpp:12-67 | A batch of which no packet could be encoded moves the cipher and changes nothing else. |
| Wire.IgnoredIff | src/network/raknet/handler/mcbe_packet_router.cpp:17-22 | A datagram is ignored iff at most one byte follows its marker. |
| Wire.DecryptFailedIff | src/network/raknet/handler/mcbe_packet_router.cpp:25-35 | It fails to decrypt iff it is the seal of no message; then only the cipher moves. |
| Wire.UndefinedIff | src/network/raknet/handler/mcbe_packet_router.cpp:21-55 | Exactly on which datagrams the router has no defined behaviour. |
| Wire.RejectedIsUndefined | src/network/raknet/handler/mcbe_packet_router.cpp:48-55 | Marker, zlib and bytes that zlib rejects are such a datagram. |
| Wire.ShortIsUndefined | src/network/raknet/handler/mcbe_packet_router.cpp:25-30 | With encryption, so are the marker and two to seven bytes. |
| Wire.EnvelopeRoundTrip | src/network/session/network_session.cpp:195-216 | With equal flags the peer undoes the envelope, whichever of its three forms was used; only what is compressed must be within what the decompressor can return. |
| Wire.QueueConservation | src/network/session/network_session.cpp:132-187 | Over any interleaving, the queued packets are those flushed followed by those still queued. |
| Wire.SentInOrder | src/network/session/network_session.cpp:132-187 | What leaves is the batches of the run in order; the flushed ones together are the encodable flushed packets in queue order, the others the encodable immediate ones in call order. |
| Wire.QueuedLeaveInOrder | src/network/session/network_session.cpp:132-187 | Every encodable packet put in the queue leaves by a flush once, in queue order, or is still queued. |
| Wire.QueueThenFlush | src/network/session/network_session.cpp:150-187 | Queueing a batch and flushing equals sending it at once iff the batch is not empty. |
| Wire.SettingsAnnounced | src/network/session/network_session.cpp:308-320 | The settings packet names the algorithm the server compresses with from then on, and a threshold of 1. |
| Wire.SettingsTakenIff | src/network/session/network_session.cpp:300-322 | Exactly the versions 924 and 0 turn compression on. |
| Wire.RefusalTells | src/network/session/network_session.cpp:119-129 | Any other version is told which side is too old, 1 or 2, under the flags as they stand, and nothing else changes. |
| Wire.ThresholdKeptIff | src/network/session/network_session.cpp:201-215 | After the settings, a batch is compressed as the announced threshold says iff it is empty or has at least 256 bytes. |
| Wire.SmallBatchUncompressed | src/network/session/network_session.cpp:201-215 | After the settings, a batch of 1 to 255 bytes leaves behind the marker 0xFF. |
| WireSession.Session.SendInternal | src/network/session/network_session.cpp:189-238 | Appends one datagram: marker, envelope by flag, algorithm and threshold, then cipher if enabled. |
| WireSession.Session.Send | src/network/session/network_session.cpp:132-148 | Queues, or encodes and transmits alone. |
| WireSession.Session.SendBatch | src/network/session/network_session.cpp:150-171 | Queues in order, or encodes and transmits together. |
| WireSession.Session.Flush | src/network/session/network_session.cpp:173-187 | Transmits the whole queue as one batch and clears it; nothing if it is empty. |
| WireSession.Session.HandleRequestNetworkSettings | src/network/session/network_session.cpp:300-322 | Supported versions get the settings with the zlib algorithm under the old flag and then compression; others a refusal that says which side is too old. |
| WireSession.Session.PerformAll | src/network/session/network_session.cpp:132-187 | A whole run of sending calls reaches the specified state. |
| WireSession.Session.Route | src/network/raknet/handler/mcbe_packet_router.cpp:12-67 | The inverse walk on every datagram, with any handlers over the compression flag and a state of theirs, and the outcome. |
| Framing.OnRaw | src/network/session/network_session.cpp:70-119 | On arbitrary bytes, with any memory behind them, the loop computes the walk, stops within len + 1 turns and reports whether every header it read stood in the received bytes. |
| OverRead.OneByteBatch | src/network/session/network_session.cpp:75-79 | A batch of one byte, a length, whose end is decided by the byte behind it. |
| OverRead.HeaderInsideIff | src/network/session/network_session.cpp:77-79 | The header of a turn does not depend on what follows the batch iff it ends inside, or five bytes of it do. |
| OverRead.HeadersInsideIff | src/network/session/network_session.cpp:72-118 | The headers a walk reads do not depend on what follows the batch iff every header the length fields lead to stands inside. |
| OverRead.InsideIsEnough | src/network/session/network_session.cpp:72-118 | If they do and no decoder looks behind the batch, neither the walk nor its report depends on what follows. |
| OverRead.EncodedInside | src/network/mcbe/packet.cpp:14-17 | In a batch of encoded packets every header stands inside. |
| OverRead.ViewShown | src/network/session/network_session.cpp:77 | What a decoder is shown: its payload, the rest of the batch, and as many bytes never received as stand before its header. |
| OverRead.BatchIndependentIff | src/network/session/network_session.cpp:72-118 | What follows a batch of packets has no effect iff decoders and handlers agree whatever the foreign bytes they are shown. |
| OverRead.PacketIndependentIff | src/network/session/network_session.cpp:72-118 | For one packet: iff they agree on its payload followed by any bytes, as many as its length field has. |
| Framing.WalkDelivers | src/network/session/network_session.cpp:72-118 | Walking encoded packets delivers one frame each, resynchronises at every boundary whatever decoders consume, and ends at the end of the buffer. |
| Framing.BatchRoundTrip | src/network/session/network_session.cpp:72-118 | With decoders that look at their payload only, the frames are the packets and memory past the batch has no effect. |
| Stops.WalkStopsAt | src/network/session/network_session.cpp:96-117 | A batch ends at its first packet that is unknown, undecodable or refused, with the state its predecessors and its own handler leave; later packets have no effect. |
| Stops.WalkFinishes | src/network/session/network_session.cpp:72-118 | If every packet is accepted, the batch ends at its end. |
| Stops.RefusedBatch | src/network/raknet/handler/mcbe_packet_router.cpp:12-67 | The same through envelope, cipher and router. |
| Stops.FinishesIffLands | src/network/session/network_session.cpp:73-118 | On arbitrary bytes whose headers stand inside, a receiver that accepts everything finishes iff the length fields lead exactly to the end; otherwise the walk throws. |
| Framing.FrameReads | src/network/mcbe/packet.cpp:14-17 | Length and header of an encoded packet are read back, and the length leads to the next frame. |
| Framing.HeaderParts | src/network/mcbe/packet.cpp:14 | The header's parts do not overlap: its low ten bits are the id's and the rest is the sub-client. |
| Framing.Encode | src/network/mcbe/packet.cpp:7-19 | Appends one frame, or nothing when the payload cannot be encoded. |
| Framing.EncAllEncodable | src/network/mcbe/packet.cpp:9-13 | Packets that cannot be encoded leave no trace in a batch. |
| Cipher.Lockstep | src/network/mcbe/encryption/encryption.cpp:29-60 | Any list of sealed messages opened in order passes every checksum, is recovered, and leaves both channels equal. |
| Cipher.OpenSealed | src/network/mcbe/encryption/encryption.cpp:43-60 | In step, one message is recovered and counter and position advance alike. |
| Cipher.SealBytes | src/network/mcbe/encryption/encryption.cpp:29-41 | Each sealed byte is the message or digest byte under its place in the keystream; the counter moves by one and the position by the length and eight. |
| Cipher.OpensIff | src/network/mcbe/encryption/encryption.cpp:43-60 | Bytes open to a message iff they are its seal. |
| Cipher.MismatchIff | src/network/mcbe/encryption/encryption.cpp:54-57 | The checksum fails iff the bytes are the seal of no message. |
| Cipher.SealAllMoves | src/network/mcbe/encryption/encryption.cpp:29-41 | After any list of messages the counter and the position have moved by their number and their bytes. |
| Cipher.AesEncryptor.Encrypt | src/network/mcbe/encryption/encryption.cpp:29-41 | Message and digest are encrypted together; counter and position move. |
| Cipher.AesEncryptor.Decrypt | src/network/mcbe/encryption/encryption.cpp:43-60 | Decrypts, checks the digest, and moves counter and position either way; an input shorter than the digest is reported as an overrun. |
| Varint.VarRoundTrip | src/network/io/binary_reader.hpp:189-231 | A written 32- or 64-bit varint is read back, consuming exactly its bytes, in any surroundings. |
| Varint.VarShortest | src/network/io/binary_writer.hpp:199-222 | No accepted byte sequence for a value is shorter than the written one. |
| Varint.EncVarBytes | src/network/io/binary_writer.hpp:199-222 | Each written byte is seven bits of the value, lowest first, with the top bit set on all but the last. |
| Varint.Base128Digits | src/network/io/binary_reader.hpp:189-231 | The digits of the sum read are the low seven bits of the bytes. |
| Bits.OrBits | src/network/io/binary_reader.hpp:197 | Bitwise or, on every bit. |
| Bits.XorBits | src/network/io/binary_reader.hpp:211 | Bitwise exclusive or, on every bit. |
| Varint.SignedRoundTripExactly | src/network/io/binary_writer.hpp:209-227 | A signed value written and read back is recovered iff it is negative exactly when odd. |
| Varint.ReaderOfWriter | src/network/io/binary_writer.hpp:209-227 | What a written value is read as: itself, or half the range away. |
| Varint.WriterCollisions | src/network/io/binary_writer.hpp:209-227 | Two values share a written form iff they are equal or half the range apart. |
| Varint.ReaderInvertsZigZag | src/network/io/binary_reader.hpp:208-237 | The reader inverts standard zig-zag on the whole signed range. |
| Varint.ZigZagRoundTrip | src/network/io/binary_reader.hpp:208-237 | Bytes of the standard map would be read back for every value. |
| Varint.OneIsNotRecovered | src/network/io/binary_writer.hpp:209-212 | The value 1 is read back as 1 - 2^31 and shares its bytes. |
| BinaryIO.BinaryReader.ReadVar | src/network/io/binary_reader.hpp:189-231 | On any input, the base-128 sum modulo 2^32 (2^64) or an exception. |
| BinaryIO.OrSeptet | src/network/io/binary_reader.hpp:197 | Or-ing the shifted septet in is addition modulo the width. |
| BinaryIO.BinaryReader.ReadSigned | src/network/io/binary_reader.hpp:208-237 | The signed reads, as the reader's map of the varint. |
| BinaryIO.BinaryReader.ReadUUID | src/network/io/binary_reader.hpp:257-274 | Sixteen bytes with both halves reversed. |
| BinaryIO.BinaryReader.ReadString | src/network/io/binary_reader.hpp:239-247 | A varint length and that many bytes, or an exception. |
| BinaryIO.BinaryReader.Remaining | src/network/io/binary_reader.hpp:78-81 | Zero iff the cursor is exactly at the end, wrap-around included. |
| BinaryIO.BinaryReader.Readable | src/network/io/binary_reader.hpp:25-29 | The bounds test does not wrap. |
| BinaryIO.BinaryWriter.WriteVar | src/network/io/binary_writer.hpp:199-222 | The loop appends the LEB128 form. |
| BinaryIO.BinaryWriter.WriteSigned | src/network/io/binary_writer.hpp:209-227 | Appends the form of the writer's map. |
| BinaryIO.BinaryWriter.WriteUUID | src/network/io/binary_writer.hpp:267-273 | Appends the id with both halves reversed. |
| BinaryIO.GetVarSize | src/network/io/binary_writer.hpp:229-249 | The size loop counts exactly the bytes written. |
| BinaryIO.GetSignedSize | src/network/io/binary_writer.hpp:251-259 | The signed sizes agree with what is written, for every value. |
| Codec.UUIDRoundTrip | src/network/io/binary_reader.hpp:257-274 | The half reversals cancel. |
| Codec.UUIDBytes | src/network/io/binary_writer.hpp:267-273 | Byte k of a half on the wire is byte 7 - k of that half of the id. |
| Codec.GetUUIDBytes | src/network/io/binary_reader.hpp:257-274 | The same of the id read from any bytes. |
| Codec.BoolBytes | src/network/io/binary_writer.hpp:101-104 | True is written as 1 and false as 0; every byte but 0 is read as true. |
| Codec.StringBytes | src/network/io/binary_writer.hpp:261-265 | The length stands before the bytes, as a varint or in four bytes. |
| Codec.StringRoundTrip | src/network/io/binary_reader.hpp:239-247 | Strings below 2^32 bytes are read back in any surroundings. |
| Codec.StringU32LERoundTrip | src/network/io/binary_reader.hpp:276-284 | The same for the fixed-width length. |
| Codec.LERoundTrip | src/network/io/binary_reader.hpp:31-44 | Little-endian integers of any width are read back. |
| Codec.BERoundTrip | src/network/io/binary_reader.hpp:46-59 | Big-endian integers of any width are read back. |
| Codec.LEBytes | src/network/io/binary_reader.hpp:31-44 | Little-endian writing, byte by byte. |
| Codec.BEBytes | src/network/io/binary_reader.hpp:46-59 | Big-endian writing, byte by byte. |
| Codec.NumberBytes | src/network/io/binary_reader.hpp:31-59 | What both reads make of any bytes, byte by byte. |
| Codec.I16RoundTrip | src/network/io/binary_reader.hpp:31-44 | Signed 16-bit integers are read back in any surroundings. |
| ChunkRequest.CompletableIff | src/network/mcbe/protocol/resource_pack_chunk_request.hpp:25-33 | Some session of arriving messages completes a pack iff the pack has between 1 and 32768 chunks. |
| ChunkRequest.ArrivesIff | src/network/mcbe/protocol/resource_pack_chunk_request.hpp:25-33 | Some bytes decode to a request for an index iff the index is between -32768 and 32767. |
| ChunkRequest.RequestRoundTrip | src/network/mcbe/protocol/resource_pack_chunk_request.hpp:25-33 | A request a client encodes is decoded to its id and index, consuming exactly its bytes. |
| ChunkRequest.ResourcePackChunkRequestPacket.DecodePayload | src/network/mcbe/protocol/resource_pack_chunk_request.hpp:25-33 | Reads and parses the textual id, clears the version and reads the index, or throws. |
| Records.InfoRoundTrip | src/network/mcbe/protocol/types/packs/ResourcePackInfoEntry.hpp:24-50 | The ten-field record decodes to what was encoded and consumes exactly its bytes, in any surroundings. |
| Records.ResourcePackInfoEntry.Encode | src/network/mcbe/protocol/types/packs/ResourcePackInfoEntry.hpp:24-36 | Appends the ten fields in order. |
| Records.ResourcePackInfoEntry.Decode | src/network/mcbe/protocol/types/packs/ResourcePackInfoEntry.hpp:38-50 | Assigns the ten fields in order, or throws. |
| Records.LoginRoundTrip | src/network/mcbe/protocol/login.hpp:21-57 | The nested login request decodes to what was encoded and consumes exactly its bytes. |
| Records.LoginPacket.EncodePayload | src/network/mcbe/protocol/login.hpp:21-26 | Appends the protocol and the length-prefixed request. |
| Records.LoginPacket.DecodePayload | src/network/mcbe/protocol/login.hpp:28-47 | Reads the request with a second reader over its own bytes. |
| Records.ExperimentsRoundTrip | src/network/mcbe/protocol/types/Experiments.hpp:36-66 | Decoding merges the two toggle lists, and encoding the result gives the same bytes. |
| Records.Experiments.Encode | src/network/mcbe/protocol/types/Experiments.hpp:36-48 | Appends the total, both lists and the flag. |
| Records.Experiments.Decode | src/network/mcbe/protocol/types/Experiments.hpp:50-66 | The loop reads as many toggles as announced, all into the first list. |
| Truncation.InfoNeedsAll | src/network/mcbe/protocol/types/packs/ResourcePackInfoEntry.hpp:38-50 | No proper prefix of an encoded entry decodes. |
| Truncation.LoginNeedsAll | src/network/mcbe/protocol/login.hpp:28-47 | No proper prefix of an encoded login decodes. |
| Truncation.ExperimentsNeedAll | src/network/mcbe/protocol/types/Experiments.hpp:50-66 | No proper prefix of encoded experiments decodes. |
| Truncation.RequestNeedsAll | src/network/mcbe/protocol/resource_pack_chunk_request.hpp:25-33 | No proper prefix of an encoded chunk request decodes. |
| Vectors.InfoExample | src/network/mcbe/protocol/types/packs/ResourcePackInfoEntry.hpp:24-36 | One entry, byte by byte. |
| Vectors.LoginExample | src/network/mcbe/protocol/login.hpp:21-26 | One login, byte by byte. |
| Vectors.ExperimentsExample | src/network/mcbe/protocol/types/Experiments.hpp:36-48 | Two toggles, byte by byte. |
| Vectors.SettingsExample | src/network/mcbe/protocol/network_settings.hpp:30-38 | The framed settings packet, byte by byte. |
| Vectors.RefusalExample | src/network/session/network_session.cpp:119-129 | Both framed refusals, byte by byte. |
| Vectors.SubClientExample | src/network/mcbe/packet.cpp:14-17 | A frame with a sub-client, byte by byte. |
| Vectors.ChunkExample | src/network/mcbe/protocol/resource_pack_chunk_data.hpp:27-34 | A chunk packet, byte by byte. |
| Vectors.RequestExample | src/network/mcbe/protocol/resource_pack_chunk_request.hpp:25-33 | A chunk request, byte by byte. |
| ZipArchive.ExtractInverts | src/util/zip.hpp:38-149 | On every well-formed archive, the stored bytes and metadata of the first entry of the name; failure iff there is none; never out of bounds. |
| ZipArchive.WriteThenExtract | src/util/zip.hpp:38-149 | What a writer stored under a name is what is extracted under it. |
| ZipArchive.EndIsFound | src/util/zip.hpp:49-70 | The backward search stops at the end record and reads the directory's size and offset. |
| ZipArchive.DirectoryRoundTrip | src/util/zip.hpp:85-120 | The walk finds the first entry of the name and misses iff there is none. |
| ZipArchive.LocalRoundTrip | src/util/zip.hpp:125-148 | The hop over a local header of any extra length reaches exactly the stored bytes. |
| ZipArchive.PieceOverruns | src/util/zip.hpp:81-120 | After records of other names, a piece shorter than a header makes the walk leave the directory iff it begins with a signature. |
| ZipArchive.BareSignatureOverruns | src/util/zip.hpp:81-120 | A file of 26 bytes on which the extractor leaves the directory whatever name it looks for. |
| Zip.OutOfBoundsIff | src/util/zip.hpp:38-149 | On arbitrary bytes, the extractor leaves a buffer iff it finds a directory in which no record has the name and the records are followed by a signature with less than a header behind it. |
| Zip.OverrunIff | src/util/zip.hpp:81-120 | The same for the walk, from any position of any directory. |
| Zip.TooSmallIff | src/util/zip.hpp:45-47 | A file is too small iff it has less than 22 bytes. |
| Zip.NoEndRecordIff | src/util/zip.hpp:49-66 | No end record is found iff its signature stands nowhere in the last 65557 bytes, 22 before the end. |
| Zip.DirectoryIff | src/util/zip.hpp:68-79 | Below 4 GiB a directory is read iff the file holds it; which of the two exceptions is thrown otherwise depends on whether the 32-bit sum wraps. |
| Zip.ReadMemberIs | src/util/zip.hpp:125-148 | Every outcome for an entry, in terms of the bytes at its local header; the last exception is never thrown. |
| Zip.EntryBytes | src/util/zip.hpp:90-113 | Where the fields of a directory entry are, byte by byte. |
| Vectors.LocalExample | src/util/zip.hpp:125-148 | A local header and its data, byte by byte. |
| Vectors.CentralExample | src/util/zip.hpp:85-113 | A central header, byte by byte. |
| Vectors.EndExample | src/util/zip.hpp:56-70 | An end record, byte by byte. |
| Zip.ExtractFile | src/util/zip.hpp:38-149 | The extractor on arbitrary bytes, every index in bounds or reported as out of bounds. |
| Zip.SearchEnd | src/util/zip.hpp:56-64 | The scan returns the last end signature in the window. |
| Zip.WalkDirectory | src/util/zip.hpp:81-120 | The directory loop, with its early exits. |
| Zip.FetchMember | src/util/zip.hpp:125-148 | The local header checks in order and the data read. |
| Zip.Le16IsLE | src/util/zip.hpp:17-20 | Shift-and-or is the little-endian value. |
| Zip.Le32IsLE | src/util/zip.hpp:22-25 | The same for four bytes. |
| Properties.PropertiesRoundTripExactly | src/util/server_properties.cpp:26-32 | Parsing the printed lines returns the configuration iff name and motd contain no newline. |
| Properties.LinesRebuild | src/util/server_properties.cpp:53-80 | The printed lines determine every field, whatever the configuration they are applied to. |
| Properties.ParsedHasNoNewline | src/util/server_properties.cpp:53-80 | No file makes a parsed text contain a newline. |
| Properties.NumberRoundTrip | src/util/server_properties.cpp:65-70 | Decimal printing is undone by the number parser. |
| Properties.GameModeRoundTrip | src/network/mcbe/protocol/types/GameMode.hpp:20-83 | Every mode is recovered from its printed name by the case-insensitive lookup. |
| Properties.GameModeIff | src/network/mcbe/protocol/types/GameMode.hpp:52-80 | Which texts mean which mode, in any case and whatever the order of the tests. |
| Properties.LettersIff | src/network/mcbe/protocol/types/GameMode.hpp:40-50 | Texts are equal ignoring case iff they are letter by letter. |
| Properties.LastLine | src/util/server_properties.cpp:52-53 | A last line counts whether or not it is ended, if it is not empty. |
| Properties.LinesInTurn | src/util/server_properties.cpp:52-81 | Lines take effect one after the other, and the first that throws ends the reading. |
| Properties.IgnoredLine | src/util/server_properties.cpp:55-60 | Empty lines, comments and lines without an equals sign change nothing. |
| Properties.UnknownKey | src/util/server_properties.cpp:62-80 | Neither do unknown keys. |
| Properties.ForceIff | src/util/server_properties.cpp:79-80 | "1", "true" and "yes" force resources and nothing else does. |
| Properties.NumbersApplied | src/util/server_properties.cpp:65-70 | Ports are cut to 16 bits and the limit to 32; numbers too large throw. |
| Properties.NegativesApplied | src/util/server_properties.cpp:65-70 | A minus sign counts down from the top of the range. |
| Properties.NumberInText | src/util/server_properties.cpp:65-70 | Space before a number and other text after it do not matter; without digits there is none. |
| Properties.Load | src/util/server_properties.cpp:37-83 | A missing file yields the defaults and is written with them if it can be; one that cannot be opened yields the defaults; otherwise the lines are applied in order. |
| Properties.WriteConfig | src/util/server_properties.cpp:20-33 | Writes the seven lines. |
| Vectors.PropertiesExample | src/util/server_properties.cpp:15-33 | The seven lines of the defaults, letter by letter. |

## Left out

- RakNet peer, handler polling, MOTD and connections: the transport is an append-only list of datagrams.
- zlib, snappy, AES, SHA-256 and key agreement: parameters with stated laws; a compressor that fails is undefined behaviour in the source and has no law.
- The cipher's counters, which no constructor sets: both ends are assumed to start equal.
- JSON manifests, file hashing, directory scanning, logging (including the payload log loop in `onRaw`), commands, permissions, player lists and the packet id table.
- The info packet of the login and the payload forms of the stack and data-info packets: opaque payloads. Textual UUIDs: an abstract printer and parser.
- ChunkMath.AdvertisedIsServed: covers packs below 2^53 bytes; the size of a larger one may be rounded before it is divided.
- Wire.EndToEnd: a batch that zlib compresses must fit the 8 MiB the peer decompresses into, NetworkSettings must leave only through the settings request, and the peer's decoders must look at their own payload only.
- WireSession.Session.Route: the packet handlers are a parameter over the compression flag and a state of their own, and the packets they send are separate calls; received and decompressed buffers are smaller than 2^60 bytes. `Undefined` stands for reading an empty buffer, dereferencing an empty result or reading a checksum that is not there.
- Download.DownloadRebuildsPack: the client is not in the repository; its decoder mirrors the server's chunk encoder, and it receives the datagrams in order.
- Enumerators outside the declared ones (game mode, response status): the source gives them no meaning beyond a default branch.
- Exceptions from `send`, the cursor of a reader after an exception (every caller drops it), and the catch block around the drain loop, which resets one flag and rethrows.
- BinaryIO.BinaryReader.ReadVar: requires a buffer below 2^62 bytes and a cursor below 2^63, so that `offset + n` cannot wrap.
- Properties.Load: numbers are parsed as on platforms with a 32-bit int and a 64-bit unsigned long.
- Floats and vectors in the codec, and the two-thread race on the server's running flag.
