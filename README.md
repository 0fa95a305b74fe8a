# FieldTrip realtime-buffer header, in Dafny

This project models the header decoder of the FieldTrip realtime buffer's Java client (`Header.java`). The FieldTrip buffer server sends a header record with the acquisition metadata. The record starts with six big-endian 32-bit words: channel count, sample count, event count, sampling rate (a float), data type, and the byte length of the chunk table. The chunk table follows. Each chunk record is a kind word, a length word and that many payload bytes. Only the channel-names chunk (`CHUNK_CHANNEL_NAMES = 1`) is interpreted. Its payload is a run of zero-terminated names that fill the label array slot by slot. An empty name leaves its slot `null`.

The project has four files:

- `wire.dfy` (module `Wire`): bytes, `int32` and `uint32`, and the exceptions modelled (`BufferUnderflow`, `NegativeArraySize`, `IndexOutOfBounds`; allocation failure is not among them).
  - Big-endian word reading, with its encoder and round-trip lemmas.
  - A `ByteBuffer` class. It has the buffer's bytes up to the limit and a `position` that `GetInt`, `GetFloatBits` and `Get` advance in place.
- `channel_names.dfy` (module `ChannelNames`): what a channel-names payload means.
  - `Entries(s)` is the list of zero-terminated entries. `Pending(s)` is the unterminated run at the end.
  - `Join` is the inverse of `Entries`/`Pending`.
  - `ApplyNames(labels, es)` gives the labels after entry k has been stored in slot k, for every non-empty entry that has a slot.
- `header.dfy` (module `FieldTripHeader`): the `CHUNK_*` constants and the specification functions. `ReadPrefixAt` covers the six prefix reads, `ChunkAt` one chunk record, `Chunks` the `while (size > 0)` loop, and `DecodeRecord` the whole constructor. Each gives the result, or the exception raised together with the buffer position at which it is raised.
  - `class Header` holds the public fields and a `labels` array.
  - Its methods run the decoding constructor step by step on a `ByteBuffer`: `Decode`, `ReadPrefix`, `ReadChunks`, `ReadChunk`, and `ScanChannelNames`. `ScanChannelNames` is the inner `for` loop with its counters `n` and `len`, filling `labels` in place.
  - Each method's postcondition ties its outcome and the new buffer position and label array to the specification functions.
  - The descriptor constructor is modelled too.
- `header_properties.dfy` (module `HeaderProperties`): properties of the decoder proved over the specification functions.
  - `EncodeRecord` lays a header out on the wire. `DecodeOfEncoded` proves that decoding inverts it.
  - Other lemmas cover bounds, untouched labels, failure conditions and a worked three-channel example.

Points of `Header.java`'s behaviour that a reader might not expect, all modelled as the code has them:

- The decoder does not check that the chunk records fit the declared table length. When the records overrun it, `size` goes negative and the loop ends normally, with no exception.
- A negative table length is not an error either: the loop simply does not run.
- A negative channel count raises `NegativeArraySize` when the label array is allocated. A negative chunk length raises the same exception when the payload array is allocated.
- A record too short for the prefix and a record too short for a chunk both raise `BufferUnderflow`.
- The channel index `n` advances at every zero byte, including the one that ends an empty entry. It does not advance only for completed labels.
- The buffer's position is advanced by every read that succeeded before an exception, and the model records where it stops.
- With zero channels the early `break` never fires, so the first non-empty name makes the store `labels[n] = …` throw `IndexOutOfBounds`, where `n` is the number of zero bytes before that name's terminator. `ZeroChannelsNamedFails` states this.

## Model

| member | source | states |
|---|---|---|
| `Wire.ByteBuffer.GetInt` | matlab/fieldtrip-20101107/realtime/buffer/java/nl/fcdonders/fieldtrip/Header.java:28-30 | with four bytes left: the big-endian two's-complement word at the position, position +4; otherwise an underflow with the position unchanged |
| `Wire.ByteBuffer.GetFloatBits` | matlab/fieldtrip-20101107/realtime/buffer/java/nl/fcdonders/fieldtrip/Header.java:31 | the float read yields the raw 32-bit pattern at the position and advances it by 4, or underflows leaving it |
| `Wire.ByteBuffer.Get` | matlab/fieldtrip-20101107/realtime/buffer/java/nl/fcdonders/fieldtrip/Header.java:39-40 | a bulk read into an `n`-byte array yields exactly the next `n` bytes and moves the position past them, or underflows with the position unchanged |
| `Wire.Uint32At` | matlab/fieldtrip-20101107/realtime/buffer/java/nl/fcdonders/fieldtrip/Header.java:31 | the word read at `p` lies in the band of 2^24 values whose top byte is `data[p]` (big-endian order) |
| `Wire.Int32At` | matlab/fieldtrip-20101107/realtime/buffer/java/nl/fcdonders/fieldtrip/Header.java:28-33 | the signed word read at `p` is negative exactly when its first, most significant byte has the top bit set |
| `Wire.Int32AtBytes` | matlab/fieldtrip-20101107/realtime/buffer/java/nl/fcdonders/fieldtrip/Header.java:28-33 | reading back the four big-endian bytes of any signed word gives that word |
| `Wire.Uint32AtBytes` | matlab/fieldtrip-20101107/realtime/buffer/java/nl/fcdonders/fieldtrip/Header.java:31 | reading back the four big-endian bytes of any unsigned word gives that word |
| `Wire.BytesOfUint32At` | matlab/fieldtrip-20101107/realtime/buffer/java/nl/fcdonders/fieldtrip/Header.java:31 | the other direction: encoding the word read at `p` gives back the four bytes read, so word reading loses nothing |
| `ChannelNames.Pending` | matlab/fieldtrip-20101107/realtime/buffer/java/nl/fcdonders/fieldtrip/Header.java:51-54 | the run after the last zero byte is zero-free, no longer than the payload, and preceded by a zero byte when it is shorter than the payload |
| `ChannelNames.Entries` | matlab/fieldtrip-20101107/realtime/buffer/java/nl/fcdonders/fieldtrip/Header.java:45-49 | the entries the terminators close contain no zero byte |
| `ChannelNames.ApplyNames` | matlab/fieldtrip-20101107/realtime/buffer/java/nl/fcdonders/fieldtrip/Header.java:43-54 | storing names never changes the number of label slots |
| `ChannelNames.JoinEntries` | matlab/fieldtrip-20101107/realtime/buffer/java/nl/fcdonders/fieldtrip/Header.java:43-54 | every payload is its terminated entries, each followed by a zero byte, then the unterminated tail: the cut into entries loses no byte |
| `ChannelNames.EntriesJoin` | matlab/fieldtrip-20101107/realtime/buffer/java/nl/fcdonders/fieldtrip/Header.java:43-54 | packing zero-free entries and a zero-free tail, then cutting, gives back exactly those entries and that tail |
| `ChannelNames.EntriesCount` | matlab/fieldtrip-20101107/realtime/buffer/java/nl/fcdonders/fieldtrip/Header.java:45-50 | there is one entry per zero byte of the payload, the count the scan's index `n` keeps |
| `ChannelNames.EntryAtTerminator` | matlab/fieldtrip-20101107/realtime/buffer/java/nl/fcdonders/fieldtrip/Header.java:45-49 | the zero byte at `pos` ends entry number (zero bytes before `pos`), and that entry is the run of `len` bytes just before `pos` |
| `ChannelNames.NameAtTerminator` | matlab/fieldtrip-20101107/realtime/buffer/java/nl/fcdonders/fieldtrip/Header.java:44-48 | when a zero byte at `pos` ends a run of `len > 0` non-zero bytes, the label of slot n (n = zero bytes before `pos`) is exactly `payload[pos-len..pos)`; an empty run leaves slot n as it was |
| `ChannelNames.ApplyNamesAt` | matlab/fieldtrip-20101107/realtime/buffer/java/nl/fcdonders/fieldtrip/Header.java:46-48 | slot k ends up holding entry k if that entry exists and is non-empty, and keeps its previous label otherwise |
| `ChannelNames.ApplyNamesKeeps` | matlab/fieldtrip-20101107/realtime/buffer/java/nl/fcdonders/fieldtrip/Header.java:46-49 | a slot with no entry or an empty entry keeps its label, and no slot ever becomes the empty name |
| `ChannelNames.ShortPayloadKeepsTail` | matlab/fieldtrip-20101107/realtime/buffer/java/nl/fcdonders/fieldtrip/Header.java:44-54 | with fewer terminators than channels, every slot from the terminator count on keeps its label; this is not a failure |
| `ChannelNames.TrailingRunIgnored` | matlab/fieldtrip-20101107/realtime/buffer/java/nl/fcdonders/fieldtrip/Header.java:51-54 | bytes after the last zero byte add no entry: a name without terminator is never stored |
| `ChannelNames.AfterLastSlotIgnored` | matlab/fieldtrip-20101107/realtime/buffer/java/nl/fcdonders/fieldtrip/Header.java:50 | once a prefix of the payload has as many terminators as there are channels, whatever follows changes no label |
| `ChannelNames.ApplyNamesPrefix` | matlab/fieldtrip-20101107/realtime/buffer/java/nl/fcdonders/fieldtrip/Header.java:50 | entries past the last label slot change nothing, so stopping after the `nChans`-th terminator loses nothing |
| `FieldTripHeader.ApplyChunk` | matlab/fieldtrip-20101107/realtime/buffer/java/nl/fcdonders/fieldtrip/Header.java:42-57 | a chunk keeps the number of labels, and a chunk of any kind other than channel names leaves the labels as they were |
| `FieldTripHeader.ReadPrefixAt` | matlab/fieldtrip-20101107/realtime/buffer/java/nl/fcdonders/fieldtrip/Header.java:28-33 | the six prefix reads succeed exactly when 24 bytes remain and then end 24 bytes on; otherwise they throw `BufferUnderflow` at a position with fewer than four bytes left, never behind the start |
| `FieldTripHeader.Chunks` | matlab/fieldtrip-20101107/realtime/buffer/java/nl/fcdonders/fieldtrip/Header.java:36-59 | the `while (size > 0)` loop never moves the position backwards or past the end of the buffer, and on success keeps the number of labels |
| `FieldTripHeader.DecodeRecord` | matlab/fieldtrip-20101107/realtime/buffer/java/nl/fcdonders/fieldtrip/Header.java:27-60 | the decoding constructor stays inside the buffer; on success it has read at least the 24-byte prefix, the channel count is non-negative and there are exactly `nChans` labels |
| `FieldTripHeader.AllAbsent` | matlab/fieldtrip-20101107/realtime/buffer/java/nl/fcdonders/fieldtrip/Header.java:34 | a freshly allocated label array of length `n` has every entry `null` |
| `FieldTripHeader.PrefixWordsRead` | matlab/fieldtrip-20101107/realtime/buffer/java/nl/fcdonders/fieldtrip/Header.java:28-33 | when the prefix does not fit, the reads consume whole words, as many as fit, and the one that throws finds fewer than four bytes |
| `FieldTripHeader.ChunkAt` | matlab/fieldtrip-20101107/realtime/buffer/java/nl/fcdonders/fieldtrip/Header.java:37-57 | one chunk record never moves the position backwards or past the buffer end, and on success it consumes exactly 8 + the payload length |
| `FieldTripHeader.ChunkAtOk` | matlab/fieldtrip-20101107/realtime/buffer/java/nl/fcdonders/fieldtrip/Header.java:37-58 | a record whose words and payload are present and whose names fit yields its payload length and the labels its chunk leaves, at the position after its payload |
| `FieldTripHeader.Header.Descriptor` | matlab/fieldtrip-20101107/realtime/buffer/java/nl/fcdonders/fieldtrip/Header.java:62-69 | the descriptor has the given channel count, rate and data type, zero samples and events, and a fresh array of `nChans` labels, all `null` |
| `FieldTripHeader.Header.NewDescriptor` | matlab/fieldtrip-20101107/realtime/buffer/java/nl/fcdonders/fieldtrip/Header.java:62-69 | the descriptor constructor fails with `NegativeArraySize` exactly when the channel count is negative, and otherwise yields that descriptor |
| `FieldTripHeader.Header.Decoded` | matlab/fieldtrip-20101107/realtime/buffer/java/nl/fcdonders/fieldtrip/Header.java:28-34 | the fields take the prefix values read, and the label array is fresh, of length `nChans`, all `null` |
| `FieldTripHeader.Header.ReadPrefix` | matlab/fieldtrip-20101107/realtime/buffer/java/nl/fcdonders/fieldtrip/Header.java:28-33 | the six reads give the words at offsets 0, 4, 8, 12, 16, 20 and advance the position by 24, or underflow at the first word that does not fit |
| `FieldTripHeader.Header.ScanChannelNames` | matlab/fieldtrip-20101107/realtime/buffer/java/nl/fcdonders/fieldtrip/Header.java:42-54 | the in-place scan succeeds exactly when the names fit the label array. On success the array holds the labels `ApplyNames` gives for the payload's entries. On failure the array is unchanged |
| `FieldTripHeader.Header.ReadChunk` | matlab/fieldtrip-20101107/realtime/buffer/java/nl/fcdonders/fieldtrip/Header.java:37-57 | one loop iteration's outcome, new position and new labels are those `ChunkAt` specifies |
| `FieldTripHeader.Header.ReadChunks` | matlab/fieldtrip-20101107/realtime/buffer/java/nl/fcdonders/fieldtrip/Header.java:36-59 | the `while (size > 0)` loop's outcome, final position and labels are those `Chunks` specifies. The 32-bit `size -= 8 + chunkSize` never wraps |
| `FieldTripHeader.Header.Decode` | matlab/fieldtrip-20101107/realtime/buffer/java/nl/fcdonders/fieldtrip/Header.java:27-60 | the decoding constructor's header, or its exception, and the position it leaves are those `DecodeRecord` specifies. A new header has `labels.Length == nChans` |
| `FieldTripHeader.ScanNonZero` | matlab/fieldtrip-20101107/realtime/buffer/java/nl/fcdonders/fieldtrip/Header.java:51-52 | a non-zero byte lengthens the current run and changes no entry and no label |
| `FieldTripHeader.TerminatorStored` | matlab/fieldtrip-20101107/realtime/buffer/java/nl/fcdonders/fieldtrip/Header.java:45-49 | the store at a zero byte, or its absence for an empty run, leaves the labels the entries scanned so far spell; with no channels every entry so far is empty |
| `FieldTripHeader.ScanTerminator` | matlab/fieldtrip-20101107/realtime/buffer/java/nl/fcdonders/fieldtrip/Header.java:45-50 | after the `nChans`-th terminator the labels are final for the whole payload; otherwise the scan state holds one more entry and an empty run |
| `FieldTripHeader.LastSlotNamed` | matlab/fieldtrip-20101107/realtime/buffer/java/nl/fcdonders/fieldtrip/Header.java:50 | when the scanned prefix already has an entry for every slot, the labels it spells are those of the whole payload |
| `FieldTripHeader.ScanOutOfBounds` | matlab/fieldtrip-20101107/realtime/buffer/java/nl/fcdonders/fieldtrip/Header.java:46-47 | a store that finds no slot happens only with zero channels and a non-empty name, which is exactly when the names do not fit |
| `FieldTripHeader.ScanDone` | matlab/fieldtrip-20101107/realtime/buffer/java/nl/fcdonders/fieldtrip/Header.java:44 | a scan that reaches the end of the payload without stopping has stored every name, and the names fit |
| `HeaderProperties.ChunksFacts` | matlab/fieldtrip-20101107/realtime/buffer/java/nl/fcdonders/fieldtrip/Header.java:36-59 | the chunk loop stays inside the buffer. It returns at once when the table size is not positive. On success it has consumed at least the declared size and changed labels only to non-empty names |
| `HeaderProperties.ChunkAtWrites` | matlab/fieldtrip-20101107/realtime/buffer/java/nl/fcdonders/fieldtrip/Header.java:42-57 | one chunk keeps the label count and writes only non-empty names |
| `HeaderProperties.ChunkAtUnderflow` | matlab/fieldtrip-20101107/realtime/buffer/java/nl/fcdonders/fieldtrip/Header.java:37-40 | an iteration underflows if and only if the buffer ends inside the two header words or inside the payload the length word announces |
| `HeaderProperties.ChunkAtNegative` | matlab/fieldtrip-20101107/realtime/buffer/java/nl/fcdonders/fieldtrip/Header.java:37-39 | an iteration throws `NegativeArraySize` if and only if both header words are present and the length word is negative, and then stops right after the two words |
| `HeaderProperties.DecodeNegative` | matlab/fieldtrip-20101107/realtime/buffer/java/nl/fcdonders/fieldtrip/Header.java:28-34 | a complete prefix with a negative channel count throws `NegativeArraySize` at the allocation of the label array, right after the 24-byte prefix |
| `HeaderProperties.OtherChunkSkipped` | matlab/fieldtrip-20101107/realtime/buffer/java/nl/fcdonders/fieldtrip/Header.java:55-57 | a chunk of any kind other than channel names changes no label and cannot overrun the label array |
| `HeaderProperties.DecodeFacts` | matlab/fieldtrip-20101107/realtime/buffer/java/nl/fcdonders/fieldtrip/Header.java:27-60 | on success the fields are the words at offsets 0, 4, 8, 12, 16, there are `nChans >= 0` labels, the position is at least 24 + table size past the start, a non-positive table leaves every label `null`, and every label not written by a name scan is `null`. A buffer under 24 bytes underflows |
| `HeaderProperties.EncodedPrefix` | matlab/fieldtrip-20101107/realtime/buffer/java/nl/fcdonders/fieldtrip/Header.java:28-33 | the prefix of an encoded record reads back as the six values written, ending at byte 24 |
| `HeaderProperties.EncodedChunkHead` | matlab/fieldtrip-20101107/realtime/buffer/java/nl/fcdonders/fieldtrip/Header.java:37-40 | the first record of an encoded table reads back as its kind, its length and its payload, followed by the rest of the table |
| `HeaderProperties.ChunkAtEncoded` | matlab/fieldtrip-20101107/realtime/buffer/java/nl/fcdonders/fieldtrip/Header.java:37-58 | decoding the first encoded record whose names fit yields its payload length and the labels its chunk leaves |
| `HeaderProperties.EncodedSize` | matlab/fieldtrip-20101107/realtime/buffer/java/nl/fcdonders/fieldtrip/Header.java:36-58 | an encoded chunk table is exactly 8 bytes plus the payload length per record long |
| `HeaderProperties.EncodedRecords` | matlab/fieldtrip-20101107/realtime/buffer/java/nl/fcdonders/fieldtrip/Header.java:37-40 | an encoded chunk table found in a buffer holds its records back to back, each with its kind word, length word and payload where the loop reads them |
| `HeaderProperties.ChunksOfRecords` | matlab/fieldtrip-20101107/realtime/buffer/java/nl/fcdonders/fieldtrip/Header.java:36-59 | records laid back to back, filling exactly the declared table size and whose names fit, are all applied in order, and the loop ends right after them |
| `HeaderProperties.ChunksOfEncoded` | matlab/fieldtrip-20101107/realtime/buffer/java/nl/fcdonders/fieldtrip/Header.java:36-59 | a table encoded with exactly its declared size decodes to every chunk applied in order and ends right after the table |
| `HeaderProperties.DecodeOfEncoded` | matlab/fieldtrip-20101107/realtime/buffer/java/nl/fcdonders/fieldtrip/Header.java:27-60 | decoding an encoded record gives back its fields and the labels its name chunks spell into an all-`null` array, stops right after the record, and leaves trailing bytes unread |
| `HeaderProperties.ThreeNames` | matlab/fieldtrip-20101107/realtime/buffer/java/nl/fcdonders/fieldtrip/Header.java:43-54 | the payload "Fp1\0Fp2\0\0" names three empty slots `Fp1`, `Fp2` and leaves the third `null` |
| `HeaderProperties.ThreeChannelExample` | matlab/fieldtrip-20101107/realtime/buffer/java/nl/fcdonders/fieldtrip/Header.java:27-60 | a three-channel record whose name chunk is "Fp1\0Fp2\0\0" decodes to labels `Fp1`, `Fp2`, `null` after reading its 41 bytes |
| `HeaderProperties.ZeroChannelsNamedFails` | matlab/fieldtrip-20101107/realtime/buffer/java/nl/fcdonders/fieldtrip/Header.java:46-50 | with zero channels, a name chunk with a non-empty terminated name makes decoding throw `IndexOutOfBounds` after the chunk's payload has been read |

## Left out

- Allocation failure: `new String[nChans]` (line 34) and `new byte[chunkSize]` (line 39) take their sizes from the record, and Java can fail them with `OutOfMemoryError`. This is not modelled: every array of non-negative size is assumed to allocate. A huge `chunkSize` in a short buffer is therefore modelled as `BufferUnderflow`, where the JVM may instead run out of memory first.
- Byte order: words are read big-endian, `ByteBuffer`'s default. A caller that switches the buffer to little-endian is not modelled.
- `fSample` is kept as the raw 32-bit pattern of the float. Floating-point interpretation is out of scope.
- Labels are kept as the raw bytes of each name. The platform-charset decoding done by `new String(bytes, offset, length)` is a foreign call and is not modelled.
- The payloads of the other chunk kinds (channel flags, resolutions, key/value text, NIfTI-1, Siemens AP, CTF res4) are read and discarded, exactly as the code does; what they mean is not modelled.
- `ByteBuffer` is modelled by its bytes up to the limit and its position. Capacity, mark, byte-order state, direct buffers, and the buffer's offset into a backing array are left out.
- Java `int` wrap-around in `size -= 8 + chunkSize` is not modelled as wrapping. A buffer holds at most 2^31 - 1 bytes, and `ReadChunks` proves the subtraction stays in the 32-bit range, so no wrap can happen.
- FieldTripHeader.Header.Descriptor: requires `nChans >= 0`, because Dafny cannot allocate a negative-length array. `NewDescriptor` models the `NegativeArraySizeException` that Java raises for a negative count.
- FieldTripHeader.Header.Decoded: requires `nChans >= 0`. `Decode` checks the count and raises `NegativeArraySize` before calling it, as the allocation on line 34 does.
- When the decoding constructor throws, Java's half-built object is unreachable. The model returns the exception and the buffer position and no object.
- Serialization: `Header.java` has none. `EncodeRecord` exists only so that the decoder's correctness can be stated as a round trip, and it is not part of the modelled code.
- Callers assigning the public fields after construction (for example, filling labels of a descriptor) is outside the two constructors and is not modelled.
