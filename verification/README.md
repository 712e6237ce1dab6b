# Verification of the streaming server's core

A Dafny model of the parts of the server whose correctness rests on what the code does not say.

**Erasure code** (`Bits` to `RoundTrip`). The library in C that repairs lost packets: arithmetic over
the field of 256 elements, the tables, the loops over bytes and over SIMD registers, the Cauchy matrix,
encoding, and decoding by Gaussian elimination in place and without pivoting. `Bits`, `ShiftMul`, `Gf256`,
`GfTables` and `Inverses` are the field, from exclusive or upwards; only the tables are checked entry by
entry. `Vectors`, `Elimination`, `Cauchy` and `ErasureCode` say on values what the library computes and why
it is right: subtraction is addition, the entries that are left after k pivots have a closed form that is
never zero, and every elimination step keeps the linear system true. `Memory`, `Oblas`, `FlatRows`, `Shards`
and `ReedSolomon` are the code itself, on arrays, with pointers into buffers that may be shared; each method
is proved to compute what the specification on values says. `LibraryMatrix` says what the parity of the library
is without naming the matrix, and `RoundTrip` puts encoding, damage and decoding together.

**Packets** (`WireFormat`, `PacketNumbers`, `AudioMatrix`, `Audio`, `VideoHeader`, `VideoFrame`, `VideoFec`,
`VideoColumns`, `VideoStream`, `VideoWire`, `VideoBuffer`, `VideoPayloader`). The two elements that cut audio and video into RTP packets and
add parity packets. Audio has groups of four packets and two of parity over a 16-bit counter, with a matrix of
its own. Video cuts a frame into payloads, one block or three of them, and each block gets parity unless it
would be too large. The theorems are about whole runs: numbers, groups, and frames that come back after
losses; and about the wire: `VideoWire` and parts of `Audio` say byte by byte what a receiver finds.

**State machines** (`Gamepad`, `Pairing`, `PairingClient`) and **messages** (`Peg`, `Rtsp`, `RtspText`): the Back
button that becomes Home when held, seen from the device; pairing by PIN over any interleaving of atomic steps, and
with a client that follows the protocol; and RTSP messages read by their grammar, as they are printed and as clients
write them.

Where a promised property does not hold of the code for all inputs, one lemma says exactly when it does and
another names an input for which it does not:

- room for every repair: `RoundTrip.RoomForEveryLoss`; `RoundTrip.NoRoomForTwo`
- the shortcut for the coefficient 0: `Oblas.ShortcutAgrees`; `Oblas.ZeroIsSkipped`
- the packed header fields: `VideoHeader.FecInfoFields`; `VideoHeader.LargePercentageIsNotRead`
- the number of parity packets that the receiver computes: `VideoFec.ParityIsRecomputed`; `VideoFec.LargeBlockIsNot`
- the percentage in its eight bits: `VideoFec.PercentageFits`; `VideoFec.ThreeForOneDoesNotFit`
- the header of every packet of a block: `VideoFec.HeaderIsRead`; `VideoFec.ThreeForOneIsNotRead`
- consecutive numbers without error correction: `VideoStream.CounterStands`; `VideoStream.TwoFramesAlike`
- the stream index and the sequence number: `VideoStream.StreamIndexLags`; `VideoStream.SecondBlockLags`
- every firing of Home a new press: `Gamepad.FiringIsSeen`; `Gamepad.SecondFiringIsNotSeen`
- the same text after reading and printing: `Rtsp.SameText`; `Rtsp.WordIsLost`

`VideoFrame.JoinedIsFrame` also has a condition, because it is about payloads of any width; no payload size that the
element accepts violates it (`VideoStream.FrameIsJoined`).

What the library expects of its callers and the model states as preconditions: shards do not overlap each other
or the buffer of the codec; for decoding, when too few shards survive, the marks have a zero behind the last shard
(the scan in rs.c:150 tests the mark before the bound) and no shard behind those of the codec is unmarked (its row
is not in the matrix); and when enough survive, the buffer behind the matrix has gaps * gaps + gaps - 1 bytes (rs.c:60
scales W bytes from the diagonal on). Video payloads are larger than the 16 bytes that the code subtracts and at most
the 10240 of the property; audio packets have at most 1400 bytes.

The field operations are hidden behind a constant so that proofs use their laws only; `Gf256.AddDefinition` and
`Gf256.MulDefinition` say what they are.

## Model

| member | source | states |
|---|---|---|
| `Gf256.MulAssoc` | server/src/moonlight-protocol/nanors-upstream/deps/obl/gf2_8_tables.h:1 | Multiplication modulo polynomial 285 is associative. |
| `Gf256.MulComm` | server/src/moonlight-protocol/nanors-upstream/deps/obl/gf2_8_tables.h:1 | It is commutative. |
| `Gf256.MulAdd` | server/src/moonlight-protocol/nanors-upstream/deps/obl/gf2_8_tables.h:1 | It distributes over exclusive or, from both sides. |
| `Inverses.NoZeroDivisors` | server/src/moonlight-protocol/nanors-upstream/deps/obl/gf2_8_tables.h:1 | No product of non-zero bytes is zero. |
| `GfTables.LogIsLogarithm` | server/src/moonlight-protocol/nanors-upstream/deps/obl/gf2_8_tables.h:7-25 | For every non-zero byte the logarithm table is below 255 and is the exponent of 2 that gives the byte, and the inverse table holds the complementary power. |
| `GfTables.ExpIsPower` | server/src/moonlight-protocol/nanors-upstream/deps/obl/gf2_8_tables.h:27-60 | All 510 entries of the exponential table are the powers of 2. |
| `GfTables.LogExpProduct` | server/src/moonlight-protocol/nanors-upstream/deps/obl/oblas_lite.c:4-12 | For every pair of non-zero bytes the index LOG[a] + LOG[b] lies in the table and the entry there is the field product. |
| `GfTables.LogExpMul` | server/src/moonlight-protocol/nanors-upstream/deps/obl/oblas_lite.c:4-12 | The table form of multiplication equals the field product for all pairs, zero included. |
| `Inverses.TableOfInverses` | server/src/moonlight-protocol/nanors-upstream/deps/obl/gf2_8_tables.h:62-80 | The inverse table is the inverse of the field on non-zero bytes, and zero for zero. |
| `Inverses.MulInv` | server/src/moonlight-protocol/nanors-upstream/deps/obl/gf2_8_tables.h:62-80 | A non-zero byte times its table entry is one. |
| `Oblas.NibbleProductIsScale` | server/src/moonlight-protocol/nanors-upstream/deps/obl/oblas_lite.c:167-185 | Two shuffles by the low and the high nibbles, combined, multiply every byte of a register by u; register width and coefficient are arbitrary. |
| `Oblas.XorBytes` | server/src/moonlight-protocol/nanors-upstream/deps/obl/oblas_lite.c:229-232 | The exclusive-or loop adds 1 times b to a and changes nothing else in the buffer of a. |
| `Oblas.MulAddBytes` | server/src/moonlight-protocol/nanors-upstream/deps/obl/oblas_lite.c:32-38 | The scalar loop adds u times b to the k bytes of a, in place, and changes nothing else; a and b may lie in one buffer. |
| `Oblas.MulBytes` | server/src/moonlight-protocol/nanors-upstream/deps/obl/oblas_lite.c:40-47 | The scalar loop multiplies the k bytes of a by u in place. |
| `Oblas.MulAddRegisters` | server/src/moonlight-protocol/nanors-upstream/deps/obl/oblas_lite.c:167-185 | Whole registers of 16, 32 or 64 bytes and the scalar loop for the rest give exactly what the scalar loop alone gives, for every length and coefficient. |
| `Oblas.MulRegisters` | server/src/moonlight-protocol/nanors-upstream/deps/obl/oblas_lite.c:167-185 | The same for multiplication in place. |
| `Oblas.OblAxpy` | server/src/moonlight-protocol/nanors-upstream/deps/obl/oblas_lite.c:227-236 | The entry point adds u times b for every u and every instruction set; its shortcut for u = 1 does not show. |
| `Oblas.OblScal` | server/src/moonlight-protocol/nanors-upstream/deps/obl/oblas_lite.c:238-241 | The entry point multiplies by u for every instruction set. |
| `Oblas.Axpy` | server/src/moonlight-protocol/nanors-upstream/rs.c:10-22 | Skipping u = 0 and adding for u = 1 agree with adding u times b. |
| `Oblas.Scal` | server/src/moonlight-protocol/nanors-upstream/rs.c:24-29 | The bytes are multiplied by u, except that u = 0 leaves them as they are. |
| `Oblas.ShortcutAgrees` | server/src/moonlight-protocol/nanors-upstream/rs.c:24-29 | Leaving the bytes alone is multiplying by u exactly when u is one or the bytes are zero, so the shortcut for u = 0 is only right on zeroes. |
| `Oblas.ZeroIsSkipped` | server/src/moonlight-protocol/nanors-upstream/rs.c:24-29 | A byte for which they do not agree. |
| `Cauchy.LiveStep` | server/src/moonlight-protocol/nanors-upstream/rs.c:58-67 | The closed form of a live entry after k pivots becomes the one after k + 1 pivots by one elimination step. |
| `Cauchy.CauchyIsRegular` | server/src/moonlight-protocol/nanors-upstream/rs.c:58-67 | Elimination without pivoting meets no zero pivot, for every choice of rows and columns of a Cauchy matrix. |
| `ErasureCode.CauchyCorrectsAllLosses` | server/src/moonlight-protocol/nanors-upstream/rs.c:98-102 | Every square selection of surviving rows and erased columns of the matrix INV[(ps + i) ^ j] is regular. |
| `Elimination.ForwardKeeps` | server/src/moonlight-protocol/nanors-upstream/rs.c:58-67 | After any number of forward steps the matrix applied to the erased shards still gives the contents of their buffers. |
| `Elimination.ForwardClears` | server/src/moonlight-protocol/nanors-upstream/rs.c:58-67 | The forward steps leave ones on the diagonal and zeroes below it. |
| `Elimination.BackwardSolves` | server/src/moonlight-protocol/nanors-upstream/rs.c:68-74 | The backward steps leave the erased shards themselves. |
| `Elimination.SolutionIsCorrect` | server/src/moonlight-protocol/nanors-upstream/rs.c:58-74 | Both passes together give every solution of a system with a regular matrix. |
| `FlatRows.DiagonalScaled` | server/src/moonlight-protocol/nanors-upstream/rs.c:60 | Scaling W bytes from the diagonal entry on scales row x although it runs into the next row: it reaches only zeroes there, and only bytes of the buffer. |
| `ErasureCode.ResidualsFromCopies` | server/src/moonlight-protocol/nanors-upstream/rs.c:51-57 | Taking the kept shards out of the copied parity shards gives the right-hand sides of the system. |
| `ErasureCode.RepairRestoresData` | server/src/moonlight-protocol/nanors-upstream/rs.c:128-162 | Whatever the marked shards hold, decoding restores every data shard and leaves the parity shards alone. |
| `ErasureCode.LossesAllowed` | server/src/moonlight-protocol/nanors-upstream/rs.c:148-158 | As many data shards are lost as parity shards survive, or fewer, exactly when at most ps of all shards are lost. |
| `Vectors.CombineColumns` | server/src/moonlight-protocol/nanors-upstream/rs.c:31-40 | Encoding does not mix byte columns: cutting off columns and encoding can be exchanged. |
| `ErasureCode.EncodedIsLinear` | server/src/moonlight-protocol/nanors-upstream/rs.c:31-40 | Encoding is linear in the data: the parity of xs + u * ys is that of xs plus u times that of ys. |
| `ReedSolomon.Codec.NewStatic` | server/src/moonlight-protocol/nanors-upstream/rs.c:82-105 | There is a codec exactly when the counts are positive, add up to at most 255 and the buffer is long enough; the entry for data shard i and parity shard j, in the matrix and in the buffer, is the inverse of ps + i with j exclusively or-ed into it. |
| `ReedSolomon.Codec.New` | server/src/moonlight-protocol/nanors-upstream/rs.c:107-120 | The same in a buffer of the size that the library computes. |
| `LibraryMatrix.ParityOfOne` | server/src/moonlight-protocol/nanors-upstream/rs.c:98-105 | When data shard i alone has a one, the byte of parity shard j, times ps + i with j exclusively or-ed into it, is one. |
| `LibraryMatrix.ParityOfOneByte` | server/src/moonlight-protocol/nanors-upstream/rs.c:98-105 | One data byte of value 1 and two parity shards: the parity bytes are 142 and 244. |
| `ReedSolomon.Codec.Gemm` | server/src/moonlight-protocol/nanors-upstream/rs.c:31-40 | The parity shards become the products of the matrix with the data shards; the data shards and any further ones stay. |
| `ReedSolomon.Codec.Encode` | server/src/moonlight-protocol/nanors-upstream/rs.c:164-170 | Encoding fails without a change when shards are missing and otherwise appends the parity. |
| `ReedSolomon.Codec.FillWork` | server/src/moonlight-protocol/nanors-upstream/rs.c:46-50 | The work area behind the matrix holds the selected rows and columns, and the matrix itself stays. |
| `ReedSolomon.Codec.TakeOutAll` | server/src/moonlight-protocol/nanors-upstream/rs.c:51-57 | Every erased shard has the kept shards taken out of it, row by row of the matrix. |
| `ReedSolomon.Codec.ForwardPass` | server/src/moonlight-protocol/nanors-upstream/rs.c:58-67 | The work area and the shards go through the states of the forward elimination together. |
| `ReedSolomon.Codec.BackwardPass` | server/src/moonlight-protocol/nanors-upstream/rs.c:68-74 | The shards go through the states of the backward elimination. |
| `ReedSolomon.Codec.InvertMat` | server/src/moonlight-protocol/nanors-upstream/rs.c:42-76 | In place, the erased shards become the solution of the system and no other shard changes. |
| `ReedSolomon.Codec.FindErasures` | server/src/moonlight-protocol/nanors-upstream/rs.c:137-139 | The erasures are exactly the marked data shards, in order. |
| `ReedSolomon.Codec.NextKeptShard` | server/src/moonlight-protocol/nanors-upstream/rs.c:141-142 | The inner scan finds the next unmarked data shard and stays in range. |
| `ReedSolomon.Codec.FindKept` | server/src/moonlight-protocol/nanors-upstream/rs.c:140-144 | The first columns are exactly the unmarked data shards, in order. |
| `ReedSolomon.Codec.FillColumns` | server/src/moonlight-protocol/nanors-upstream/rs.c:140-146 | The columns are the kept shards followed by the erased ones. |
| `ReedSolomon.Codec.NextParityShard` | server/src/moonlight-protocol/nanors-upstream/rs.c:150-153 | The scan finds the next unmarked parity shard, or stops at the number of shards when there is none. |
| `ReedSolomon.Codec.CopyAll` | server/src/moonlight-protocol/nanors-upstream/rs.c:148-156 | The rows are the first surviving parity rows and their shards are copied over the erased ones, as far as they last. |
| `ReedSolomon.Codec.Decode` | server/src/moonlight-protocol/nanors-upstream/rs.c:128-162 | Decoding returns 0 exactly when there are shards enough and enough of them survive, and then the shards are the repaired ones; otherwise it returns -1. Either way only marked data shards change, and none when there are too few shards. |
| `RoundTrip.DecodeDamaged` | server/src/moonlight-protocol/nanors-upstream/rs.c:128-162 | Encoded shards of which the marked ones were damaged in any way: decoding returns 0 and gives back all data, for every matrix that corrects all losses. |
| `RoundTrip.EncodeEraseDecode` | server/tests/unit/test_fec.cpp:29-55 | Encode, overwrite the marked shards with anything, decode: the data comes back, with any codec that can decode the marks. |
| `RoundTrip.RoomForEveryLoss` | server/src/moonlight-protocol/nanors-upstream/rs.c:60 | When enough shards survive, a codec that the library made can decode exactly unless all of the data is lost and there is as much parity as data, more than one shard of each. |
| `RoundTrip.NoRoomForTwo` | server/src/moonlight-protocol/nanors-upstream/rs.c:60 | Two data shards, both lost, and two of parity: enough survive, but the buffer is too small for the repair. |
| `RoundTrip.LibraryRoundTrip` | server/src/moonlight-protocol/nanors-upstream/rs.c:107-170 | Make a codec, encode, overwrite the marked shards with anything, decode: the data comes back for all counts, sizes, contents and marks that leave enough parity, save the one case without room. |
| `RoundTrip.LibraryEncode` | server/src/moonlight-protocol/nanors-upstream/rs.c:107-126 | The same about shards in memory: a codec made and run on data with a one in shard i alone leaves these inverses in the parity shards. |
| `AudioMatrix.RegularOfTwo` | server/src/gst-plugin/gstrtpmoonlightpay_audio.hpp:13-15 | Two rows are regular in the order of the code when the first entry and the determinant are not zero. |
| `AudioMatrix.AudioCorrectsAllLosses` | server/src/gst-plugin/gstrtpmoonlightpay_audio.hpp:8-15 | With the replacement matrix any selection of surviving parity rows for lost columns is regular. |
| `ReedSolomon.Codec.SetMatrix` | server/src/gst-plugin/gstrtpmoonlightpay_audio.cpp:120-122 | Copying other bytes over the matrix makes it the matrix that these bytes hold. |
| `Audio.AudioPayloader.constructor` | server/src/gst-plugin/gstrtpmoonlightpay_audio.cpp:109-123 | The initial element: no packets, counter zero, encryption on, 5 ms, six separate buffers, the replacement matrix. |
| `Audio.NumberModulo` | server/src/gst-plugin/audio.hpp:98 | Groups of four do not straddle the point where the 16-bit counter starts again. |
| `Audio.AudioPayloader.ParityPackets` | server/src/gst-plugin/audio.hpp:108-131 | The two parity packets follow the group: their headers, and the parity of the payloads. |
| `Audio.AudioPayloader.SplitIntoRtp` | server/src/gst-plugin/audio.hpp:32-136 | Each call emits one data packet, given byte by byte: version, type 97, number, time, and the buffer, encrypted under that number exactly when encryption is on. After exactly every fourth follow two parity packets of type 127 over exactly the last four, their headers byte by byte; all this stays right for every call of the history, across the wrap of the counter. |
| `Audio.EveryPacketOpens` | server/src/gst-plugin/audio.hpp:80-95 | Whoever can decipher gets the buffer of every call of the history back, with the number that the header carries, and needs no key for calls without encryption. |
| `Audio.HeadersOnWire` | server/src/gst-plugin/audio.hpp:51-78 | Number, shard index, and first number and time of the group in the header of each parity packet. |
| `Audio.ParityByteIs` | server/src/gst-plugin/gstrtpmoonlightpay_audio.cpp:117-122 | Every parity byte is the sum of four products with the eight coefficients of the replacement matrix. |
| `Audio.PlacesInGroup` | server/src/gst-plugin/audio.hpp:65-71 | The advertised first number is that of the first packet of the group, so every data packet finds its place, also where numbers wrap. |
| `Audio.GroupRecovers` | server/src/gst-plugin/audio.hpp:108-131 | From the payload columns alone, any two of the six packets of a group can be lost and the payloads come back. |
| `Audio.AudioCanDecode` | server/src/gst-plugin/gstrtpmoonlightpay_audio.cpp:117-122 | With the audio matrix a codec of four and two shards can decode whenever enough shards survive; there is room for two losses. |
| `Audio.DecodeGroup` | server/src/moonlight-protocol/nanors-upstream/rs.c:128-162 | Decoding the payload columns of a group in place, with any two packets lost, returns 0 and gives the payloads. |
| `Audio.ParityOfPayloads` | server/src/gst-plugin/audio.hpp:118-125 | The parity of whole packets behind the header is the parity of the payloads. |
| `VideoHeader.FecInfoFields` | server/src/gst-plugin/video.hpp:141 | Shard number, data shards and percentage come back from the packed word exactly when they fit ten, ten and eight bits. |
| `VideoHeader.LargePercentageIsNotRead` | server/src/gst-plugin/video.hpp:141 | A percentage of 300 does not come back. |
| `VideoHeader.PlaceIsRead` | server/src/gst-plugin/video.hpp:132-148 | The receiver reads the place of a packet and the block fields back from the header. |
| `VideoHeader.NumberWithFecInfo` | server/src/gst-plugin/video.hpp:132-148 | Updating the header sets the sequence number and changes nothing behind the header. |
| `VideoFrame.JoinedIsFrame` | server/src/gst-plugin/video.hpp:76-130 | Joining the payloads, cutting the last one to the length in the short header and dropping that header gives back the frame exactly when that length fits 16 bits, with padding and without. |
| `VideoStream.FrameIsJoined` | server/src/gst-plugin/video.hpp:76-130 | With the payload sizes of the element that always is so. |
| `VideoFrame.LastPayloadLenIs` | server/src/gst-plugin/video.hpp:91-95 | The length in the short header is that of the last payload exactly when it fits 16 bits. |
| `VideoFrame.JoinAll` | server/src/gst-plugin/video.hpp:104-130 | The payloads joined are the frame and the padding of the last one. |
| `VideoStream.DataPacketsAreEven` | server/src/gst-plugin/video.hpp:104-130 | There is at least one packet, all but the last have the block size that error correction counts on, and with padding the last one has it too. |
| `VideoFec.ParityIsRecomputed` | server/src/gst-plugin/video.hpp:157-172 | Applying the parity formula to the advertised percentage gives back the number of parity packets exactly when the percentage was not raised, or its division dropped less than a hundred. |
| `VideoFec.SmallBlocksAreRecomputed` | server/src/gst-plugin/video.hpp:157-172 | So it always does for up to a hundred data packets. |
| `VideoFec.LargeBlockIsNot` | server/src/gst-plugin/video.hpp:157-172 | A block of 101 data packets for which it does not. |
| `VideoFec.PercentageFits` | server/src/gst-plugin/video.hpp:163-166 | The percentage fits eight bits exactly when it was not raised or 100 * required < 256 * packets. |
| `VideoFec.ThreeForOneDoesNotFit` | server/src/gst-plugin/video.hpp:163-166 | Three required packets for one data packet give 300 percent, which does not. |
| `VideoFec.HeaderIsRead` | server/src/gst-plugin/video.hpp:132-148 | The receiver reads the place of every packet of a block right exactly under that condition. |
| `VideoFec.SplitIs` | server/src/gst-plugin/video.hpp:152-174 | The parity is the least number that is neither below the percentage nor below what is required; the percentage is raised exactly when it alone gives too few. |
| `VideoFec.ThreeForOneIsNotRead` | server/src/gst-plugin/video.hpp:132-148 | In that block no packet is read right. |
| `VideoFec.DefaultIsRead` | server/src/gst-plugin/gstrtpmoonlightpay_video.cpp:119-120 | The default of two required packets satisfies it for every block. |
| `VideoFec.TotalGrows` | server/src/gst-plugin/video.hpp:157-172 | More data packets never need a smaller block. |
| `VideoFec.CutsPartition` | server/src/gst-plugin/video.hpp:259-268 | The blocks are consecutive, cover all packets, none is empty and none is larger than one before it. |
| `VideoFec.CutsAreBlocks` | server/src/gst-plugin/video.hpp:264-268 | The bounds that the loop over three blocks computes are these. |
| `VideoFec.ThreeBlocksNonEmpty` | server/src/gst-plugin/video.hpp:264-268 | Three blocks are all non-empty exactly for three packets or at least five, so always where the code makes three. |
| `VideoFec.BlockIsCodeword` | server/src/gst-plugin/video.hpp:211-246 | Although headers are rewritten after encoding, the columns of the emitted packets from byte 32 on are a codeword. |
| `VideoFec.BlockRecovers` | server/src/gst-plugin/video.hpp:175-250 | Dropping any packets of a block, no more than its parity, leaves the receiver the payload of every data packet. |
| `VideoColumns.HeaderByteIsCoded` | server/src/gst-plugin/video.hpp:132-148 | The bytes of the header that are not rewritten after encoding are a codeword too, byte by byte. |
| `VideoColumns.HeaderByteRecovers` | server/src/gst-plugin/video.hpp:132-148 | So after any bearable loss the receiver has type, stream index and flags of every data packet of the block. |
| `VideoStream.BlocksAreNumbered` | server/src/gst-plugin/video.hpp:253-286 | The packets of a frame carry consecutive numbers through one block or three, with and without skipped error correction. |
| `VideoStream.SkippedBefore` | server/src/gst-plugin/video.hpp:187-194 | A block without error correction never follows one that has it. |
| `VideoStream.BlockInFrame` | server/src/gst-plugin/video.hpp:253-286 | The packets of every block are in the frame, behind those of the blocks before it. |
| `VideoStream.RunIsNumbered` | server/src/gst-plugin/video.hpp:288-308 | With error correction on, the packets of every run of frames carry consecutive numbers modulo 2^16. |
| `VideoStream.RunNext` | server/src/gst-plugin/video.hpp:288-308 | The next frame of a run carries the number of frames before it modulo 2^32 and goes on behind the packets before it. |
| `VideoStream.CounterStands` | server/src/gst-plugin/video.hpp:288-308 | Without it the counter stands still: the packets of a run carry consecutive numbers if and only if every frame but the last has error correction, or a number of packets, computed from its length, that goes round 2^16. |
| `VideoStream.TwoFramesAlike` | server/src/gst-plugin/video.hpp:288-308 | Two frames of one packet each without error correction: both packets have the same number. |
| `VideoStream.StreamIndexLags` | server/src/gst-plugin/video.hpp:55-56 | The stream index in a data packet agrees with its sequence number in the first block, and in a later one exactly when the block before it, by its number of packets, is too large for error correction. |
| `VideoStream.SecondBlockLags` | server/src/gst-plugin/video.hpp:55-56 | In the second of three blocks under the default properties they do not agree. |
| `VideoStream.FrameRecovers` | server/src/gst-plugin/video.hpp:288-308 | End to end: from every frame whose blocks lose no more packets than they have parity, decoding and joining give back the frame. |
| `VideoWire.FrameOnWire` | server/src/gst-plugin/video.hpp:77-130 | The payloads of a frame, joined: 1, 0, 0, the kind of the frame, the length of the last payload, 0, 0, then the frame, then zeroes up to whole payloads if there is padding. |
| `VideoWire.PacketOnWire` | server/src/gst-plugin/video.hpp:42-72 | Every packet of every frame with error correction, byte by byte, from the length of the frame and the properties alone: version, number, frame number, block of three or of one with 2 as the last of three, place in the block, number of data packets, and percentage if eight bits hold it; and for data packets the type, stream index, flags for picture data, start and end of the frame, and payload. |
| `VideoWire.SkippedPacketOnWire` | server/src/gst-plugin/video.hpp:191-200 | The same for blocks that have more than 255 packets with parity: their packets go out as they were cut. |
| `VideoWire.PlainPacketOnWire` | server/src/gst-plugin/video.hpp:42-72 | And for frames without error correction. |
| `VideoBuffer.Unfold` | server/src/gst-plugin/utils.hpp:54-64 | The buffer is the packets one after the other. |
| `VideoBuffer.PaddingIs` | server/src/gst-plugin/video.hpp:196-199 | The zeroes that are added fill the last packet up to its shard, and are added exactly when it is short. |
| `VideoBuffer.EncodeBlock` | server/src/gst-plugin/video.hpp:196-212 | The stretches of the buffer are the padded packets and their Cauchy parity. |
| `VideoBuffer.DecodeBlock` | server/src/moonlight-protocol/nanors-upstream/rs.c:128-162 | Decoding the payload columns of a block in place, with no more packets lost than it has parity, gives the payloads of all data packets, save the one case without room. |
| `VideoPayloader.GenerateRtpPackets` | server/src/gst-plugin/video.hpp:104-130 | The loop cuts, pads and numbers the data packets. |
| `VideoPayloader.GenerateFecPackets` | server/src/gst-plugin/video.hpp:175-250 | The result is the block with its parity, or the packets unchanged when there are more than 255. |
| `VideoPayloader.Payloader.GenerateFecMultiBlocks` | server/src/gst-plugin/video.hpp:253-286 | The three blocks in order, and the counter behind them modulo 2^32. |
| `VideoPayloader.Payloader.SplitIntoRtp` | server/src/gst-plugin/video.hpp:288-308 | Each call emits the packets of its frame, counts the frame and keeps the counter that of the whole run. |
| `Gamepad.VirtualGamepad.Update` | server/src/server/uinput.cpp:282-351 | State and all events of one packet, buttons and axes in order, and the history of all. |
| `Gamepad.MovesInRange` | server/src/server/uinput.cpp:246-258 | The axis values of a packet lie in the ranges that the device was created with, also the mirrored y axes, for which the extra -1 is needed. |
| `Gamepad.OneOutcome` | server/src/server/uinput.cpp:301-323 | Every completed hold of Back has exactly one outcome, a tap at its end or one firing of Home; it is Home if and only if some packet saw Back held 750 ms after the press. |
| `Gamepad.FiresWhen` | server/src/server/uinput.cpp:317-323 | Home fires at the first packet that sees this, and at no other. |
| `Gamepad.TapsWhen` | server/src/server/uinput.cpp:307-315 | Back is tapped when a hold ends that was never long, and at no other time. |
| `Gamepad.HoldOnDevice` | server/src/server/uinput.cpp:301-323 | On the device: while a hold of Back lasts, Back is not set; when it ends and no packet saw it 750 ms after the press, Back is pressed, reported, let go and reported, and otherwise not set, and Home went down during the hold. |
| `Gamepad.BackOnlyThen` | server/src/server/uinput.cpp:307-315 | The device is told about Back by no other packet. |
| `Gamepad.HomeDownWhen` | server/src/server/uinput.cpp:324-326 | Synthesised Home is down from its latest firing to the first packet at least 120 ms later. |
| `Gamepad.BackIsUp` | server/src/server/uinput.cpp:328-336 | The device has Back up after every packet of every run. |
| `Gamepad.HomeIsPressed` | server/src/server/uinput.cpp:332-335 | The device has Home down after a packet exactly if the controller has, or while a firing lasts. |
| `Gamepad.HomeOnDevice` | server/src/server/uinput.cpp:317-335 | The same from the flags and times of the packets alone: bit 10 of the latest, or a hold of bit 5 that became 750 ms long less than 120 ms before every packet since. |
| `Gamepad.ButtonsOnDevice` | server/src/server/uinput.cpp:282-351 | Nine buttons of the device are down exactly when their bits are set in the latest packet. |
| `Gamepad.AxesOnDevice` | server/src/server/uinput.cpp:282-351 | Hat, sticks and triggers of the device have the values of the latest packet, and its events end with a report. |
| `Gamepad.FiringIsSeen` | server/src/server/uinput.cpp:317-326 | A firing reaches the device as a new press exactly when the controller's Home button was up and a packet has ended the firing before it. |
| `Gamepad.FirstFiringIsSeen` | server/src/server/uinput.cpp:317-326 | The first firing of all only has to find the controller's own Home button up. |
| `Gamepad.SecondFiringIsNotSeen` | server/src/server/uinput.cpp:317-326 | Two holds so close that the second firing is no new press. |
| `Pairing.PhaseDetermines` | server/src/server/servers.cpp:190-271 | The phase of an entry is one of three and determines which of secret, challenge and hash are set. |
| `Pairing.OutOfOrderForgets` | server/src/server/servers.cpp:138-240 | A request out of order is rejected, removes the entry of its client and changes nothing else. |
| `Pairing.SilentWhen` | server/src/server/servers.cpp:190-272 | A request gets no answer exactly when its client has an entry and it carries nothing that the phase of the entry takes. |
| `Pairing.KeyDetermines` | server/src/server/servers.cpp:140 | Clients have the same entry exactly when name and address are the same. |
| `Pairing.HandledKeeps` | server/src/server/servers.cpp:124-272 | A pairing request, with whatever parameters in whatever state, keeps the invariant of the whole server. |
| `Pairing.EnterPinKeeps` | server/src/server/servers.cpp:288-306 | So does entering a PIN. |
| `Pairing.SendCertKeeps` | server/src/server/servers.cpp:164-187 | So does a thread that got its PIN. |
| `Pairing.GiveUpKeeps` | server/src/server/servers.cpp:167-173 | So does a thread whose time is over. |
| `Pairing.ApplyKeeps` | server/src/server/servers.cpp:124-324 | So does every step. |
| `Pairing.HistoriesGrow` | server/src/server/servers.cpp:124-324 | A step rewrites no history and adds at most one event, to one attempt, and only the event that such a step causes: a request the values it carries, a PIN the one for the secret of the attempt, a thread its own. |
| `Pairing.HistoryOnlyGrows` | server/src/server/servers.cpp:124-324 | Over every run the history of an attempt is a prefix of what it is later. |
| `Pairing.EventOnce` | server/src/server/servers.cpp:124-324 | Over every run no event of an attempt happens twice. |
| `Pairing.EventsHaveSteps` | server/src/server/servers.cpp:124-324 | Over every run the events of an attempt come from steps of that run, in the same order. |
| `Pairing.SecretUsedOnce` | server/src/server/servers.cpp:288-306 | Over every run two PINs are taken for one secret only if the secret was drawn by two different requests before. |
| `Pairing.OnePinPerAddress` | server/src/server/servers.cpp:149-161 | In every run at most one PIN is pending for an address. |
| `Pairing.ChallengeUsedOnce` | server/src/server/servers.cpp:190-271 | Over every run two final checks use one challenge only if it was issued by two different requests before. |
| `Pairing.PairedOnlyAfterPin` | server/src/server/servers.cpp:124-272 | In every run a certificate is paired only if it was before, or six steps of the run happened in this order: a first request with it, the PIN for the secret of that request, its thread going on, and the three later requests of the same client. The secret of the last one, hashed with the challenge and the signature of the certificate, is what the response decrypts to under the key of salt and PIN, and is signed by the certificate. |
| `Pairing.HonestStart` | server/src/server/servers.cpp:138-188 | The first request, its PIN and its thread, when nobody disturbs them, leave the entry with the key from salt and PIN. |
| `Pairing.HonestEnd` | server/src/server/servers.cpp:190-271 | From there the other three requests, whatever they carry, pair the client exactly when the secret is long enough, its hash with challenge and certificate is the decrypted response, and its signature is that of the certificate; no entry is left. |
| `Pairing.ClientPairsWhen` | server/src/server/moonlight_proto.cpp:130-165 | The final check succeeds exactly under these three conditions. |
| `PairingClient.SameKey` | server/src/server/moonlight_proto.cpp:70-95 | A client that hashes its salt with the PIN it shows has the key that the server keeps for it. |
| `PairingClient.SecondAnswer` | server/src/server/moonlight_proto.cpp:97-116 | The answer to its challenge opens, under that key, to the hash of challenge, certificate and secret of the server, and to the challenge of the server. |
| `PairingClient.HonestClientPairs` | server/src/server/servers.cpp:124-306 | A client that follows the protocol, with the PIN that the user enters, is convinced that the server knew the PIN, has all its requests accepted, and ends up paired; decryption is only assumed to undo encryption. |
| `Pairing.PairingServer.HttpPair` | server/src/server/servers.cpp:124-272 | The handler does what the request means in the state it finds, and answers it. |
| `Pairing.PairingServer.StartAttempt` | server/src/server/servers.cpp:138-188 | A first request removes the entry of a client that has one, and otherwise makes the new secret the only pending one of its address. |
| `Pairing.PairingServer.ErasePending` | server/src/server/servers.cpp:149-154 | Exactly the pending PINs of the address are forgotten. |
| `Pairing.PairingServer.NextPhase` | server/src/server/servers.cpp:199-271 | Phases 2, 3 and 4 of a client with an entry, in order or rejected. |
| `Pairing.PairingServer.LastPhase` | server/src/server/servers.cpp:241-271 | The final check decides state and answer, the entry goes either way; the branch for a request out of order is never taken here. |
| `Pairing.PairingServer.PostPin` | server/src/server/servers.cpp:288-306 | A PIN is taken exactly when its secret is pending, and the secret is gone afterwards. |
| `Pairing.PairingServer.WakeThread` | server/src/server/servers.cpp:164-187 | With a PIN the thread makes the entry and sends the certificate, without one it gives up. |
| `Pairing.PairingServer.Unpair` | server/src/server/servers.cpp:308-317 | The certificate of the client's entry is no longer paired, all others stay. |
| `Pairing.Without` | server/src/server/state.cpp:202-205 | Exactly the given certificate is missing. |
| `Pairing.WithoutKeepsOrder` | server/src/server/state.cpp:202-205 | All others stay, in order and as often as they occurred. |
| `Rtsp.ToString` | server/src/moonlight-protocol/rtsp/parser.hpp:185-216 | The loops write the text of the packet. |
| `Rtsp.HeadOf` | server/src/moonlight-protocol/rtsp/parser.hpp:72-98 | A printed request or response line is read back as it was; a response is not taken for a request. |
| `Rtsp.OptionsOf` | server/src/moonlight-protocol/rtsp/parser.hpp:104-107 | Printed options are read back, each with its value. |
| `Rtsp.RoundTrip` | server/src/moonlight-protocol/rtsp/parser.hpp:66-216 | A packet whose fields lie in their alphabets and whose payloads have keys is read back exactly as it was printed, in whatever order its options are listed. |
| `Rtsp.SameText` | server/tests/unit/test_rtsp.cpp:71-80 | With payloads that have no key the packet is still read, and printing it again gives the same text exactly when each of their values is itself a key, an equals sign and a value without leading blanks. |
| `Rtsp.WordIsLost` | server/tests/unit/test_rtsp.cpp:71-80 | A payload that is a word without a key is not read back. |
| `Rtsp.PayloadsOf` | server/src/moonlight-protocol/rtsp/parser.hpp:110-112 | Otherwise the second text is shorter. |
| `RtspText.PrintedLines` | server/src/moonlight-protocol/rtsp/parser.hpp:185-216 | What is printed are exactly these lines, each with a carriage return and a newline: command, target and RTSP/1.0, or RTSP/1.0, code and message; the number; a line for each option; an empty one; a line for each payload. |
| `RtspText.LineEndsDoNotMatter` | server/src/moonlight-protocol/rtsp/parser.hpp:114-116 | A message, valid or not, reads the same without the carriage returns in front of its newlines. |
| `RtspText.AnyEndsReadAlike` | server/src/moonlight-protocol/rtsp/parser.hpp:114-116 | Whichever lines end with a carriage return and a newline, and which with a newline only, the message reads the same. |
| `RtspText.AnyEndsAreRead` | server/tests/unit/test_rtsp.cpp:71-80 | A packet in its alphabets is read back from its lines with ends of either kind in any mixture. |
| `RtspText.SlashWithAnyEnds` | server/src/moonlight-protocol/rtsp/parser.hpp:81-83 | With / for its target a request is read as one with an empty address, also with any ends. |
| `RtspText.NumbersAreRead` | server/src/moonlight-protocol/rtsp/parser.hpp:133-150 | Sequence numbers, ports and codes are read as they are up to the largest of their types, and as zero beyond. |
| `RtspText.CharactersOfValues` | server/src/moonlight-protocol/rtsp/parser.hpp:104-112 | Which single characters are keys, values of options, and values of payloads. |
| `RtspText.DigitsOf` | server/src/moonlight-protocol/rtsp/parser.hpp:185-198 | Numbers are printed in base ten without zeroes in front. |

## Left out

- Memory.Ptr: buffers are arrays with positions; the alignment of pointers is not modelled.
- Oblas.NibbleProductIsScale: the shuffle tables are taken to hold the products of a coefficient with the sixteen low and high nibbles, and the 65536-entry multiplication table the field product; their literals are not checked.
- Oblas.MulAddRegisters: the choice of the instruction set is a parameter; the dispatch in rswrapper.c, `obl_swap` and `obl_axpyb32` are not modelled.
- ReedSolomon.Codec.Decode: a call with more shards than the codec has, too few of them surviving and one behind them unmarked, is not modelled, because the code then uses a row that is not in the matrix; nor is a failing `malloc`.
- ReedSolomon.Codec.InvertMat: the permutations are passed as sequences, and bytes of indices as numbers.
- Audio.AudioPayloader.SplitIntoRtp: the cipher is an arbitrary function of payload and packet number; a group whose earlier packets are shorter than its last one gets the parity of what the buffers hold, which the contract leaves open.
- Audio.GroupRecovers: bytes of a packet behind the length of the last packet of its group are not covered by parity.
- VideoBuffer.Unfold: GStreamer buffers are byte sequences and lists are sequences of them; header updates give new sequences instead of changing shared memory, and timestamps are not modelled.
- VideoFrame.Packets: the ceiling over `float` is exact integer division.
- VideoHeader.FecInfo: shifts beyond 31 bits wrap modulo 2^32.
- VideoPayloader.Payloader.SplitIntoRtp: log messages are not modelled.
- Gamepad.VirtualGamepad.Update: the clock is a parameter; log messages and the device itself are not modelled.
- Pairing.PairingServer.WakeThread: the 180 seconds that a thread waits are not modelled, it may give up at any time before its PIN is entered.
- Gamepad.HomeDownWhen: nothing is said about the time between packets, because the code only looks when a packet comes.
- Pairing.HandledKeeps: handlers and threads are atomic steps; the locks inside them are not modelled.
- Pairing.PairingServer.HttpPair: AES, SHA-256, signatures and certificates are arbitrary functions, random values are parameters; of the XML of the replies only the values are modelled, and the reasons of rejections carry fewer details.
- Pairing.PairingServer.Unpair: certificate files on disk are not modelled.
- Rtsp.Parse: the fields of the kind of packet that was not read, which actions of abandoned alternatives may set, are not modelled; the grammar has the usual meaning with blanks skipped after tokens and literals, cpp-peglib itself is not part of this model.
- Rtsp.ToString: the order in which a map lists its keys is a parameter.
- Sockets, ENet, HTTP and TLS, udev, the launcher, configuration files and XML are wrappers over libraries and not modelled.
- Session registry, bitrate arithmetic and key tables would only add easy members.
