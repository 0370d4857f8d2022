# Slate106 file transfer over Bluetooth: a Dafny model

The program on the Raspberry Pi sends files to a Slate106 device with an embedded Kermit engine that
runs over a Bluetooth Low Energy serial service, which in turn is built on BlueZ's ATT and GATT
code. This project models the parts in which correctness spans many functions and whole sequences of
events, and proves what they are for. Each module models one component; where the C code works by
changing fields, arrays or linked nodes, the module has a class or method of the same form, proved
against a specification function, and the theorems are about that function.

## Kermit

- `KermitCodec`, `KermitPackets`, `KermitPacketiser`, `KermitDecoder`: the data-field encoding
  (control prefixing, run lengths up to 236 with one byte of lookahead) and its division into
  packets, `getpkt` and `encode` in place over `xdata` and `s_remain`, `kreadfile` with its refills,
  `decode` over a dirty buffer. Every packet decodes by itself and the packets together are the
  file.
- `KermitCheck`, `KermitFrame`, `KermitParse`, `KermitRoundTrip`, `KermitRefusals`: the three block
  checks, `spkt`, the `kreadpkt` loop and the parser. A frame comes back out of noise as it went in;
  damage to two neighbouring bytes never passes the CRC, and a single bit none of the checks.
  `KermitWireForms` says what all this looks like on the wire, byte for byte.
- `SequenceNumbers`, `ReceiveWindow`, `KermitReceiver`, `KermitReceivingSide`, `SendWindow`,
  `KermitSender`, `SendRetries`: the slot tables of both sides with sequence numbers modulo 64, for
  windows of 1 to 31. The specifications work on absolute packet numbers; the classes work on
  wrapped numbers, slots, `r_pw`, `s_pw`, `ipktinfo` and `opktinfo`.
- `KermitLink`, `KermitWire`, `KermitDelivery`, `KermitRuns`, `KermitTransfer`, `KermitOvertaking`,
  `KermitAnswers`, `KermitProgress`, `KermitCompletion`: both sides joined by two lines that carry
  bytes and may lose any frame, or damage it into bytes the parser refuses or reads as before, from
  the first data packet to the acknowledged end-of-file packet. The invariant labels every frame
  under way with its absolute number. The main theorems go from file to file and from negotiation to
  file. `KermitOvertaking` says exactly when a closed file is complete, `KermitAnswers` which
  packets go out for what the line delivers, `KermitProgress` and `KermitCompletion` that the
  transfer can still be completed: with a window of one always, with any window as long as the file
  is open.
- `KermitNegotiation`: `spar` and `rpar`, and what the two sides agree on.

## ATT and GATT

- `Gatt`, `GattDiscovery`, `GattGroupRequests`: the client's Read By Group Type loop against the
  server's responses.
- `GattLongValue`, `GattLongValueOps`, `GattAccess`: long writes and long reads, client and server
  together, and what the server refuses. `GattForms`: the messages byte for byte.
- `GattDb`, `GattDatabase`, `GattRanges`: the handle database, and the client's list of handle
  ranges still to be discovered.
- `Att`, `AttRuns`, `AttProtocol`, `AttAnswers`, `AttTransport`: the request scheduler as a state
  machine over events, its invariants over all sequences of events, and the class whose methods are
  the C functions.

## Feeders

- `FileCrc`: the CRC-32 of a file. `LinkedQueue`: BlueZ's queue on the heap. `MldpFifo`: the byte
  FIFO and the transmit loop. `Bytes`, `KermitBytes`: shared byte strings and constants.

## Where the code differs from what it says or intends

- The repeat prefix is accepted from 33 to 62, 96 to 126 and 204, which includes the control prefix
  35 (`kermit.c:1338-1345`). With that choice files are corrupted; `FaithfulIff`.
- Negotiation accepts packets of ten bytes, which leave no room for data. `getpkt` then returns 0
  for the first byte, which is taken for the end of the file (`kermit.c:1877`, `1951-1968`,
  `2001-2005`); `FaithfulIff`, `SomeFileIsCut`, `NothingGoesOut`.
- The line reader takes a new packet start for no more than a flag and keeps what it has stored
  (`unixio_rpi.c:274-279`), so a frame behind one that was cut short is lost; `ReaderFindsFrameIff`.
- `chk2` is described as a 12-bit check but is not masked, while twelve bits travel; the parser
  compares the full sum (`kermit.c:1004-1018`, `2829-2857`). `FrameRoundTripCheck2` gives the exact
  condition, `Check2Refuses` such a frame.
- With a window above one the end-of-file packet is sent while data packets wait, and the receiver
  closes the file when it comes; `ClosedIsCompleteIff` and `EndOvertakesData`.
- The search for old packets compares an unwrapped counter with a wrapped limit; `SearchIsRightIff`
  says for which numbers this matters, `StrayIsTakenForOld` gives one, and `ArrivalIsNear` says that
  none of them comes.
- `find_insert_loc` does not notice a new range that strictly contains an old one;
  `InsertKeepsSortedIff`, `AroundAService`.
- Clearing a database to empty sets the next handle to 0, which is not a handle and is handed out
  next; `ClearKeepsSorted`, `EmptiedHandsOutZero`.
- A stored write behind the end of a non-empty value leaves the gap as the allocator gave it;
  `WriteIsDeterministicIff`.
- The length of a stored value and of joined prepared pieces is a 16-bit number that wraps around
  (`gatt-db.c:1916-1929`, `gatt-server.c:1203-1222`); `WrittenAtIff`, `WriteWrapsAround`,
  `JoinedIsWholeIff`, `JoiningWrapsAround`.
- The limit of the prepare queue is also applied to pieces that would join the last entry, so a
  limit of one refuses every second piece; `LongWriteIsOneWrite`, `OneEntryIsTooFew`.
- A long read that starts beyond 512 bytes and inside the value computes a negative remainder in 16
  bits and returns memory behind the response as part of the value (`gatt-client.c:2803-2804`);
  `LongReadIsValueIff`, `LongReadAt600`.
- `remove_discov_range` looks for the range that holds the start only; `RemovedIsDifferenceIff`,
  `ReachingOverFails`.
- `foreach_service_in_range` compares the group type first with a service's own UUID, so a service
  whose own UUID is 0x2800 or 0x2801 is selected whatever its kind (`gatt-db.c:1270-1289`);
  `SelectionIsKindIff`, `SecondaryIsSelected`.
- `can_write_data` takes a negative result of the write for success; only a result of 0 fails the
  operation (`att.c:500-550`); `FailedWriteIsReportedIff`, `FailedWritesAreInvisible`,
  `LostRequest`, `LostCommand`.

## Model

| member | source | states |
|---|---|---|
| KermitTransfer.TransferIsSafe | raspberry_pi-bluez_server_file_transfer/src/libe_kermit/kermit.c:3180-3314 | End to end, for every file, window 1 to 31, block check 1 or 3 and every order of losses, delays, retransmissions and of damage after which the parser finds no packet or still the same one (two frames run together among it): what has been decoded while the file is open is a prefix of the file sent; once the sender has its end-of-file packet acknowledged, the receiver has closed the file and decoded exactly the file; with a window of one, a closed file is always exactly the file |
| KermitTransfer.FileSetupIsValid | raspberry_pi-bluez_server_file_transfer/src/libe_kermit/kermit.c:1877-1889 | The packetiser never makes a data field the link could not carry: all are non-empty, clean and short enough for the receiver's packet buffer |
| KermitTransfer.NegotiatedTransferIsSafe | raspberry_pi-bluez_server_file_transfer/src/libe_kermit/kermit.c:1283-1499 | From the reinitialised state to the file: with whatever window, sizes, block checks and repeat prefix the two sides start, the transfer under the settings they negotiate is safe in the sense above, as long as the prefix is not the control prefix, the block check is not of type 2 and a packet has room for the longest step |
| KermitProgress.SomeRunCompletes | raspberry_pi-bluez_server_file_transfer/src/libe_kermit/kermit.c:3180-3340 | Progress: with a window of one, every sequence of steps after which the sender has neither given up nor repeated its packet as often as it may can be continued until the sender is done and the receiver has the whole file |
| KermitCompletion.OpenFileCanComplete | raspberry_pi-bluez_server_file_transfer/src/libe_kermit/kermit.c:3180-3340 | Progress at every window size: every sequence of steps after which the file is open and the sender is at work and may send each packet of its window once more can be continued until the sender is done and the receiver has the whole file |
| KermitProgress.NeverStops | raspberry_pi-bluez_server_file_transfer/src/libe_kermit/kermit.c:3731-3841 | With a window of one no sequence of steps brings the receiver a packet that makes it stop |
| KermitPackets.PacketsAreFaithful | raspberry_pi-bluez_server_file_transfer/src/libe_kermit/kermit.c:1863-1988 | For every file, with runs of any length and every packet size with room for the longest step: each packet's data field decodes by itself, is not empty, is free of NUL, packet start and packet end, and is at most the bound, with run lengths one byte more; the decoded packets in order are exactly the file |
| KermitPackets.FaithfulIff | raspberry_pi-bluez_server_file_transfer/src/libe_kermit/kermit.c:1338-1345 | All files survive encoding, division into packets and decoding if and only if the room in a packet is at least four bytes with run lengths, two without, and the negotiated repeat prefix is not the control prefix; negotiation accepts both a smaller packet and that prefix |
| KermitPackets.SomeFileIsCut | raspberry_pi-bluez_server_file_transfer/src/libe_kermit/kermit.c:1951-1987 | With less room a file of three NULs, one NUL without run lengths, goes out as no packet at all |
| KermitPackets.NothingGoesOut | raspberry_pi-bluez_server_file_transfer/src/libe_kermit/kermit.c:1995-2005 | When the room is 0 or negative, as for packets of ten bytes with block check 3, every file goes out empty, because an empty data field is taken for the end of the file |
| KermitPackets.FillIsGood | raspberry_pi-bluez_server_file_transfer/src/libe_kermit/kermit.c:1894-1987 | Every filled packet ends on an item boundary, loses nothing (packet, leftovers and remaining steps are the input), is at most one byte over the bound, with less room left than the longest step unless the file ends, leaves at most one step over, and is empty only at the end of the file |
| KermitPackets.SizeBoundIsTight | raspberry_pi-bluez_server_file_transfer/src/libe_kermit/kermit.c:1877-1970 | With run lengths, at every packet size with room, some file makes a data field exactly one byte longer than the bound |
| KermitPackets.RunsDecode | raspberry_pi-bluez_server_file_transfer/src/libe_kermit/kermit.c:2066-2155 | The run-length and prefix encoding of any run followed by any bytes consists of whole items and decodes to that run and those bytes |
| KermitPackets.DecodeAppend | raspberry_pi-bluez_server_file_transfer/src/libe_kermit/kermit.c:1515-1638 | Decoding is compositional: two strings of whole items decode to their decodings in order |
| KermitPackets.DecodeIgnoresStaleBytes | raspberry_pi-bluez_server_file_transfer/src/libe_kermit/kermit.c:1536-1545 | Bytes of the previous packet behind the terminator never change what is decoded |
| KermitPackets.TurnMeaning | raspberry_pi-bluez_server_file_transfer/src/libe_kermit/kermit.c:1939-1975 | One turn of the packet loop with one byte of lookahead does to the packet what the next step of the whole encoding does, including the turn that only counts and the two-byte run that may be split |
| KermitPacketiser.Packetiser.GetPkt | raspberry_pi-bluez_server_file_transfer/src/libe_kermit/kermit.c:1863-1988 | In place over `xdata` and `s_remain`, at every packet size the negotiation accepts: the data field, the leftovers and the unread part of the file are what filling one packet prescribes; the length fits the buffer |
| KermitPacketiser.Packetiser.Encode | raspberry_pi-bluez_server_file_transfer/src/libe_kermit/kermit.c:2066-2155 | Either only counts one more byte of a run, or appends exactly the closing step of the run behind what the packet held, and puts `osize` at the place where the packet may be cut |
| KermitPacketiser.Packetiser.ReadFile | raspberry_pi-bluez_server_file_transfer/src/libe_kermit/unixio_rpi.c:375-432 | Delivers the next unread byte, whatever the refill boundaries, and -1 exactly at the end of the file |
| KermitPacketiser.Packetiser.Refill | raspberry_pi-bluez_server_file_transfer/src/libe_kermit/unixio_rpi.c:399-427 | A refill neither loses nor reorders unread bytes and returns 0 only at the end of the file |
| KermitPacketiser.PacketiseFile | raspberry_pi-bluez_server_file_transfer/src/libe_kermit/kermit.c:3502-3558 | Calling the packetiser until it returns 0 yields exactly the packets of the file, at every packet size; with room for the longest step, decoded in order they give the file back |
| KermitWireForms.CtlFlipsOneBit | raspberry_pi-bluez_server_file_transfer/inc/libe_kermit/kermit.h:413 | The control prefix makes a byte printable, and back, by exclusive or with 64 |
| KermitWireForms.QuoteForm | raspberry_pi-bluez_server_file_transfer/src/libe_kermit/kermit.c:2123-2148 | NUL, packet start and packet end travel as "#@", "#S" and "#M", the prefixes behind a "#", every other byte as it is |
| KermitWireForms.ReservedFormIff | raspberry_pi-bluez_server_file_transfer/src/libe_kermit/kermit.c:1571-1600 | Exactly these strings, of those without a repeat prefix, decode to the three reserved bytes |
| KermitWireForms.PrefixedForm | raspberry_pi-bluez_server_file_transfer/src/libe_kermit/kermit.c:1585-1599 | Behind the control prefix a byte is turned back when its low seven bits are "@", "S" or "M", and taken as it is otherwise |
| KermitWireForms.RepeatForm | raspberry_pi-bluez_server_file_transfer/src/libe_kermit/kermit.c:1573-1604 | A repeat count is read as the byte less 19; 0 counts as 1 |
| KermitWireForms.RunForm | raspberry_pi-bluez_server_file_transfer/src/libe_kermit/kermit.c:2072-2112 | A run of one or two equal bytes travels as such, one of 3 to 236 as the repeat prefix, the count plus 19 and the byte |
| KermitWireForms.LongRunForm | raspberry_pi-bluez_server_file_transfer/src/libe_kermit/kermit.c:2075-2088 | A longer run is cut after 236 bytes |
| KermitWireForms.LoneForm | raspberry_pi-bluez_server_file_transfer/src/libe_kermit/kermit.c:2114-2150 | A byte that starts no run travels by itself, in front of the rest of the file |
| KermitDecoder.OutputFile.Decode | raspberry_pi-bluez_server_file_transfer/src/libe_kermit/kermit.c:1515-1638 | Appends to the output file what the memory stands for up to the NUL at an item boundary, through the flushing output buffer |
| KermitDecoder.DecodePacket | raspberry_pi-bluez_server_file_transfer/src/libe_kermit/kermit.c:1515-1638 | A data field of whole items left in a dirty buffer with a terminator adds exactly the bytes it stands for to the output file |
| KermitCheck.Chk1 | raspberry_pi-bluez_server_file_transfer/src/libe_kermit/kermit.c:991-998 | Folds the sum of the string up to its NUL to six bits as block check 1 prescribes |
| KermitCheck.Chk2 | raspberry_pi-bluez_server_file_transfer/src/libe_kermit/kermit.c:1004-1011 | Is the 16-bit byte sum, not masked to the twelve bits that travel |
| KermitCheck.Chk3 | raspberry_pi-bluez_server_file_transfer/src/libe_kermit/kermit.c:1020-1030 | The table-driven loop computes the bit-by-bit reflected CRC-CCITT (polynomial 0x8408) of the string up to its NUL |
| KermitCheck.OneByteByTables | raspberry_pi-bluez_server_file_transfer/src/libe_kermit/kermit.c:2361-2393 | One byte through the two nibble tables equals eight single-bit CRC steps, for every CRC value and byte |
| KermitCheck.TablesAreEightBits | raspberry_pi-bluez_server_file_transfer/src/libe_kermit/kermit.c:2361-2393 | For every 16-bit register the two 16-entry tables together do eight single-bit steps |
| KermitCheck.BurstChangesCrc | raspberry_pi-bluez_server_file_transfer/src/libe_kermit/kermit.c:1020-1030 | Two strings of equal length that differ only within two neighbouring bytes always have different CRCs |
| KermitCheck.CrcFromIsInjective | raspberry_pi-bluez_server_file_transfer/src/libe_kermit/kermit.c:1020-1030 | For any one string, different CRC registers before it give different registers after it |
| KermitWireForms.CrcOfDigits | raspberry_pi-bluez_server_file_transfer/src/libe_kermit/kermit.c:1020-1030 | The published check value of the CRC: that of the nine digits is 0x2189 |
| KermitWireForms.CheckForm | raspberry_pi-bluez_server_file_transfer/src/libe_kermit/kermit.c:1040-1227 | The three block checks as characters: six bits each with 32 added, the high bits first |
| KermitWireForms.ShortFrameForm | raspberry_pi-bluez_server_file_transfer/src/libe_kermit/kermit.c:1040-1227 | A short frame byte by byte |
| KermitWireForms.LongFrameForm | raspberry_pi-bluez_server_file_transfer/src/libe_kermit/kermit.c:1040-1227 | A long frame byte by byte, with its length in base 95 and the check of its header |
| KermitWireForms.FrameOfA | raspberry_pi-bluez_server_file_transfer/src/libe_kermit/kermit.c:1040-1227 | The first data packet of a file "A" under block check 1 is 13 24 21 44 41 2D 0D in hexadecimal |
| KermitFrame.BuildPacket | raspberry_pi-bluez_server_file_transfer/src/libe_kermit/kermit.c:1040-1227 | In place: the bytes built are the frame with short or long header, header check, data, block check and packet end, terminated; it fails exactly for sequence numbers outside 0 to 63 |
| KermitFrame.FrameFitsPacket | raspberry_pi-bluez_server_file_transfer/src/libe_kermit/kermit.c:1877-1889 | A frame of the packetiser is never longer than the negotiated packet size, and reaches it exactly when it is long and one byte over the bound |
| KermitFrame.ReadPacket | raspberry_pi-bluez_server_file_transfer/src/libe_kermit/unixio_rpi.c:200-302 | The byte loop of the line reader stores exactly the content between packet start and packet end, keeps what it has stored when a new packet start comes, and reports time-out, abort command and overlong packets |
| KermitFrame.FrameBehindNoise | raspberry_pi-bluez_server_file_transfer/src/libe_kermit/unixio_rpi.c:264-302 | Whatever bytes stand before a frame, short of a whole packet or the abort command: the reader stores what followed the first packet start among them, without further packet starts, and the frame's content behind it, as long as both fit |
| KermitFrame.ReaderFindsFrameIff | raspberry_pi-bluez_server_file_transfer/src/libe_kermit/unixio_rpi.c:264-302 | So the frame behind the noise is found if and only if nothing but packet starts follows the first packet start in the noise; behind a frame that was cut short it is not |
| KermitFrame.CommandAborts | raspberry_pi-bluez_server_file_transfer/src/libe_kermit/unixio_rpi.c:250-268 | The abort command, when nothing comes before it, ends the reading whatever follows |
| KermitFrame.NoPacketWithoutEnd | raspberry_pi-bluez_server_file_transfer/src/libe_kermit/unixio_rpi.c:264-302 | Without a packet end no packet is read: the reader waits in vain, or gives up when too much has come |
| KermitFrame.ReaderFindsFrame | raspberry_pi-bluez_server_file_transfer/src/libe_kermit/unixio_rpi.c:200-302 | Noise without a packet start that is not the abort command is skipped and the frame behind it is found, whatever follows |
| KermitParse.ParseInPlace | raspberry_pi-bluez_server_file_transfer/src/libe_kermit/kermit.c:2674-2918 | The in-place parser, which overwrites check fields with NULs, returns the type, sequence number and data field, or the same refusal, as the parse of the original bytes |
| KermitRoundTrip.FrameRoundTrip | raspberry_pi-bluez_server_file_transfer/src/libe_kermit/kermit.c:2674-2918 | Frame round trip: noise, frame of any type and number with clean data and block check 1 or 3, short or long, then anything: the reader and parser recover type, number and data whatever the buffer held |
| KermitRoundTrip.FrameRoundTripCheck2 | raspberry_pi-bluez_server_file_transfer/src/libe_kermit/kermit.c:1004-1018 | With block check 2 the reader stores the frame all the same, and the parser recovers it if the 16-bit sum of its bytes is below 4096 and refuses it otherwise |
| KermitRoundTrip.Check2Refuses | raspberry_pi-bluez_server_file_transfer/src/libe_kermit/kermit.c:2829-2837 | An undamaged frame that is refused: seventeen bytes of 255, under every sequence number |
| KermitRoundTrip.ParseOfContent | raspberry_pi-bluez_server_file_transfer/src/libe_kermit/kermit.c:2674-2918 | What the parser says of a frame's own content: good with the original fields when its block check is recognised, a bad check otherwise |
| KermitRefusals.OneBitIsRefused | raspberry_pi-bluez_server_file_transfer/src/libe_kermit/kermit.c:2692-2833 | Under block check 1 the parser finds no packet in a frame of which one bit of any byte was turned over into no delimiter: type, number, data, check or long length; only the length of a short frame, and the leading 0 of a long one, are excepted |
| KermitRefusals.OneBitInDataIsRefused | raspberry_pi-bluez_server_file_transfer/src/libe_kermit/kermit.c:2802-2910 | Under each of the three block checks, one bit of one data byte turned over is refused as a bad check |
| KermitRefusals.OneBitInLongHeader | raspberry_pi-bluez_server_file_transfer/src/libe_kermit/kermit.c:2708-2731 | One bit turned over in the header of a long frame, behind its first byte, is noticed by the header check |
| KermitRefusals.FoldShows | raspberry_pi-bluez_server_file_transfer/src/libe_kermit/kermit.c:991-998 | Two sums that differ by a power of two below 256 always differ in the six folded bits |
| KermitRefusals.ErrorIsHeard | raspberry_pi-bluez_server_file_transfer/src/libe_kermit/kermit.c:2847-2905 | An error packet with a check of type 1 is heard under the longer checks as well, with its text, unless the longer check matches by chance |
| KermitRefusals.WrongCheckIsRefused | raspberry_pi-bluez_server_file_transfer/src/libe_kermit/kermit.c:2802-2910 | A packet whose block check does not match is refused, whatever else memory holds |
| KermitRefusals.OthersAreRefused | raspberry_pi-bluez_server_file_transfer/src/libe_kermit/kermit.c:2631-2800 | Too few bytes, an impossible number, an echo of a reply and a length without room for the check are refused, each in its way |
| KermitRoundTrip.BurstInDataIsRejected | raspberry_pi-bluez_server_file_transfer/src/libe_kermit/kermit.c:2829-2857 | Damage within two neighbouring data bytes is always refused as a bad block check under check type 3 |
| SequenceNumbers.SearchIsRightIff | raspberry_pi-bluez_server_file_transfer/src/libe_kermit/kermit.c:340-372 | The search that compares an unwrapped counter with a wrapped limit classifies a number as the distance modulo 64 does, except exactly when the number is a stray and the window lies across the wrap; then it says old |
| SequenceNumbers.StrayIsTakenForOld | raspberry_pi-bluez_server_file_transfer/src/libe_kermit/kermit.c:347-356 | Such a number at every window size: with the latest packet at 63, number 32 is taken for an old packet |
| SequenceNumbers.UnwrapIsRight | raspberry_pi-bluez_server_file_transfer/src/libe_kermit/kermit.c:295-372 | A packet within one window of the latest is identified by its number modulo 64 |
| SequenceNumbers.ClassOfNear | raspberry_pi-bluez_server_file_transfer/src/libe_kermit/kermit.c:322-372 | Next, gap and old are told apart correctly for every packet within one window of the latest, at every window size up to 31 |
| ReceiveWindow.ArriveKeepsValid | raspberry_pi-bluez_server_file_transfer/src/libe_kermit/kermit.c:295-535 | Taking in a packet, new, early or repeated, keeps the window: at most one window of packets, within one window of the latest, in the agreed order |
| KermitReceiver.Receiver.HandleGoodRpkt | raspberry_pi-bluez_server_file_transfer/src/libe_kermit/kermit.c:295-535 | Over the slot tables: the packets decoded, the packets that wait and the ACK and NAKs sent are exactly those the window prescribes; an empty table takes any number for the next packet; only the stray numbers that the search misjudges are excluded |
| KermitReceiver.Receiver.Align | raspberry_pi-bluez_server_file_transfer/src/libe_kermit/kermit.c:389-425 | Packets that no longer fit are decoded earliest first, each once, until the new packet fits |
| KermitReceiver.Receiver.FlushToFile | raspberry_pi-bluez_server_file_transfer/src/libe_kermit/kermit.c:633-695 | At end of file every waiting packet is decoded in order and the tables are left empty and consistent |
| KermitReceiver.Receiver.GetRslot | raspberry_pi-bluez_server_file_transfer/src/libe_kermit/kermit.c:702-733 | Returns a free slot, and -1 only when all are in use |
| KermitReceiver.Receiver.FreeRslot | raspberry_pi-bluez_server_file_transfer/src/libe_kermit/kermit.c:736-762 | Frees the slot of the earliest packet and keeps `r_pw` and `ipktinfo` mutually inverse for the others |
| KermitReceiver.Receiver.EarliestRseq | raspberry_pi-bluez_server_file_transfer/src/libe_kermit/kermit.c:142-186 | Finds the earliest packet across the wrap of sequence numbers, -1 exactly when none waits |
| KermitReceiver.Receiver.LatestRseq | raspberry_pi-bluez_server_file_transfer/src/libe_kermit/kermit.c:189-233 | Finds the latest packet across the wrap of sequence numbers, -1 exactly when none waits |
| SendWindow.RunKeeps | raspberry_pi-bluez_server_file_transfer/src/libe_kermit/kermit.c:3180-3314 | Sender slot invariant: after every call that goes on, between one and `wslots` packets wait, with contiguous numbers that end at the last one sent; the case of no packet in use is never met |
| SendWindow.OnAckKeeps | raspberry_pi-bluez_server_file_transfer/src/libe_kermit/kermit.c:3206-3247 | Acknowledgements in any order keep the waiting packets contiguous, and freeing stops at the earliest that is not acknowledged |
| SendRetries.SentVerbatimAndBounded | raspberry_pi-bluez_server_file_transfer/src/libe_kermit/kermit.c:2170-2298 | Over every sequence of engine calls, whatever packets of any type, damage or silence the line delivers: every transmission of a packet is the bytes of its frame, a packet goes out at most once plus the retry limit, and nothing but the packets of the file and its end goes out |
| KermitAnswers.NakIsAnswered | raspberry_pi-bluez_server_file_transfer/src/libe_kermit/kermit.c:3180-3244 | A NAK, like any packet that is no answer of another kind, puts exactly one frame on the line, the bytes of the packet it asks for, or of the earliest one if that is not in the window, and counts it; at the retry limit nothing goes out and the file is given up |
| KermitAnswers.SilenceIsAnswered | raspberry_pi-bluez_server_file_transfer/src/libe_kermit/kermit.c:2631-2653 | So does silence, with the earliest packet |
| KermitAnswers.DamageIsAnswered | raspberry_pi-bluez_server_file_transfer/src/libe_kermit/kermit.c:2784-2910 | So does a damaged packet, but then the file is never given up |
| KermitAnswers.ParsedIsAnswered | raspberry_pi-bluez_server_file_transfer/src/libe_kermit/kermit.c:2631-2910 | Which of these the parser's refusals count as: a wrong length or block check as damage, too few bytes or a bad header as silence, an impossible number as nothing |
| KermitAnswers.AckIsAnswered | raspberry_pi-bluez_server_file_transfer/src/libe_kermit/kermit.c:3250-3301 | An ACK takes exactly the acknowledged packets at the front out of the window, whatever order the ACKs come in; room it makes is filled at once with the next packet of the file or its end; when the end was the last to go, the sender is done |
| KermitAnswers.RoomIsFilled | raspberry_pi-bluez_server_file_transfer/src/libe_kermit/kermit.c:3502-3558 | While the window has room, every call sends the next data field, or the end of the file, as a new entry with the next number |
| KermitAnswers.OthersAreAnswered | raspberry_pi-bluez_server_file_transfer/src/libe_kermit/kermit.c:3080-3262 | An ACK that nothing waits for, an impossible number and a generic command change nothing; an error packet and a request for another file end the transfer |
| KermitAnswers.DataIsAnswered | raspberry_pi-bluez_server_file_transfer/src/libe_kermit/kermit.c:442-529 | While the file is open every data packet near the window is kept and acknowledged, and an early one brings a NAK for each packet between it and the latest, in order |
| KermitAnswers.FirstTakesAnyNumber | raspberry_pi-bluez_server_file_transfer/src/libe_kermit/kermit.c:319-325 | An empty window takes any number for the next packet that has it, and acknowledges it |
| KermitAnswers.StrayIsPassedOver | raspberry_pi-bluez_server_file_transfer/src/libe_kermit/kermit.c:490-498 | A packet neither near the window nor misjudged by the search is passed over |
| KermitAnswers.EndIsAnswered | raspberry_pi-bluez_server_file_transfer/src/libe_kermit/kermit.c:3836-3875 | The end-of-file packet is acknowledged every time it comes and closes the file the first time |
| KermitAnswers.RestIsAnswered | raspberry_pi-bluez_server_file_transfer/src/libe_kermit/kermit.c:3731-3875 | What is no packet is passed over, a repeated packet from before the data is acknowledged again, anything else stops the receiver |
| KermitAnswers.GapIsAskedFor | raspberry_pi-bluez_server_file_transfer/src/libe_kermit/kermit.c:452-477 | In every run: when a data packet comes early, the bytes of an ACK for it and of a NAK for every packet between are on their way back |
| KermitAnswers.RequestIsObeyed | raspberry_pi-bluez_server_file_transfer/src/libe_kermit/kermit.c:3180-3244 | In every run: when such a NAK arrives, the bytes of the packet are on the line again, as long as it may be repeated |
| KermitSender.Sender.KRun | raspberry_pi-bluez_server_file_transfer/src/libe_kermit/kermit.c:3095-3558 | Over the slot tables: one call of the engine while sending leaves exactly the window, state and transmitted bytes that the sender specification prescribes |
| KermitSender.Sender.HandleAck | raspberry_pi-bluez_server_file_transfer/src/libe_kermit/kermit.c:3206-3247 | An ACK marks its packet, frees the acknowledged prefix of the window and leads to the next transmission |
| KermitSender.Sender.GetSslot | raspberry_pi-bluez_server_file_transfer/src/libe_kermit/kermit.c:765-787 | Finds the first free slot; fails if and only if the window is full |
| KermitSender.Sender.FreeSslotEasca | raspberry_pi-bluez_server_file_transfer/src/libe_kermit/kermit.c:565-588 | Frees the earliest packet and the acknowledged ones that follow it, and no other |
| KermitSender.Sender.EarliestSseq | raspberry_pi-bluez_server_file_transfer/src/libe_kermit/kermit.c:956-985 | Finds the earliest packet sent, although numbers wrap, or -1 when none waits |
| KermitSender.Sender.ResendSeq | raspberry_pi-bluez_server_file_transfer/src/libe_kermit/kermit.c:2170-2298 | Sends again the packet asked for, or the earliest, and gives up at the retry limit |
| KermitWire.WireIsHeard | raspberry_pi-bluez_server_file_transfer/src/libe_kermit/kermit.c:2674-2918 | The bytes of any packet of the transfer, received over a dirty buffer, are read as that packet |
| KermitWire.ReplyIsHeard | raspberry_pi-bluez_server_file_transfer/src/libe_kermit/kermit.c:1234-1277 | The bytes of any ACK or NAK, received over a dirty buffer, are read as that reply |
| KermitWire.BurstIsDamage | raspberry_pi-bluez_server_file_transfer/src/libe_kermit/kermit.c:2829-2878 | Damage really happens in the model: under check type 3, changing one or two neighbouring data bytes of any data packet under way, into bytes that are no delimiters, is a possible event, because no parser state accepts the frame |
| KermitWire.FlipIsDamage | raspberry_pi-bluez_server_file_transfer/src/libe_kermit/kermit.c:2808-2833 | Under block check 1, the check the program is built with, one bit of any byte of a packet under way but its length may be turned over as a possible event: nothing is heard of the frame |
| KermitWire.MergingIsDamage | raspberry_pi-bluez_server_file_transfer/src/libe_kermit/unixio_rpi.c:264-302 | Losing the packet end between two frames is such damage too: the reader takes both for one, and the parser, which goes by the length in the header, finds the first packet in it, or nothing when both are too long together |
| KermitRuns.FramesMerge | raspberry_pi-bluez_server_file_transfer/src/libe_kermit/unixio_rpi.c:264-302 | So in every run two neighbouring frames under way may become one frame of both |
| KermitReceivingSide.ReceivingSide.KRun | raspberry_pi-bluez_server_file_transfer/src/libe_kermit/kermit.c:3731-3875 | One call of the engine while receiving: state, packet table, decoded packets and replies are those the link prescribes for the packet the parser found |
| KermitRuns.StepKeeps | raspberry_pi-bluez_server_file_transfer/src/libe_kermit/kermit.c:3180-3314 | Every step of sender, receiver or line keeps the joint invariant of sender window, receive window and both lines |
| KermitRuns.EveryRunKeeps | raspberry_pi-bluez_server_file_transfer/src/libe_kermit/kermit.c:3180-3314 | The joint invariant holds after every sequence of steps |
| KermitRuns.OpenFileIsPrefix | raspberry_pi-bluez_server_file_transfer/src/libe_kermit/kermit.c:295-535 | For every window size, the packets decoded while the file is open are the first packets sent, in order, each once, and the receiver never meets a packet it has no rule for |
| KermitRuns.DoneIsComplete | raspberry_pi-bluez_server_file_transfer/src/libe_kermit/kermit.c:3317-3340 | When the sender has seen its end-of-file packet acknowledged, the receiver has decoded every packet, for every window size |
| KermitRuns.ClosedLosesAtMostTail | raspberry_pi-bluez_server_file_transfer/src/libe_kermit/kermit.c:3836-3841 | A closed file holds all but at most the last `wslots - 1` packets |
| KermitRuns.ClosedIsCompleteAtOne | raspberry_pi-bluez_server_file_transfer/src/libe_kermit/kermit.c:3836-3841 | With a window of one packet, a closed file is complete |
| KermitDelivery.AckFindsItsPacket | raspberry_pi-bluez_server_file_transfer/src/libe_kermit/kermit.c:3206-3221 | An acknowledgement, also a late or repeated one, is credited to the packet it was sent for or to none |
| KermitDelivery.ArrivalIsNear | raspberry_pi-bluez_server_file_transfer/src/libe_kermit/kermit.c:295-372 | A packet on the line is always within one window of the receiver's latest, and everything a full window before it has arrived: the premise of the classification |
| KermitOvertaking.ClosedIsCompleteIff | raspberry_pi-bluez_server_file_transfer/src/libe_kermit/kermit.c:3540-3558 | Every sequence of steps that closes the file closes it complete, if and only if the window is one packet or the file is empty |
| KermitOvertaking.EndOvertakesData | raspberry_pi-bluez_server_file_transfer/src/libe_kermit/kermit.c:3540-3558 | With any larger window and any non-empty file, there is a sequence of steps in which the end-of-file packet overtakes a lost data packet and the file is closed too early |
| KermitOvertaking.ClosingCompletesIff | raspberry_pi-bluez_server_file_transfer/src/libe_kermit/kermit.c:3836-3841 | Closing at the end-of-file packet completes the file if and only if the packets decoded and waiting are together as many as the file has |
| KermitNegotiation.NegotiationAgrees | raspberry_pi-bluez_server_file_transfer/src/libe_kermit/kermit.c:1283-1499 | Both ends, from the reinitialised state, end with the same window, block check, repeat prefix and capabilities, which are what both offer, and each sends packets exactly as long as the other receives |
| KermitNegotiation.SparOfRpar | raspberry_pi-bluez_server_file_transfer/src/libe_kermit/kermit.c:1283-1427 | What one side is after reading the field the other side wrote, setting by setting, whatever stale bytes follow |
| KermitNegotiation.FieldForm | raspberry_pi-bluez_server_file_transfer/src/libe_kermit/kermit.c:1449-1466 | The thirteen bytes of the field one by one |
| KermitNegotiation.RestIsTaken | raspberry_pi-bluez_server_file_transfer/src/libe_kermit/kermit.c:1293-1308 | Time-out, packet end and control prefix are taken over as the other side gave them, and the retry limit is kept above the window |
| KermitNegotiation.EmptyFieldKeeps | raspberry_pi-bluez_server_file_transfer/src/libe_kermit/kermit.c:1283-1427 | An empty field settles nothing, but a window is given up when sliding windows are off |
| KermitNegotiation.EighthBitIs | raspberry_pi-bluez_server_file_transfer/src/libe_kermit/kermit.c:1310-1328 | A prefix that is named turns 8th-bit prefixing on, "Y" with parity settles on "&", anything else turns nothing on |
| KermitNegotiation.CapasGoOn | raspberry_pi-bluez_server_file_transfer/src/libe_kermit/kermit.c:1372-1373 | The sizes are looked for after the last of the capability fields, however many there are |
| KermitNegotiation.NonsenseIsCorrected | raspberry_pi-bluez_server_file_transfer/src/libe_kermit/kermit.c:1329-1404 | A block check out of range counts as 1, a long packet length below 10 as 60 and above 1000 as 1000, a window of none as one; a repeat prefix out of range is not taken |
| KermitNegotiation.FieldIsClean | raspberry_pi-bluez_server_file_transfer/src/libe_kermit/kermit.c:1434-1499 | The negotiation field contains no byte that would end or start a packet |
| KermitNegotiation.Engine.SetParameters | raspberry_pi-bluez_server_file_transfer/src/libe_kermit/kermit.c:1283-1427 | The switch that falls through by length, with its capability loop, sets exactly the specified parameters |
| KermitNegotiation.Engine.PutParameters | raspberry_pi-bluez_server_file_transfer/src/libe_kermit/kermit.c:1434-1499 | Writes the terminated 13-byte field into the acknowledgement buffer, byte by byte as specified, and updates the own settings |
| GattDiscovery.DiscoveryIsExact | raspberry_pi-bluez_server_file_transfer/bluez_deps/src/shared/gatt-helpers.c:638-731 | Client and server composed: for every sorted database, mixed 16- and 128-bit UUIDs, every MTU from 23 and every range, the Read By Group Type loop collects exactly the selected services, in handle order, each once, and succeeds if and only if there is one (Core Specification 5.1, Vol 3, Part G, section 4.4.1) |
| GattDiscovery.SelectionIsKindIff | raspberry_pi-bluez_server_file_transfer/bluez_deps/src/shared/gatt-server.c:285-321 | The server selects exactly the services of the asked kind if and only if no active service of another kind in the range has the kind's UUID as its own UUID |
| GattDiscovery.SecondaryIsSelected | raspberry_pi-bluez_server_file_transfer/bluez_deps/src/shared/gatt-db.c:1270-1289 | A search for primary services selects a secondary service whose own UUID is 0x2800 |
| GattDiscovery.AnyServerIsLeft | raspberry_pi-bluez_server_file_transfer/bluez_deps/src/shared/gatt-helpers.c:692-724 | Whatever any server answers, a further request covers a strictly smaller range: discovery always ends |
| GattDiscovery.RspIsRead | raspberry_pi-bluez_server_file_transfer/bluez_deps/src/shared/gatt-server.c:198-256 | A response tells about at least one service, fits the MTU rules, and the client reads back what the server put in, also after it changes the end of the last service |
| GattForms.GroupsAreRefusedIff | raspberry_pi-bluez_server_file_transfer/bluez_deps/src/shared/gatt-server.c:258-340 | A request for groups is answered with services exactly when its length, its range and its group type are right and there is a service to tell about; otherwise with the error that comes first |
| GattForms.ResponseIsFull | raspberry_pi-bluez_server_file_transfer/bluez_deps/src/shared/gatt-server.c:198-256 | A response is as full as it can be: the next service has a UUID of another length or does not fit; and it is no longer than the MTU allows |
| GattForms.FailureIsTold | raspberry_pi-bluez_server_file_transfer/bluez_deps/src/shared/gatt-helpers.c:638-731 | A malformed response, one that leads back and any error end discovery as a failure with nothing found, except running out of attributes after something was found |
| GattForms.ShortUuidForm | raspberry_pi-bluez_server_file_transfer/bluez_deps/src/shared/gatt-helpers.c:187-206 | A short UUID stands for 0000xxxx-0000-1000-8000-00805F9B34FB |
| GattForms.LongUuidForm | raspberry_pi-bluez_server_file_transfer/bluez_deps/src/shared/gatt-helpers.c:192-206 | The long form of a short UUID stands for the same |
| GattForms.DiscoveryForms | raspberry_pi-bluez_server_file_transfer/bluez_deps/src/shared/gatt-helpers.c:698-720 | The request for all primary services and the entry of a service, byte by byte |
| GattForms.LongValueForms | raspberry_pi-bluez_server_file_transfer/bluez_deps/src/shared/gatt-client.c:2882-2948 | A prepared write and the two read requests, byte by byte |
| GattGroupRequests.ReadByGroup | raspberry_pi-bluez_server_file_transfer/bluez_deps/src/shared/gatt-db.c:1137-1152 | The queue filled by the range iteration is exactly the services selected, in order |
| GattGroupRequests.EncodeReadByGrpTypeRsp | raspberry_pi-bluez_server_file_transfer/bluez_deps/src/shared/gatt-server.c:198-256 | The loop over `iter` and `pdu_len` fills exactly the response, within the MTU, stopping at the first UUID of another length |
| GattGroupRequests.DiscoveryRequest.ReadByGrpTypeCb | raspberry_pi-bluez_server_file_transfer/bluez_deps/src/shared/gatt-helpers.c:638-731 | Each response leaves the request, the collected results and what the callback is told as specified |
| GattGroupRequests.ServiceIter.NextService | raspberry_pi-bluez_server_file_transfer/bluez_deps/src/shared/gatt-helpers.c:325-364 | The iterator over the result list tells the next service and moves past it, across list entries, and fails exactly at the end |
| GattLongValue.LongWriteIsOneWrite | raspberry_pi-bluez_server_file_transfer/bluez_deps/src/shared/gatt-client.c:3105-3375 | Long write: for every value, offset and MTU the prepared pieces, the aggregation and the execute step amount to one direct write, exactly when the queue limit is two or more, or one and the value fits one piece; otherwise nothing is written (Core Specification 5.1, Vol 3, Part G, section 4.9.4) |
| GattLongValue.LongReadIsValueIff | raspberry_pi-bluez_server_file_transfer/bluez_deps/src/shared/gatt-client.c:2797-2948 | Long read: for every value, 16-bit offset and MTU, the chain of reads returns the value from the offset on, up to 512 bytes, or reports that the offset lies beyond it, if and only if the offset is at most 512 or not inside the value (section 4.8.3) |
| GattLongValue.ReadPastLimit | raspberry_pi-bluez_server_file_transfer/bluez_deps/src/shared/gatt-client.c:2797-2818 | Beyond 512 and inside the value, the 16-bit remainder makes the client take 66048 less the offset bytes of its own memory for the value and report success |
| GattLongValue.LongReadAt600 | raspberry_pi-bluez_server_file_transfer/bluez_deps/src/shared/gatt-client.c:2803-2804 | A value of 700 bytes read from 600 comes back as 65448 bytes |
| GattLongValue.OneEntryIsTooFew | raspberry_pi-bluez_server_file_transfer/bluez_deps/src/shared/gatt-server.c:1344-1352 | With a queue limit of one, a value of nineteen bytes at the smallest MTU is refused although its second piece would join the first |
| GattLongValue.WrittenIsReadBackIff | raspberry_pi-bluez_server_file_transfer/bluez_deps/src/shared/gatt-client.c:2797-3375 | A value written at an offset is read back from there as it was written, whatever MTU either side uses, up to 512 bytes, if and only if the offset is at most 512 |
| GattLongValue.WrittenAtIff | raspberry_pi-bluez_server_file_transfer/bluez_deps/src/shared/gatt-db.c:1884-1946 | After a stored write the value ends where it should, holds the data, keeps every other byte and zero-fills a gap of an empty value, if and only if offset and length together fit 16 bits or lie within the old value |
| GattLongValue.WriteWrapsAround | raspberry_pi-bluez_server_file_transfer/bluez_deps/src/shared/gatt-db.c:1916-1929 | One byte written into an empty value at offset 65535 leaves it empty, because the length wraps around |
| GattLongValue.WriteIsDeterministicIff | raspberry_pi-bluez_server_file_transfer/bluez_deps/src/shared/gatt-db.c:1906-1935 | The stored value is independent of what the allocator left if and only if no gap is opened behind a non-empty value, or its length wraps around to within the old value |
| GattLongValue.JoinedIsWholeIff | raspberry_pi-bluez_server_file_transfer/bluez_deps/src/shared/gatt-server.c:1203-1222 | Joining a prepared piece to the last entry loses nothing if and only if the whole fits 16 bits |
| GattLongValue.JoiningWrapsAround | raspberry_pi-bluez_server_file_transfer/bluez_deps/src/shared/gatt-server.c:1203-1222 | Two bytes joined to a piece of 65535 bytes leave a piece of one byte |
| GattLongValue.ReadBeyond | raspberry_pi-bluez_server_file_transfer/bluez_deps/src/shared/gatt-server.c:907-939 | A read that starts behind the value ends at once with the invalid-offset error, one that starts at its end with nothing, at every 16-bit offset |
| GattAccess.ReadOnlyStays | raspberry_pi-bluez_server_file_transfer/bluez_deps/src/shared/gatt-server.c:1330-1523 | Whatever prepared writes and executions a client sends, in whatever order, the value of an attribute that may not be written stays as it is, and no write to it ever waits in the queue |
| GattAccess.PrepareIsRefusedIff | raspberry_pi-bluez_server_file_transfer/bluez_deps/src/shared/gatt-server.c:1344-1375 | A prepared write is accepted, and echoed, exactly when the queue has room and the attribute exists and may be written; otherwise nothing changes and the answer says why |
| GattAccess.StoredIsExact | raspberry_pi-bluez_server_file_transfer/bluez_deps/src/shared/gatt-server.c:1203-1288 | A piece goes to the end of the last entry when it is for the same attribute and begins where that ends, and is an entry of its own otherwise; no other entry is touched |
| GattAccess.ExecutionIsRefusedIff | raspberry_pi-bluez_server_file_transfer/bluez_deps/src/shared/gatt-server.c:1461-1523 | Execution is refused, and nothing written, exactly when two or more writes wait and one goes to an attribute without reliable writes; the first of these is named |
| GattAccess.ExecutionWritesAll | raspberry_pi-bluez_server_file_transfer/bluez_deps/src/shared/gatt-server.c:1407-1451 | Otherwise every value becomes what the writes to it make of it, in their order |
| GattAccess.MalformedIsRefused | raspberry_pi-bluez_server_file_transfer/bluez_deps/src/shared/gatt-server.c:1330-1342 | Requests of a wrong length, and unknown ways to execute, are refused; the latter empty the queue |
| GattAccess.LongWriteIsRefused | raspberry_pi-bluez_server_file_transfer/bluez_deps/src/shared/gatt-client.c:3227-3375 | A long write to an attribute that does not exist or may not be written, or with no queue at all, ends with that reason and changes nothing |
| GattAccess.OutcomeIsReported | raspberry_pi-bluez_server_file_transfer/bluez_deps/src/shared/gatt-client.c:3166-3195 | In the end the caller is told the server's error, or success exactly when the value was to be written and the server answered with nothing |
| GattAccess.LongReadIsRefused | raspberry_pi-bluez_server_file_transfer/bluez_deps/src/shared/gatt-client.c:2820-2879 | A long read of an attribute that does not exist or may not be read ends with that reason |
| GattAccess.EchoIsCheckedIff | raspberry_pi-bluez_server_file_transfer/bluez_deps/src/shared/gatt-client.c:3227-3288 | A reliable write gives up exactly when an echo differs from the piece sent; any other write goes on |
| GattLongValueOps.StoredValue.Write | raspberry_pi-bluez_server_file_transfer/bluez_deps/src/shared/gatt-db.c:1884-1946 | The buffer with its realloc, memset and memcpy and its 16-bit length holds exactly the value a write prescribes, at every offset and length |
| GattLongValueOps.PrepareQueue.StorePrepData | raspberry_pi-bluez_server_file_transfer/bluez_deps/src/shared/gatt-server.c:1203-1288 | A piece that continues the last entry is joined to it, with a 16-bit length; any other becomes a new entry |
| GattLongValueOps.PrepareQueue.PrepWriteCb | raspberry_pi-bluez_server_file_transfer/bluez_deps/src/shared/gatt-server.c:1330-1388 | The request handler answers and queues as specified, with every error branch (length, missing attribute, permissions, queue full) |
| GattLongValueOps.PrepareQueue.ExecPrepWrites | raspberry_pi-bluez_server_file_transfer/bluez_deps/src/shared/gatt-server.c:1407-1451 | The chain of writes writes the entries from the head and stops at the first error, dropping the rest |
| GattLongValueOps.PrepareQueue.ExecWriteCb | raspberry_pi-bluez_server_file_transfer/bluez_deps/src/shared/gatt-server.c:1461-1523 | Cancel empties the queue; write runs it unless two or more entries include an unreliable characteristic |
| GattLongValueOps.LongWriteOp.PrepareWriteCb | raspberry_pi-bluez_server_file_transfer/bluez_deps/src/shared/gatt-client.c:3227-3288 | Each response advances to the next piece, or ends with write or cancel, and a reliable write notices every difference in the echo |
| GattLongValueOps.LongReadOp.AppendChunk | raspberry_pi-bluez_server_file_transfer/bluez_deps/src/shared/gatt-client.c:2797-2818 | Appends the chunk, cut at 512 bytes of total value by a 16-bit difference, and advances the 16-bit offset by what was kept, from every offset |
| GattLongValueOps.LongReadOp.ReadLongCb | raspberry_pi-bluez_server_file_transfer/bluez_deps/src/shared/gatt-client.c:2820-2879 | Asks on exactly when the chunk filled the response and the value may go on; ends with what was read or the error |
| GattDb.InsertKeepsSortedIff | raspberry_pi-bluez_server_file_transfer/bluez_deps/src/shared/gatt-db.c:600-699 | Insertion keeps services sorted and disjoint if and only if, before the call, there are no handles for the range, or an end of it lies in an old service, or its first handle is not 0 and no old service lies strictly inside it |
| GattDb.InsertionIsExact | raspberry_pi-bluez_server_file_transfer/bluez_deps/src/shared/gatt-db.c:600-707 | An insertion answers with nothing when there are no handles or an end of the range lies in another service, with the service itself when it is there already, and else with the new service, which has all it was given while every other stays in its place |
| GattDb.ClearingIsExact | raspberry_pi-bluez_server_file_transfer/bluez_deps/src/shared/gatt-db.c:545-582 | A clearing takes out the services that overlap the range and no others |
| GattDb.AddedIsExact | raspberry_pi-bluez_server_file_transfer/bluez_deps/src/shared/gatt-db.c:788-996 | A characteristic adds its declaration and then its value, a descriptor one attribute, at the next handles; everything else stays |
| GattDb.ActivationIsExact | raspberry_pi-bluez_server_file_transfer/bluez_deps/src/shared/gatt-db.c:1091-1108 | Activating a service changes nothing but its being active |
| GattDb.AroundAService | raspberry_pi-bluez_server_file_transfer/bluez_deps/src/shared/gatt-db.c:617-624 | The case the overlap test misses: handles 3 to 12 are taken around a service at 5 and 6 |
| GattDb.AutomaticAppends | raspberry_pi-bluez_server_file_transfer/bluez_deps/src/shared/gatt-db.c:633-707 | With an automatic handle the service goes to the end of the list or is refused, exactly when 16-bit handles do not last |
| GattDb.InsertKeepsNextFree | raspberry_pi-bluez_server_file_transfer/bluez_deps/src/shared/gatt-db.c:685-695 | An explicit handle never makes the automatic one collide, below the last handle |
| GattDb.ClearKeepsSorted | raspberry_pi-bluez_server_file_transfer/bluez_deps/src/shared/gatt-db.c:545-582 | Clearing a range keeps the order and the free automatic handle, and sets the next handle to 0 if and only if every service overlaps the range |
| GattDb.EmptiedHandsOutZero | raspberry_pi-bluez_server_file_transfer/bluez_deps/src/shared/gatt-db.c:578-579 | After such a clearing every service added without a handle of its own, if there are handles for it at all, gets handle 0 and the order is broken |
| GattDb.AddingKeepsNumbered | raspberry_pi-bluez_server_file_transfer/bluez_deps/src/shared/gatt-db.c:788-943 | With automatic handles attribute i of a service keeps handle start + i, and adding fails exactly when the reserved handles are used up |
| GattDb.LookupIsExact | raspberry_pi-bluez_server_file_transfer/bluez_deps/src/shared/gatt-db.c:1457-1506 | Lookup by handle returns an attribute if and only if it is the one with that handle |
| GattDb.IterationIsExact | raspberry_pi-bluez_server_file_transfer/bluez_deps/src/shared/gatt-db.c:1270-1375 | Range iteration yields all attributes of active services in the range and of the type, no other, in strictly increasing order of handles |
| GattDb.EveryRunIsValidIff | raspberry_pi-bluez_server_file_transfer/bluez_deps/src/shared/gatt-db.c:600-943 | Along every sequence of insertions, clearings, activations and additions, all states are sorted, disjoint and numbered if and only if every insertion is harmless in the state it meets |
| GattDb.DiscoveryOverDb | raspberry_pi-bluez_server_file_transfer/bluez_deps/src/shared/gatt-db.c:1137-1152 | Discovery by a client finds exactly what such a database holds |
| GattDatabase.Database.FindInsertLoc | raspberry_pi-bluez_server_file_transfer/bluez_deps/src/shared/gatt-db.c:600-631 | The loop finds the clashing service or the number of services in front of the new range |
| GattDatabase.Database.InsertService | raspberry_pi-bluez_server_file_transfer/bluez_deps/src/shared/gatt-db.c:633-699 | The service list, next handle and answer are as specified, including the re-use of an identical service |
| GattDatabase.Database.ClearRange | raspberry_pi-bluez_server_file_transfer/bluez_deps/src/shared/gatt-db.c:556-582 | Removes exactly the services that overlap the range and resets the next handle |
| GattDatabase.Database.Lookup | raspberry_pi-bluez_server_file_transfer/bluez_deps/src/shared/gatt-db.c:1457-1506 | The two nested searches agree with the flat lookup |
| GattDatabase.Database.ForeachInRange | raspberry_pi-bluez_server_file_transfer/bluez_deps/src/shared/gatt-db.c:1270-1375 | The nested loops visit exactly the specified attributes in order |
| GattDatabase.Database.ServiceAddCharacteristic | raspberry_pi-bluez_server_file_transfer/bluez_deps/src/shared/gatt-db.c:788-911 | Adds declaration and value in the next two places or fails and changes nothing |
| GattDatabase.Database.ServiceAddDescriptor | raspberry_pi-bluez_server_file_transfer/bluez_deps/src/shared/gatt-db.c:914-996 | Adds a descriptor in the next place or fails and changes nothing |
| GattRanges.RemovedIsDifferenceIff | raspberry_pi-bluez_server_file_transfer/bluez_deps/src/shared/gatt-client.c:997-1035 | Removing a range of handles from the ranges still to be discovered removes exactly those handles and keeps the list in order, if and only if the range that holds its start also holds its end, or no range holds its start and none begins inside it |
| GattRanges.ReachingOverFails | raspberry_pi-bluez_server_file_transfer/bluez_deps/src/shared/gatt-client.c:1006-1035 | Taking 3 to 10 out of 1 to 5 and 8 to 20 leaves a range turned around and keeps 8 to 10 |
| GattRanges.DiscoveryRanges.RemoveDiscovRange | raspberry_pi-bluez_server_file_transfer/bluez_deps/src/shared/gatt-client.c:1006-1035 | The in-place edit (drop, shorten from the front, shorten from the back, split) is the specified one |
| AttProtocol.OperationsAreConserved | raspberry_pi-bluez_server_file_transfer/bluez_deps/src/shared/att.c:376-852 | Over all interleavings of send, write, response, time-out, cancel, security retry and disconnect: every accepted operation is in exactly one queue or pending slot or finished; its destroy happens exactly once if finished and at most once before; its callback happens at most once and only when it finishes |
| AttProtocol.ProtocolIsSequential | raspberry_pi-bluez_server_file_transfer/bluez_deps/src/shared/att.c:376-550 | At most one request and one indication are outstanding on a bearer, requests first go out in submission order, at most three are tried again on a bearer because the level rises each time, and three more for every time the level is set from above; success is only reported for a matching answer; on one bearer every transmission is in order and none is sent more often than once plus that bearer's retries (Core Specification 5.1, Vol 3, Part F, section 3.3.2) |
| AttProtocol.EveryRunKeeps | raspberry_pi-bluez_server_file_transfer/bluez_deps/src/shared/att.c:376-852 | Books, shape, order, retry, answer and single-bearer invariants hold after every sequence of events |
| AttProtocol.StepKeepsOrder | raspberry_pi-bluez_server_file_transfer/bluez_deps/src/shared/att.c:376-410 | First transmissions stay in submission order whatever is pushed back, cancelled or lost, with any number of bearers |
| AttProtocol.StepKeepsRetries | raspberry_pi-bluez_server_file_transfer/bluez_deps/src/shared/att.c:700-762 | A bearer has tried again no more often than its level can have risen, counting every time it was set from above |
| AttProtocol.StepKeepsSingle | raspberry_pi-bluez_server_file_transfer/bluez_deps/src/shared/att.c:728-826 | With one bearer a request tried again stands before all that were never sent |
| AttProtocol.StepKeepsAnswers | raspberry_pi-bluez_server_file_transfer/bluez_deps/src/shared/att.c:764-826 | Callbacks are told success only by a response of the request's own type |
| AttProtocol.FailedWriteIsReportedIff | raspberry_pi-bluez_server_file_transfer/bluez_deps/src/shared/att.c:500-516 | When a write gives 0 or less, the operation, if it has a callback, ends and its owner is told of the failure if and only if the result is 0 |
| AttProtocol.FailedWritesAreInvisible | raspberry_pi-bluez_server_file_transfer/bluez_deps/src/shared/att.c:500-549 | Over all sequences of events: a run in which writes failed with a negative result ends in the very state, callbacks and log of the run in which they had succeeded |
| AttProtocol.LostRequest | raspberry_pi-bluez_server_file_transfer/bluez_deps/src/shared/att.c:500-549 | A request whose write failed is pending with its timer running and counted as sent, and nobody was told |
| AttProtocol.LostCommand | raspberry_pi-bluez_server_file_transfer/bluez_deps/src/shared/att.c:500-549 | A command whose write failed is finished and its owner released, and nobody was told |
| AttAnswers.ResponseIsTold | raspberry_pi-bluez_server_file_transfer/bluez_deps/src/shared/att.c:764-826 | A response that is no error ends the pending request, and its owner hears exactly once: the response if it is the request's own, an error otherwise |
| AttAnswers.RunTellsResponse | raspberry_pi-bluez_server_file_transfer/bluez_deps/src/shared/att.c:764-826 | The same after every sequence of events |
| AttAnswers.ErrorIsTold | raspberry_pi-bluez_server_file_transfer/bluez_deps/src/shared/att.c:728-826 | An error is told as failure exactly when the level is not raised for it; else nobody hears anything, the request stands first in its queue and the level is the one asked for |
| AttAnswers.ConfirmationIsTold | raspberry_pi-bluez_server_file_transfer/bluez_deps/src/shared/att.c:828-852 | An empty confirmation is told to the owner of the pending indication, exactly once; any other changes nothing |
| AttAnswers.TimeoutIsTold | raspberry_pi-bluez_server_file_transfer/bluez_deps/src/shared/att.c:427-463 | A time-out of a pending operation is told as failure, exactly once, and frees its slot; a late one changes nothing |
| AttAnswers.DisconnectIsTold | raspberry_pi-bluez_server_file_transfer/bluez_deps/src/shared/att.c:611-663 | When a bearer is lost, the owner of every request and indication queued in common or pending on it hears of the failure, exactly once and in this order, and nobody else hears anything |
| AttAnswers.CancelIsSilent | raspberry_pi-bluez_server_file_transfer/bluez_deps/src/shared/att.c:1551-1647 | Cancelling tells nobody anything |
| AttAnswers.CancelTakes | raspberry_pi-bluez_server_file_transfer/bluez_deps/src/shared/att.c:1578-1616 | Cancelling by identifier takes an operation that has it, wherever it is: its owner is released, and it is out of its queue or stays pending without owner; with none, or identifier 0, nothing changes |
| AttAnswers.ChanCancelTakes | raspberry_pi-bluez_server_file_transfer/bluez_deps/src/shared/att.c:1551-1576 | The same on one bearer |
| AttAnswers.CancelAllTakes | raspberry_pi-bluez_server_file_transfer/bluez_deps/src/shared/att.c:1618-1647 | Cancelling everything empties the queues in common and leaves what is pending without owners |
| AttAnswers.SubmittedIsQueued | raspberry_pi-bluez_server_file_transfer/bluez_deps/src/shared/att.c:1466-1514 | With a bearer, an operation of a known kind goes to the tail of the queue of its kind as it was given; anything else is refused |
| AttAnswers.SomethingGoesOutIff | raspberry_pi-bluez_server_file_transfer/bluez_deps/src/shared/att.c:376-410 | Something goes out exactly when an own operation of the bearer waits, or something that fits waits in front of a common queue with its slot free; nothing longer than the MTU is taken from these |
| AttAnswers.RequestCanBeAnswered | raspberry_pi-bluez_server_file_transfer/bluez_deps/src/shared/att.c:376-852 | No request waits in vain: after every sequence of events, a request whose owner has not been released and that, like all before it, fits some bearer can still be sent and its owner hear of its own response |
| AttAnswers.OpcodesAreKnown | raspberry_pi-bluez_server_file_transfer/bluez_deps/src/shared/att.c:117-168 | Which opcodes are requests, responses, indications and confirmations |
| AttAnswers.AnswerFollows | raspberry_pi-bluez_server_file_transfer/bluez_deps/src/shared/att.c:170-197 | Each request is answered by the opcode that follows it and by no other |
| AttAnswers.AttachedIsEmpty | raspberry_pi-bluez_server_file_transfer/bluez_deps/src/shared/att.c:1148-1204 | A new bearer has nothing waiting or pending and comes before the others |
| AttAnswers.RequestsAlternate | raspberry_pi-bluez_server_file_transfer/bluez_deps/src/shared/att.c:1025-1045 | A bearer takes no further request of the other side while one is being answered |
| AttAnswers.ResponseEndsRequest | raspberry_pi-bluez_server_file_transfer/bluez_deps/src/shared/att.c:518-549 | A response that goes out ends that; a confirmation does not |
| AttAnswers.SecurityIsSetIff | raspberry_pi-bluez_server_file_transfer/bluez_deps/src/shared/att.c:1776-1789 | The level is set, on the bearer attached first alone, exactly when it is 3 at most and granted or the bearer is local |
| AttTransport.Transport.SetSecurity | raspberry_pi-bluez_server_file_transfer/bluez_deps/src/shared/att.c:1776-1789 | Sets the level of the bearer attached first; on a local bearer this switches raising on demand on or off |
| AttRuns.StepConserves | raspberry_pi-bluez_server_file_transfer/bluez_deps/src/shared/att.c:211-233 | Every event keeps the account of every operation: places plus finishes, and owners released |
| AttRuns.StepKeepsShape | raspberry_pi-bluez_server_file_transfer/bluez_deps/src/shared/att.c:376-410 | Queues hold only operations of their kind and pending slots only requests and indications |
| AttRuns.PickedFitsSlot | raspberry_pi-bluez_server_file_transfer/bluez_deps/src/shared/att.c:376-410 | An operation picked for sending that waits for an answer finds its slot free |
| AttTransport.Transport.Send | raspberry_pi-bluez_server_file_transfer/bluez_deps/src/shared/att.c:1466-1514 | The operation is put at the tail of the queue of its type |
| AttTransport.Transport.PickNextSendOp | raspberry_pi-bluez_server_file_transfer/bluez_deps/src/shared/att.c:376-410 | Takes the bearer's own queue first, then the common write queue, then a request if none is pending, then an indication if none is pending, these three only if they fit the MTU |
| AttTransport.Transport.CanWriteData | raspberry_pi-bluez_server_file_transfer/bluez_deps/src/shared/att.c:500-550 | One writable event moves the picked operation to its pending slot, finishes it or fails it, as specified for every result of the write |
| AttTransport.Transport.HandleErrorRsp | raspberry_pi-bluez_server_file_transfer/bluez_deps/src/shared/att.c:728-762 | Pushes the request back to the queue head exactly when the error asks for a level that can be granted |
| AttTransport.Transport.HandleRsp | raspberry_pi-bluez_server_file_transfer/bluez_deps/src/shared/att.c:764-826 | Finishes the pending request with success, failure or not at all (retry), and shuts the bearer down exactly when no request is pending |
| AttTransport.Transport.HandleConf | raspberry_pi-bluez_server_file_transfer/bluez_deps/src/shared/att.c:828-852 | An empty confirmation finishes the pending indication; any other, or one that nothing waits for, shuts the bearer down |
| AttTransport.Transport.TimeoutCb | raspberry_pi-bluez_server_file_transfer/bluez_deps/src/shared/att.c:427-463 | A time-out fails the operation that timed out and shuts the bearer down, exactly when it is still pending |
| AttTransport.Transport.ChanCancel | raspberry_pi-bluez_server_file_transfer/bluez_deps/src/shared/att.c:1551-1576 | Cancels an operation on one bearer, keeping a pending one in its slot without owner |
| AttTransport.Transport.Cancel | raspberry_pi-bluez_server_file_transfer/bluez_deps/src/shared/att.c:1578-1616 | Cancels one operation wherever it is |
| AttTransport.Transport.CancelAll | raspberry_pi-bluez_server_file_transfer/bluez_deps/src/shared/att.c:1618-1647 | Drops all common queues and releases the owners of what is pending |
| AttTransport.Transport.DisconnectCb | raspberry_pi-bluez_server_file_transfer/bluez_deps/src/shared/att.c:611-663 | A lost bearer fails its pending operations and everything queued in common, and drops what was queued on it |
| AttTransport.Channel.ChangeSecurity | raspberry_pi-bluez_server_file_transfer/bluez_deps/src/shared/att.c:700-726 | The level rises to what the error asks for, and never otherwise |
| FileCrc.CalcCrcSoft | raspberry_pi-bluez_server_file_transfer/src/libcrc32/libcrc32_file.c:197-264 | The loop over the file is the bitwise MSB-first CRC (polynomial 0x04C11DB7) over the little-endian words of the range, the last incomplete word padded with 0xff, with the error outcomes |
| FileCrc.OutcomeIs | raspberry_pi-bluez_server_file_transfer/src/libcrc32/libcrc32_file.c:197-230 | A CRC is computed exactly for a start on a word boundary within the file and a length that the file has from there; otherwise the error is the one the code gives |
| FileCrc.KnownFile | raspberry_pi-bluez_server_file_transfer/src/libcrc32/libcrc32_file.c:180-264 | The CRC of a file of the five bytes 1 to 5 |
| FileCrc.TableIsFourBits | raspberry_pi-bluez_server_file_transfer/src/libcrc32/libcrc32_file.c:34-38 | A table step is four single-bit steps, for every register |
| FileCrc.NibblesAreBits | raspberry_pi-bluez_server_file_transfer/src/libcrc32/libcrc32_file.c:180-194 | Table steps of any number are four times as many single-bit steps |
| FileCrc.Crc32Fast | raspberry_pi-bluez_server_file_transfer/src/libcrc32/libcrc32_file.c:180-194 | One data word through the table equals 32 single-bit steps |
| FileCrc.TailIsFresh | raspberry_pi-bluez_server_file_transfer/src/libcrc32/libcrc32_file.c:235-258 | The word made of an incomplete last read depends only on the bytes just read, not on the cache |
| FileCrc.ChangeIsSeen | raspberry_pi-bluez_server_file_transfer/src/libcrc32/libcrc32_file.c:197-264 | Two files of equal length that differ only within one aligned word always have different CRCs |
| FileCrc.OneWordShows | raspberry_pi-bluez_server_file_transfer/src/libcrc32/libcrc32_file.c:180-194 | A change of one word changes the CRC of the whole string, from every start value |
| LinkedQueue.Queue.PushTail | raspberry_pi-bluez_server_file_transfer/bluez_deps/src/shared/queue.c:88-108 | The heap of nodes stays an acyclic chain from head to tail of the counted length, with the value last |
| LinkedQueue.Queue.PushHead | raspberry_pi-bluez_server_file_transfer/bluez_deps/src/shared/queue.c:110-129 | As above, with the value first |
| LinkedQueue.Queue.PushAfter | raspberry_pi-bluez_server_file_transfer/bluez_deps/src/shared/queue.c:131-161 | Puts the value behind the first entry equal to the given one; fails exactly when there is none |
| LinkedQueue.Queue.PopHead | raspberry_pi-bluez_server_file_transfer/bluez_deps/src/shared/queue.c:163-185 | Takes the first value, also the only one; none exactly when empty |
| LinkedQueue.Queue.PeekHead | raspberry_pi-bluez_server_file_transfer/bluez_deps/src/shared/queue.c:187-193 | Tells the first value without taking it; none exactly when empty |
| LinkedQueue.Queue.PeekTail | raspberry_pi-bluez_server_file_transfer/bluez_deps/src/shared/queue.c:195-201 | Tells the last value without taking it; none exactly when empty |
| LinkedQueue.Queue.Remove | raspberry_pi-bluez_server_file_transfer/bluez_deps/src/shared/queue.c:249-276 | Takes out the first entry that holds the value, also the last or only one; fails exactly when there is none |
| LinkedQueue.Queue.RemoveIf | raspberry_pi-bluez_server_file_transfer/bluez_deps/src/shared/queue.c:278-316 | Takes out the first entry that matches, wherever it is, and returns it |
| LinkedQueue.Queue.RemoveAll | raspberry_pi-bluez_server_file_transfer/bluez_deps/src/shared/queue.c:318-362 | Takes out all matching entries, keeps the order of the others and returns how many went |
| LinkedQueue.Queue.Clear | raspberry_pi-bluez_server_file_transfer/bluez_deps/src/shared/queue.c:318-362 | Without a condition empties the queue and returns how many there were |
| LinkedQueue.WithoutFirstKeepsOthers | raspberry_pi-bluez_server_file_transfer/bluez_deps/src/shared/queue.c:278-316 | Taking out the first match leaves all entries that do not match, in order, and shortens the queue by one exactly when there was a match |
| MldpFifo.Fifo.Put | raspberry_pi-bluez_server_file_transfer/src/fifo.c:59-68 | Appends a byte; refuses exactly when full |
| MldpFifo.Fifo.Shift | raspberry_pi-bluez_server_file_transfer/src/fifo.c:75-87 | Drops the first byte and moves the others forward |
| MldpFifo.Fifo.Get | raspberry_pi-bluez_server_file_transfer/src/fifo.c:94-107 | Takes the first byte; none exactly when empty |
| MldpFifo.Fifo.Read | raspberry_pi-bluez_server_file_transfer/src/fifo.c:115-140 | Takes the first bytes, as many as asked or there are |
| MldpFifo.Fifo.Write | raspberry_pi-bluez_server_file_transfer/src/fifo.c:148-177 | Appends the first bytes, as many as there is room for; refuses exactly when full and tells how much room there was |
| MldpFifo.DrainIsPrefix | raspberry_pi-bluez_server_file_transfer/src/main.c:888-932 | However the radio fails, the chunks sent are at most 20 bytes each and concatenate to a prefix of the queue; what is left is the rest, short of one chunk that failed four times in a row |
| MldpFifo.ChunksAreFull | raspberry_pi-bluez_server_file_transfer/src/main.c:888-932 | No chunk but the last is shorter than 20 bytes, so that as few are sent as there can be |
| MldpFifo.DrainsAllIff | raspberry_pi-bluez_server_file_transfer/src/main.c:888-932 | All queued bytes are sent if and only if no four of the writes made failed in a row |
| MldpFifo.TxFifoSendBytes | raspberry_pi-bluez_server_file_transfer/src/main.c:888-932 | The nested retry loop ends and sends exactly the chunks specified |

## Left out

- KermitTransfer.TransferIsSafe: damage is limited to bytes in which the parser finds no good packet or the same one as before, because no check of six or sixteen bits refuses all damage; KermitWire.BurstIsDamage and KermitWire.MergingIsDamage say what is certain to be of that kind. It covers one file from its first data packet to the acknowledged end-of-file packet, because what comes before (S, F and A packets) and after (B, a further file) adds states with no window. A packet has room for the longest step, which by KermitPackets.FaithfulIff is exactly what every file needs.
- KermitTransfer.NegotiatedTransferIsSafe: the negotiated packet size is at least 13 bytes more than the block check and the prefix is not the control prefix, which by KermitPackets.FaithfulIff every file needs, because negotiation always turns run lengths on; block check 2 is excluded as in KermitWire.WireIsHeard.
- KermitLink: the lines start empty, so that frames left over from the S, F and A packets are not under way.
- KermitCompletion.OpenFileCanComplete: with windows above one, states in which the receiver has closed the file are not covered, because it may have closed it too early, and a complete but closed file whose acknowledgements were lost makes it stop at the next data packet.
- KermitRefusals.OneBitIsRefused: the length of a short frame says where the block check stands, so one bit of it may lead to a check that happens to match; under checks 2 and 3 one bit of the check itself may be lost in the overlap of its six-bit fields.
- AttAnswers.RequestCanBeAnswered: requests behind one that fits no bearer wait for ever in the code too.
- KermitSender.Sender.KRun: an R packet ends this transfer, as in the code; the other transfer that it may start, with its S packet or E packet, is not part of this model. A `tx_data` that fails inside `spkt` is not modelled.
- GattLongValueOps.PrepareQueue.StorePrepData: when joined pieces wrap around, the code copies past the end of the reallocated buffer and may get none at all for length 0; the model keeps the first bytes of the whole.
- KermitWire.WireIsHeard: block check 2 is excluded, because the frame round trip does not hold for it; the exact condition is in KermitRoundTrip.
- KermitRoundTrip.FrameRoundTrip: data is free of NUL, packet start and packet end, which is what the encoding produces.
- KermitReceiver.Receiver.HandleGoodRpkt: data is not empty and free of NUL, and the number is not a stray one while the window lies across the wrap, which KermitDelivery proves of everything the sender puts on the line. Other packets lead to a state called Confused in KermitLink, proved unreachable.
- KermitReceivingSide.ReceivingSide.KRun: X packets while receiving data, and S, F and B packets after the end of the file, are not modelled.
- KermitNegotiation.NegotiationAgrees: both sides start from the reinitialised state, without parity, and offer long packets, with 10 to 1000 bytes to receive; eighth-bit prefixing is off.
- GattLongValue.LongWriteIsOneWrite: offset and length together stay within 16 bits (WrittenAtIff and JoinedIsWholeIff say what happens beyond) and no other prepared write waits at the server.
- GattLongValue.ReadPastLimit: the memory behind the response is taken to hold arbitrary bytes; that reading it may stop the program is not modelled.
- GattDb.EveryRunIsValidIff: characteristics and descriptors with explicit handles are not modelled.
- AttProtocol.OperationsAreConserved: callbacks are steps of their own and do not call back into the transport; bearer queues hold responses and confirmations only; identifiers do not wrap; memory allocation does not fail; a query of the security level does not fail.
- AttProtocol.ProtocolIsSequential: the order of repeated transmissions is proved for one bearer; with several, only the order of first transmissions holds.
- FileCrc.CalcCrcSoft: the desktop build; the STM32 and FatFs variants and their error numbers are not part of this model.
- MldpFifo.TxFifoSendBytes: FIFO operations are atomic; the code takes no lock around them.
- Kermit: E packets sent after a receiver failure, the re-sent ACK 0 in R_FILE, cancellation by X and Z, failing file writes, text mode, eighth-bit prefixing, directory listings, attribute strings, several files in one batch.
- KermitFrame.ReadPacket: the five-byte array that collects the abort command is written at its index 5 for every byte after the fifth; the model leaves that write out.
- Kermit: what follows an abort command or an overlong packet in the reader; in the link both count as nothing received.
- BlueZ: attributes with read and write functions (only stored values), Read By Type, Find Information, Find By Type Value, Read Multiple, included services, characteristic and descriptor discovery loops, notifications, signed writes, encryption keys, reference counts, a long write queued behind another, 32-bit service UUIDs, MTUs below 23.
- BlueZ: queue iteration with callbacks that change the queue, and reference counts of queues.
- HCI, sockets, main loop, threads, timers and logging: input and output of the system, taken as events here.
