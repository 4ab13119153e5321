# The stateful core of the etheos game server, in Dafny

etheos is a server for the Endless Online protocol, written in C++. This project models the parts of it that
carry state and have an exact meaning, each in the form the source has (classes with methods that change their
fields, loops over buffers and lists), and proves what they promise:

- **The wire.** Number fields in base 253 and the packet builder and reader (`PacketFields`); the scrambling of
  packets (`PacketCodec`), with the exact condition under which decoding undoes encoding; what both put where, byte by
  byte (`WireFormat`); the power-of-two ring
  buffers (`Ring`, `Socket`) as FIFO queues; the framing state machine (`Framing`), independent of how bytes
  arrive; the whole way from fields to fields (`WirePath`); the buffer swap during uploads (`Upload`); the rotating
  sequence number, agreed between server and client over every run (`Sequence`).
- **SHA-256** (`Sha256`): the streaming hash is the same for every way of cutting a message, and it is the one FIPS 180-4
  defines (`Sha256Standard`): its constants are the roots of the first primes (`PrimeNumbers`), its functions work bit by
  bit as stated there (`WordBits`), and its schedule, rounds and padding are the only ones that follow the standard.
- **Visibility** (`Visibility`): the two border lists of a step keep every client's view equal to the plain distance
  test.
- **Quests.** The token server with put-back and line counting (`QuestTokens`); the grammar as functions on tokens
  (`QuestParser`) and the recursive-descent parser that computes it (`QuestReader`); independently of both, the
  language as a set of syntax trees with their spelling and meaning (`QuestSyntax`). Every tree reads back as what it
  means (`QuestRoundTrip`), nothing else is accepted (`QuestGrammar`), and every quest has a text (`QuestTexts`). The
  text in which quest progress is saved (`QuestRecords`).
- **Items.** Inventory, paperdoll, locker, bank, chests and floor as one system (`Items`, `ItemHandlers`), with exact
  conservation over every run of several characters (`ItemRuns`), how much each request moves and when (`ItemLaws`),
  and the carried weight (`ItemWeights`); the lowest-free-id scans (`Ids`).
- **Smaller machines.** The damage list of NPCs and the rewards paid from it (`DamageLedger`, `Shares`), transaction
  replay after a lost connection (`Transactions`), the wedding ceremony (`Wedding`), clock and timer (`Timers`).

`Bytes` holds bytes and sequence identities. Values of other systems (what the network takes or delivers, what a
database server answers, what a clock reads, dice, whether a tile is near or free) are parameters; the proofs hold for
all of them.

Facts about the code that the proofs bring out, each stated by a member below:

- `Encode` reverses runs over the two length bytes as well, so a packet can lose its header (`CrossingCase`,
  `WirePath.HeaderCanBeLost`); with the keys the server hands out short packets are safe from this, because of the
  filler 254 (`ShortMessageSurvivesIff`).
- When a file and six more bytes fill the temporary buffer exactly, its last byte arrives as 0, unless it is a map file
  (`FitsIff`, `DeliveredIff`, `LastByteLost`).
- A frame of length zero stops a client for good (`ParseBlocked`).
- Of the negative quest progress values only -18928 reads back (`EntryRoundTrip`); -1 comes back as -29
  (`NegativeValueChanges`).
- A call written scope first is always refused (`ScopeFirstIsRefused`).
- Dropping on a full tile destroys the item; adding to a stack above `MaxItem` shrinks it (`ConservedIff`,
  `AddingCanShrink`).
- 65536 items of weight 1 weigh nothing (`HeavyStackWeighsNothing`); weights are exact for stacks that weigh up to
  32518, and no further (`StackLimitIsTight`).
- Floor items get equal ids once 32768 ids are in use (`NewIdDistinct`, `IdsRunOut`); with 256 NPC indexes in use the
  scan for another never ends (`ScanEndsIff`).
- Damage sums and entries part company only when one overflows without the other (`NPC.Enter`).

## Model

| member | source | states |
|---|---|---|
| `PacketCodec.DickWinder` | src/packet.cpp:227-268 | the loop over a growing buffer reverses exactly the maximal runs of multiples of the key; key 0 changes nothing |
| `PacketCodec.WindInvolution` | src/packet.cpp:227-268 | run reversal is its own inverse, for every key and string |
| `PacketCodec.ReverseRunsKeepsClass` | src/packet.cpp:227-268 | every position keeps its class (multiple of the key or not) and bytes outside the class do not move |
| `PacketCodec.ReverseRunsSplit` | src/packet.cpp:227-268 | reversal works on both sides of any cut that is not inside a run |
| `PacketCodec.Interleave` | src/packet.cpp:193-210 | the two filling loops of encoding put payload byte t at its place, top bit flipped |
| `PacketCodec.SwapZeros` | src/packet.cpp:212-222 | from position 2 on, 0 and 128 are exchanged, the first two positions are left alone |
| `PacketCodec.Encode` | src/packet.cpp:177-225 | the header goes through reversal with the payload; the payload comes out scrambled; INIT packets and key 0 pass unchanged |
| `PacketCodec.Deinterleave` | src/packet.cpp:143-160 | the two loops of decoding undo the interleave and the top-bit flip |
| `PacketCodec.Decode` | src/packet.cpp:131-175 | de-interleave, exchange of 0 and 128 except in the first two places, then reversal |
| `PacketCodec.UnscrambleScramble` | src/packet.cpp:131-225 | undoing the interleave gives the payload back, apart from 0 and 128 in the first two places |
| `PacketCodec.InitSurvives` | src/packet.cpp:131-225 | INIT packets and packets sent without keys are never touched, and survive |
| `PacketCodec.SurvivesIff` | src/packet.cpp:131-278 | for every other packet of at least 4 bytes: decoding what was encoded gives the packet back, header included, if and only if three stated conditions on the reversed packet hold |
| `PacketCodec.SurvivesIffSplit` | src/packet.cpp:131-278 | for every such packet, by its own bytes: if a run crosses from the header into the payload, it survives if and only if that run repeats one byte (or two in turn, with 0 and 128 exchanged in the first two payload places) and one corner case of 127 is avoided; otherwise if and only if the header survives its own reversal and the reversed payload avoids two special cases |
| `PacketCodec.CrossingCase` | src/packet.cpp:131-278 | the crossing half of it: a run of bytes is moved into the header and still comes back exactly when it repeats itself as stated |
| `PacketCodec.FillerIsSafe` | src/handlers/Init.cpp:135-136 | the length filler 254 is no multiple of any key the server hands out |
| `WireFormat.WindExact` | src/packet.cpp:227-268 | in terms of bytes alone: with key 0 nothing moves, no byte that is not a multiple of the key moves, and a maximal run of multiples from a to b is turned around where it stands |
| `WireFormat.EncodedExact` | src/packet.cpp:177-225 | what goes over the wire, place by place: the two header bytes, then the payload after run reversal taken alternately from its front and its back, each byte moved by 128 except 0 and 128 |
| `WireFormat.DecodedExact` | src/packet.cpp:131-175 | what is made of a received payload, place by place: even places are the front, odd ones the back from its end; each byte moved by 128 except 0 and 128 from the third place on; then run reversal |
| `WireFormat.NumberExact` | src/packet.cpp:286-311 | four bytes as a base-253 number, 254 standing for 1 and 0 for 128 |
| `WireFormat.NumberBytesExact` | src/packet.cpp:313-353 | below 253^4 the digits plus one add up to the number, and there are fillers exactly where it has no digit |
| `WireFormat.LargeNumberBytes` | src/packet.cpp:313-353 | above that the top digit is cut to a byte, the others are as always |
| `PacketFields.ENumber` | src/packet.cpp:313-353 | the four bytes written for a number are its base-253 digits plus one, with filler above |
| `PacketFields.NumberRoundTrip` | src/packet.cpp:286-353 | k bytes of a written number read back as the number modulo 253^k (k below 4), by the rule of the code for 4 |
| `PacketFields.IntExactIff` | src/packet.cpp:286-353 | a 4-byte number reads back exactly if and only if its top digit is neither 253 nor at least 255 |
| `PacketFields.NumberBytesAreSafe` | src/packet.cpp:313-353 | number bytes are never 0 or 255 below 253^4 |
| `PacketFields.PacketReader.GetNumber` | src/packet.cpp:398-446 | reads the value of the next bytes, with filler for missing ones, and moves past them |
| `PacketFields.PacketReader.GetByte` | src/packet.cpp:417-426 | reads one byte, or 0 at the end |
| `PacketFields.PacketReader.GetFixedString` | src/packet.cpp:448-457 | reads exactly that many bytes, or nothing and without moving when fewer are left |
| `PacketFields.PacketReader.GetBreakString` | src/packet.cpp:459-464 | reads up to the break byte and moves past it; without one it returns nothing and still skips a byte, so that the reader stays within its data if and only if it did not stand at the end |
| `PacketFields.PacketReader.GetEndString` | src/packet.cpp:466-469 | reads all that is left |
| `PacketFields.PacketBuilder.AddByte` | src/packet.cpp:538-552 | appends one byte |
| `PacketFields.PacketBuilder.AddNumber` | src/packet.cpp:554-616 | appends the low bytes of the number |
| `PacketFields.PacketBuilder.AddString` | src/packet.cpp:632-646 | appends the string |
| `PacketFields.PacketBuilder.AddBreakString` | src/packet.cpp:648-673 | appends the string with every 0xFF replaced by y, and the break byte |
| `PacketFields.PacketBuilder.AddSize` | src/packet.cpp:675-678 | announces more bytes than the packet has |
| `PacketFields.PacketBuilder.Get` | src/packet.cpp:686-700 | length, identity, data |
| `PacketFields.FieldRoundTrip` | src/packet.cpp:398-673 | wherever it stands, a written field reads back as its value and is read to its end |
| `PacketFields.FieldsRoundTrip` | src/packet.cpp:398-673 | reading back the types that were written gives the value of every field of any list |
| `PacketFields.LengthHeader` | src/packet.cpp:686-700 | the two length bytes decode to the length of what follows, below 253^2 |
| `WireFormat.MeaningExact` | src/packet.cpp:398-673 | bytes and strings come back as they are, numbers if their width is enough, and break strings with y for 0xFF |
| `WireFormat.WrittenExact` | src/packet.cpp:538-673 | how many bytes each kind of field takes, and which |
| `WireFormat.MeaningsExact` | src/packet.cpp:398-673 | a list of fields has one value each, in order |
| `WireFormat.WrittenNext` | src/packet.cpp:538-673 | a list of fields is written one after the other |
| `WireFormat.PacketExact` | src/packet.cpp:686-700 | the first two bytes announce what follows them, file sizes included; then action and family, then the data |
| `Ring.MaskIsWrap` | src/socket.cpp:357-449 | for a power of two n, masking with n-1 is the remainder modulo n |
| `Ring.CheckPowerOfTwo` | src/socket.cpp:292-301 | the halving loop accepts exactly the powers of two |
| `Ring.PutAppends` | src/socket.cpp:376-393 | writing behind the put position appends to the queue a ring stands for |
| `Ring.GetDrops` | src/socket.cpp:357-374 | moving the get position on drops the oldest elements |
| `Socket.Buffer.Put` | src/socket.cpp:376-393 | the byte loop appends the data to the queue |
| `Socket.Buffer.Take` | src/socket.cpp:357-374 | returns the oldest bytes, as many as asked for or there are, and removes exactly these |
| `Socket.Buffer.Offer` | src/socket.cpp:426-449 | after a partial write exactly the bytes taken are gone |
| `Socket.Client.Recv` | src/socket.cpp:357-374 | hands over the oldest received bytes; all that arrived is always what was handed over plus the queue |
| `Socket.Client.Send` | src/socket.cpp:376-393 | queues all of the data, or closes the client if it does not fit |
| `Socket.Client.DoRecv` | src/socket.cpp:395-424 | queues what arrived; an empty read closes |
| `Socket.Client.DoSend` | src/socket.cpp:426-449 | whatever part the network takes, bytes leave in the order they entered; a failed write closes |
| `Framing.ParseAppend` | src/eoclient.cpp:150-209 | batch parsing can be cut anywhere: frames and partial rest compose |
| `Framing.ParseFrame` | src/eoclient.cpp:150-209 | a whole frame in front is the first frame of the parse |
| `Framing.ParseBlocked` | src/eoclient.cpp:150-209 | behind a frame of length zero nothing is ever parsed |
| `Framing.ParseWaits` | src/eoclient.cpp:150-209 | a header that is incomplete, or announces more than is there, waits for the rest |
| `Framing.FramedClient.Consume` | src/eoclient.cpp:150-209 | one pass of the state machine executes exactly the frames of what was pending and read, and keeps the rest |
| `Framing.FramedClient.Tick` | src/eoclient.cpp:150-209 | executed packets plus partial state are the batch parse of the bytes consumed, and a tick reads something if it can |
| `Framing.FramedClient.TickAll` | src/eoserver.cpp:284-296 | ticking to the end executes every complete frame that ever arrived, and nothing else |
| `Framing.FramedClient.Arrive` | src/socket.cpp:395-424 | arriving bytes execute nothing by themselves |
| `WirePath.HeaderAnnounces` | src/packet.cpp:686-700 | the header of a packet that survives announces exactly its scrambled body |
| `WirePath.StreamParses` | src/eoclient.cpp:150-209 | the receiver cuts a stream of packets exactly where the packets end |
| `WirePath.FrameReads` | src/packet.cpp:131-175 | a frame, unscrambled, carries the identity and reads back as the field values |
| `WirePath.ShortMessageSurvivesIff` | src/packet.cpp:131-278 | with the keys the server uses a short packet survives if and only if its reversed payload does |
| `WirePath.HeaderCanBeLost` | src/packet.cpp:177-225 | with key 6 and action 18, every packet the builder makes that announces 2783 to 3035 bytes and whose family is no multiple of 6 is scrambled with a changed length header and does not survive, unless its first length byte is 18 too |
| `WirePath.Receive` | src/eoclient.cpp:98-209 | end to end: any list of messages sent is, whatever the arrival schedule, executed in order and read back |
| `Upload.FitsIff` | src/eoclient.cpp:376-384 | all files of a size are delivered, and the last slot written lies inside the temporary buffer, if and only if it is a map file or 6 + size is not exactly the size of that buffer |
| `Upload.DeliveredIff` | src/eoclient.cpp:352-406 | one file reaches the network unchanged if and only if it is a map, or 6 + size is not exactly the buffer size, or it is empty or its last byte is 0 |
| `Upload.LastByteLost` | src/eoclient.cpp:104-128 | a file of 8186 bytes sent through a buffer of 8192 arrives with its last byte replaced by 0 |
| `Upload.TempSizePower` | src/eoclient.cpp:376-384 | doubling gives a power of two that is large enough |
| `Upload.TempSizeLeast` | src/eoclient.cpp:376-384 | and the first such: half of it would be too small, unless nothing was doubled |
| `Upload.HeaderExact` | src/eoclient.cpp:391-400 | the announcement counts the file as part of the packet, names the INIT packet, and carries the reply and, for pub files, a 1 |
| `Upload.OneByteNumber` | src/packet.cpp:554-566 | one byte carries a number below 253; the reply goes out as itself plus one |
| `Upload.UploadClient.Upload` | src/eoclient.cpp:352-406 | for every file and buffer: from here on the network must get header, what is delivered of the file, then what was pending; the old buffer is set aside; refused during another upload or without a file |
| `Upload.UploadClient.Send` | src/eoclient.cpp:408-441 | a packet sent during an upload comes after everything promised so far |
| `Upload.UploadClient.DoSend` | src/socket.cpp:426-449 | the network takes a prefix of what was promised, in order |
| `Upload.UploadClient.ReadFile` | src/eoclient.cpp:104-128 | file bytes land behind the put position, the one that would land behind the buffer is read as 0, and nothing promised changes |
| `Upload.UploadClient.Tick` | src/eoclient.cpp:104-149 | nothing promised is lost, repeated or mixed, and the real buffer returns exactly when file and temporary buffer are both empty |
| `Sequence.InitBytesAgree` | src/eoclient.cpp:237-246 | for every start value and every roll the two INIT bytes fit and give the start back |
| `Sequence.InitBytesIff` | src/eoclient.cpp:237-246 | the limits of the roll are exactly where both bytes fit into one number byte |
| `Sequence.InitBytesExist` | src/eoclient.cpp:237-246 | there is always something to roll |
| `Sequence.UpdateBytesAgree` | src/eoclient.cpp:248-257 | the update bytes survive a short and a char and give the start back |
| `Sequence.NumberAgrees` | src/eoclient.cpp:302-331 | when both expect the same number, it is read with the width it was written with, across the switch at 253 |
| `Sequence.NumberFieldExact` | src/eoclient.cpp:302-331 | one byte below 253 and two from there on, as base-253 digits plus one |
| `Sequence.ReadNumberExact` | src/eoclient.cpp:302-331 | the number is read from behind action and family, as wide as the expected number is |
| `Sequence.AcceptsIff` | src/eoclient.cpp:302-331 | INIT packets are always taken, others if and only if they carry the expected number, counted from the new start when the packet is a pong |
| `Sequence.CountedExact` | src/eoclient.cpp:259-266 | ten numbers, over and over, whatever the packet; only a pong changes the start |
| `Sequence.SequenceState.PingAll` | src/eoserver.cpp:31-57 | issues one rotation unless the last ping is unanswered, which closes the client |
| `Sequence.SequenceState.Execute` | src/eoclient.cpp:302-331 | a pong switches first, then every packet is counted; accepted if and only if the number is the expected one |
| `Sequence.SequenceState.HandlePong` | src/handlers/Connection.cpp:32-44 | clears the outstanding ping |
| `Sequence.SequenceState.InitNewSequence` | src/eoclient.cpp:212-215 | sets the start |
| `Sequence.SequenceState.PongNewSequence` | src/eoclient.cpp:222-225 | the upcoming start becomes the start |
| `Sequence.SequenceState.GenSequence` | src/eoclient.cpp:259-266 | start plus count, counted modulo ten |
| `Sequence.StepAgreed` | src/eoclient.cpp:212-331 | every step of server, client and channels keeps the agreement |
| `Sequence.NeverRefused` | src/eoclient.cpp:212-331 | no run refuses a packet of a conforming client; at most one rotation is under way; with empty channels both sides agree |
| `Sequence.NeverRefusedFromStart` | src/eoclient.cpp:212-331 | the same three facts from the state after the INIT exchange |
| `Sha256.ChRewritten` | src/sha256.c:88-128 | the rewritten choice function is that of FIPS 180-4, section 4.1.2 |
| `Sha256.MajRewritten` | src/sha256.c:88-128 | the rewritten majority function is that of FIPS 180-4, section 4.1.2 |
| `Sha256.RoundRewritten` | src/sha256.c:111-122 | one round with rotated registers is one round of FIPS 180-4, section 6.2.2 |
| `Sha256.ScheduleRewritten` | src/sha256.c:105-109 | a schedule word as computed is that of section 6.2.2 |
| `Sha256.AppendBlock` | src/sha256.c:130-160 | a whole block more compresses once more |
| `Sha256.TailGrows` | src/sha256.c:130-160 | a short chunk only lengthens the tail |
| `Sha256.TailCompletes` | src/sha256.c:130-160 | a chunk that fills the tail completes a block |
| `Sha256.PadOneBlock` | src/sha256.c:162-203 | with room for the length the padding of section 5.1.1 ends in this block |
| `Sha256.PadTwoBlocks` | src/sha256.c:162-203 | without room it takes one block more |
| `Sha256.Context.Start` | src/sha256.c:76-86 | the initial hash value of section 5.3.3 and an empty tail |
| `Sha256.Context.Process` | src/sha256.c:88-128 | one compression of section 6.2.2 |
| `Sha256.Context.Update` | src/sha256.c:130-160 | after any chunk the state is the fold over all whole blocks so far and the buffer is exactly the tail |
| `Sha256.Context.Finish` | src/sha256.c:162-203 | the digest is the hash of the padded message |
| `Sha256.HashChunks` | src/sha256.c:162-203 | for every cutting of a message below 2^61 bytes the raw digest is the one-shot SHA-256 |
| `Sha256.HashText` | src/hash.cpp:14-31 | the text returned is the SHA-256 of the input, each byte as its two lower-case hexadecimal digits |
| `Sha256.HexIsFaithful` | src/hash.cpp:14-31 | two digests have the same text if and only if they are equal |
| `Sha256Standard.ConstantsExact` | src/sha256.c:31-48 | constant number t holds the first 32 bits of the fractional part of the cube root of the t-th prime (section 4.2.2) |
| `PrimeNumbers.PrimesInOrder` | src/sha256.c:31-48 | these primes are all of the first 64, in order, none left out |
| `Sha256Standard.InitialExact` | src/sha256.c:50-53 | the initial words hold those of the square roots of the first eight primes (section 5.3.3) |
| `Sha256Standard.ChExact` | src/sha256.c:88-128 | Ch chooses, in every bit, by its first word |
| `Sha256Standard.MajExact` | src/sha256.c:88-128 | Maj agrees, in every bit, with any two words that agree there |
| `Sha256Standard.BigSigma0Exact` | src/sha256.c:71-122 | the rotations by 2, 13 and 22, as shifts of two copies of the word side by side |
| `Sha256Standard.BigSigma1Exact` | src/sha256.c:71-122 | the rotations by 6, 11 and 25 |
| `Sha256Standard.SmallSigma0Exact` | src/sha256.c:71-109 | the rotations by 7 and 18 and the shift by 3 |
| `Sha256Standard.SmallSigma1Exact` | src/sha256.c:71-109 | the rotations by 17 and 19 and the shift by 10 |
| `Sha256Standard.ScheduleExact` | src/sha256.c:100-109 | the message schedule is the only list of 64 words that obeys the recurrence of section 6.2.2, big-endian words first |
| `Sha256Standard.RoundExact` | src/sha256.c:111-122 | a round maps the working variables as the sums of section 6.2.2, step 3, say, and in no other way |
| `Sha256Standard.CompressExact` | src/sha256.c:88-128 | any schedule and any 64 rounds that follow the standard end with exactly the compressed hash value |
| `Sha256Standard.PadExact` | src/sha256.c:162-203 | there is exactly one padding of a message by section 5.1.1, and it is the one computed |
| `Sha256Standard.HashExact` | src/sha256.c:162-203 | the digest is the last hash value of any computation that pads the message and goes through its blocks as the standard says |
| `Visibility.NewBorderExact` | src/map.cpp:1026-1080 | a cell is on the new border if and only if it is within sight now and was not before |
| `Visibility.OldBorderExact` | src/map.cpp:1026-1080 | a cell is on the old border if and only if it was within sight and is not any more |
| `Visibility.Borders` | src/map.cpp:1026-1080 | the loops list exactly the two differences, each cell once |
| `Visibility.Map.Classify` | src/map.cpp:1082-1131 | who stands on which border |
| `Visibility.Map.Target` | src/map.cpp:917-975 | the wrap-around test of the byte coordinates fires only outside the map, in spite of the test of the wrong coordinate for one direction |
| `Visibility.Map.WalkCharacter` | src/map.cpp:917-1279 | after any step of a player every client shows exactly the entities within sight, each where it is |
| `Visibility.Map.WalkNpc` | src/map.cpp:1281-1466 | after any step of an NPC every client shows exactly the entities within sight, each where it is |
| `Visibility.Map.OwnView` | src/map.cpp:1133-1279 | why the messages to the walker give it the right view |
| `Visibility.Map.OtherView` | src/map.cpp:1133-1279 | why the messages to everybody else give them the right view |
| `Visibility.Map.NpcWatched` | src/map.cpp:1425-1463 | why the three messages about an NPC give the right view of it |
| `Visibility.FullViewExact` | src/util.hpp:109-115 | the plain test of distance gives an exact view |
| `Visibility.SightIsDiamond` | src/util.hpp:109-115 | sight is the diamond between four diagonals |
| `Visibility.ExactUnique` | src/util.hpp:109-115 | there is only one exact view, so incremental and plain views are equal |
| `QuestTokens.TokenServer.XGetToken` | src/eoplus/parse.hpp:60-66 | the next input token, or none at the end |
| `QuestTokens.TokenServer.GetToken` | src/eoplus/parse.cpp:22-63 | line counter plus newlines still to come stays constant; the visible tokens lose the token asked for, or nothing if it is refused |
| `QuestTokens.TokenServer.PutBack` | src/eoplus/parse.cpp:65-78 | the token is in front again and no line is lost |
| `QuestTokens.SkipContent` | src/eoplus/parse.cpp:27-52 | skipping newlines loses no visible token |
| `QuestTokens.ContentSkips` | src/eoplus/parse.cpp:74-75 | newlines put back are invisible and all counted |
| `QuestReader.Parser.GetTokenIf` | src/eoplus/parse.hpp:87-98 | a token that fails the test stays |
| `QuestReader.Parser.ParseVersion` | src/eoplus/parse.cpp:142-166 | the loop-free reading of a version agrees with the grammar and conserves lines |
| `QuestReader.Parser.ParseScopes` | src/eoplus/parse.cpp:168-200 | the loop agrees with the grammar; an identifier that is no scope is put back |
| `QuestReader.Parser.ParseExpression` | src/eoplus/parse.cpp:202-264 | agrees with the grammar, errors included, and conserves lines |
| `QuestReader.Parser.ParseArgs` | src/eoplus/parse.cpp:235-254 | the argument loop agrees with the grammar |
| `QuestReader.Parser.ParseCall` | src/eoplus/parse.cpp:228-259 | the parenthesised part agrees with the grammar |
| `QuestReader.Parser.ParseAction` | src/eoplus/parse.cpp:286-292 | agrees with the grammar |
| `QuestReader.Parser.ParseRule` | src/eoplus/parse.cpp:294-300 | agrees with the grammar |
| `QuestReader.Parser.ParseQuestName` | src/eoplus/parse.cpp:266-274 | agrees with the grammar |
| `QuestReader.Parser.ParseDesc` | src/eoplus/parse.cpp:276-284 | agrees with the grammar |
| `QuestReader.Parser.ParseEntry` | src/eoplus/parse.cpp:308-349 | one entry of a state, with the handlers for goal and desc, agrees with the grammar |
| `QuestReader.Parser.ParseRuleActionBlock` | src/eoplus/parse.cpp:302-371 | the loop over entries agrees with the grammar |
| `QuestReader.Parser.ParseMain` | src/eoplus/parse.cpp:373-436 | the loop over the main block agrees with the grammar, with each attribute at most once |
| `QuestReader.Parser.ParseMainBlock` | src/eoplus/parse.cpp:489-497 | agrees with the grammar |
| `QuestReader.Parser.ParseStateBlock` | src/eoplus/parse.cpp:438-487 | agrees with the grammar |
| `QuestReader.Parser.ParseGlobal` | src/eoplus/parse.cpp:499-537 | the quest built up block by block is the one the grammar gives, or the same error |
| `QuestReader.ReadQuest` | src/eoplus/parse.cpp:499-537 | a whole token list: the result depends only on the tokens that are not newlines, it is accepted if and only if it spells a sound quest, and no error names a line past the last |
| `QuestReader.NewLinesAnywhere` | src/eoplus/parse.cpp:22-63 | inserting newlines anywhere changes no result |
| `QuestRoundTrip.ExpressionRoundTrip` | src/eoplus/parse.cpp:202-264 | a call with any scopes behind its name and any arguments, a goto, or nothing in front of a symbol reads back |
| `QuestRoundTrip.GotoIsSetState` | src/eoplus/parse.cpp:209-222 | goto and a call of setstate are the same expression |
| `QuestRoundTrip.ScopeFirstIsRefused` | src/eoplus/parse.cpp:225-259 | a call written scope first is always refused |
| `QuestRoundTrip.ScopesRoundTrip` | src/eoplus/parse.cpp:168-200 | any list of scopes behind a name reads back in order |
| `QuestRoundTrip.StateRoundTrip` | src/eoplus/parse.cpp:438-487 | a state reads back with all its parts, whatever the order of its entries, with any number of semicolons before and after each, and with either word for else-if; it is refused if and only if it has two descriptions |
| `QuestRoundTrip.InfoRoundTrip` | src/eoplus/parse.cpp:373-436 | a main block reads back, attributes in any order, the version with or without a minor number; it is refused if and only if an attribute comes twice, and the error says which |
| `QuestRoundTrip.VersionRoundTrip` | src/eoplus/parse.cpp:142-166 | a version with or without a minor number, each number cut to 16 bits |
| `QuestRoundTrip.RuleRoundTrip` | src/eoplus/parse.cpp:294-300 | a rule reads back with both its expressions, either of them a call, a goto, or missing at its end |
| `QuestRoundTrip.EntryRoundTrip` | src/eoplus/parse.cpp:302-371 | every kind of entry, the semicolon included, adds to a state exactly what it means |
| `QuestRoundTrip.QuestRoundTrip` | src/eoplus/parse.cpp:499-537 | blocks in any order read back as the quest they mean if and only if there is exactly one main block, state names are distinct and no block says anything twice; otherwise the error names something that is wrong |
| `QuestGrammar.PhraseTree` | src/eoplus/parse.cpp:202-264 | whatever is read as an expression is spelt by one |
| `QuestGrammar.BlockTree` | src/eoplus/parse.cpp:302-371 | whatever is read as a state block is spelt by entries |
| `QuestGrammar.QuestTree` | src/eoplus/parse.cpp:499-537 | whatever is read as a quest is spelt by blocks |
| `QuestGrammar.AcceptedIff` | src/eoplus/parse.cpp:142-537 | the parser accepts exactly the texts of sound quests, and makes of each what it means |
| `QuestTexts.StateMeans` | src/eoplus/parse.cpp:438-487 | for every such state, with any rules, actions and goal, a well-formed text that means exactly this state |
| `QuestTexts.StateTextIff` | src/eoplus/parse.cpp:438-487 | a state has a text if and only if no function of it lacks a name or is called goto, no argument lacks a value, no action stands behind a missing condition, and the goal is the number of a rule or 0 |
| `QuestTexts.InfoMeans` | src/eoplus/parse.cpp:373-436 | every main block with a version below 2^32 has a text |
| `QuestTexts.EveryQuestHasText` | src/eoplus/parse.cpp:499-537 | any main block and any list of states, written down, read back as exactly these if and only if the names are distinct; otherwise the quest is refused for that reason |
| `QuestRecords.SerializeProgress` | src/quest.cpp:978-997 | the loop writes the brace text of the entries in order |
| `QuestRecords.UnserializeProgress` | src/quest.cpp:999-1047 | the character loop computes the reader up to the closing brace |
| `QuestRecords.ProgressRoundTrip` | src/quest.cpp:978-1047 | a progress map of shorts, with keys free of = and }, written in any order, reads back if and only if every value is non-negative or -18928; commas in keys or not |
| `QuestRecords.EntryRoundTrip` | src/quest.cpp:978-1047 | for every fitting key and short: what value is read back, and that it is the written one if and only if this is non-negative or -18928 |
| `QuestRecords.RereadIff` | src/quest.cpp:999-1047 | why: reading the sign as a digit and cutting to a short leaves, of all shorts, exactly these values alone |
| `QuestRecords.NegativeValueChanges` | src/quest.cpp:999-1047 | for example, -1 reads back as -29 |
| `QuestRecords.QuestSerialize` | src/character.cpp:199-235 | the written text is that of the active records, then of the kept inactive ones |
| `QuestRecords.Explode` | src/util.cpp:87-102 | splitting at a delimiter gives exactly the pieces between delimiters |
| `QuestRecords.QuestUnserialize` | src/character.cpp:237-299 | the records found are those of the pieces that have the three parts |
| `QuestRecords.RecordsRoundTrip` | src/character.cpp:199-287 | a written list of records reads back with the same ids, states and progress texts, although progress texts contain commas |
| `QuestRecords.QuestRoundTrip` | src/character.cpp:199-287 | from record list to progress maps: every record of any list comes back with its id and state, and with its progress if and only if that reads back by itself |
| `QuestRecords.ProgressFits` | src/quest.cpp:978-997 | a progress text contains no semicolon |
| `QuestRecords.IntRoundTrip` | src/quest.cpp:978-1047 | decimal writing and reading of any integer are inverse |
| `QuestRecords.DecimalText` | src/quest.cpp:978-997 | decimal text has one character per digit, the highest first, behind a minus sign for negative numbers |
| `QuestRecords.ProgressTextNext` | src/quest.cpp:978-997 | the text of a progress map: braces around key=value, commas between |
| `QuestRecords.ReadExact` | src/quest.cpp:999-1047 | reading adds every entry to the map that is there, whatever stands behind the closing brace, and nothing from a text without an opening one |
| `QuestRecords.AddedNext` | src/quest.cpp:999-1047 | an entry read later replaces one of the same key |
| `QuestRecords.RecordsTextNext` | src/character.cpp:199-235 | the text of a record list: id, state and progress with commas, and a semicolon behind each |
| `QuestRecords.ActiveNext` | src/character.cpp:199-221 | an active quest is saved with its state and progress, a slot without one passed over |
| `QuestRecords.KeptNext` | src/character.cpp:221-235 | an inactive record is saved as it is, unless its quest is among the active ones |
| `QuestRecords.SplitExact` | src/util.cpp:87-102 | splitting takes out exactly the delimiters, and joining puts them back |
| `QuestRecords.PieceExact` | src/character.cpp:237-287 | a piece with no comma stands for nothing, with one for a quest and its state, with two for its progress, too |
| `Transactions.Database.Recover` | src/database.cpp:688-772 | after any number of lost connections the server holds the open transaction again: the log, in order and once each |
| `Transactions.Database.Replay` | src/database.cpp:715-755 | a replay that ends well leaves exactly the log in the open transaction |
| `Transactions.Database.RawQuery` | src/database.cpp:647-786 | a query that succeeds has had its effect exactly once, and is logged if it changes something inside a transaction |
| `Transactions.Database.BeginTransaction` | src/database.cpp:1215-1266 | opens an empty transaction, or refuses because one is open |
| `Transactions.Database.Commit` | src/database.cpp:1268-1284 | everything logged becomes durable in order, or nothing |
| `Transactions.Database.Rollback` | src/database.cpp:1286-1302 | nothing of the open transaction becomes durable |
| `Transactions.Database.ExecuteQueries` | src/database.hpp:202-214 | all of the queries become durable, in order and once each, or none, under any pattern of losses |
| `Transactions.Database.Unwind` | src/database.cpp:309-313 | leaving the context uncommitted rolls back |
| `Transactions.EffectExact` | src/database.cpp:647-786 | which queries change something, and what they do to the open transaction and to what is durable |
| `Transactions.ChangesExact` | src/database.hpp:202-214 | what a list of queries changes: all that do not begin with SELECT, in order |
| `Transactions.RecoverySucceeds` | src/database.cpp:688-772 | after fewer than ten failed attempts, a connection that lasts for the whole replay ends the recovery well |
| `Transactions.RecoveryGivesUp` | src/database.cpp:688-772 | after ten failed attempts the process ends |
| `Transactions.RecoveryRefused` | src/database.cpp:715-755 | and so it does when a repeated query is refused |
| `Transactions.QueriedAfterOutages` | src/database.cpp:647-786 | after any number of outages a query that is answered at last is done |
| `Transactions.BegunAfterRefusals` | src/database.cpp:1215-1266 | a transaction that is refused fewer than ten times is begun; after ten refusals the process ends |
| `Transactions.WentWellIff` | src/database.hpp:202-214 | where nothing goes wrong, a bulk of queries goes well if and only if there is an answer for the beginning, for each query and for the commit |
| `Wedding.WeddingState.Tick` | src/wedding.cpp:128-384 | one timer tick moves the ceremony on by its timetable, through all nested calls |
| `Wedding.WeddingState.NextState` | src/wedding.cpp:76-82 | the next state, or the end when somebody is missing |
| `Wedding.WeddingState.ChangeState` | src/wedding.cpp:69-74 | entering a state runs its first tick |
| `Wedding.WeddingState.Check` | src/wedding.cpp:84-102 | somebody missing ends the ceremony |
| `Wedding.WeddingState.StartWedding` | src/wedding.cpp:401-416 | refused while busy; otherwise the ceremony starts and the timer runs |
| `Wedding.WeddingState.IDo` | src/wedding.cpp:423-439 | counts only for the partner whose turn it is |
| `Wedding.StepSound` | src/wedding.cpp:69-439 | every step keeps: no marriage without both vows, the marriages have distinct ceremony numbers, none of a ceremony still before its end, the timer runs while the ceremony does |
| `Wedding.StateRises` | src/wedding.cpp:69-439 | the state only rises until it resets, and only the vow of the partner in turn leads on from the two waits |
| `Wedding.MarriagesSound` | src/wedding.cpp:69-439 | the same over every run |
| `Wedding.MarriagesFromStart` | src/wedding.cpp:69-439 | from the very beginning, over every run: at most one marriage per ceremony, each in a ceremony that was started and after both vows |
| `Wedding.StepShortens` | src/wedding.cpp:128-384 | every tick uses up time and no vow adds any |
| `Wedding.CeremonyEnds` | src/wedding.cpp:128-384 | a ceremony is over after as many ticks as it had left, however vows and departures fall |
| `Wedding.StartedCeremonyEnds` | src/wedding.cpp:128-416 | a started ceremony ends within 88 ticks |
| `Wedding.LeftBounded` | src/wedding.cpp:128-384 | no ceremony has more than 89 ticks left |
| `Wedding.StartExact` | src/wedding.cpp:401-416 | a busy priest refuses and nothing changes; otherwise the ceremony begins, or is over at once when somebody is missing |
| `Wedding.UntilFirstVow` | src/wedding.cpp:128-210 | the timetable from the start: 19 more ticks of waiting, twice 6 ticks of words, 13 ticks for the first answer, then the end |
| `Wedding.UntilSecondVow` | src/wedding.cpp:187-253 | from the first vow: 7 ticks, and 13 for the second answer |
| `Wedding.UntilTheEnd` | src/wedding.cpp:230-384 | from the second vow: the marriage after 1 tick, then 6, 6, 5, 1 and 5 ticks to the end |
| `Wedding.AbsenceNoticed` | src/wedding.cpp:69-102 | somebody who left is noticed at the end of a state, and 3 ticks into each wait or 1 tick after the first vow; nobody is married then |
| `Wedding.VowExact` | src/wedding.cpp:423-439 | a vow counts only from a partner who is there, in turn |
| `Ids.GenerateItemID` | src/map.cpp:759-772 | the restarting scan ends and finds the least positive unused id, at most one past the number of items |
| `Ids.GenerateNPCIndex` | src/map.cpp:774-787 | when the byte scan ends, it has found the first free index, 0 last |
| `Ids.ScanEndsIff` | src/map.cpp:774-787 | the scan ends if and only if an index is free: with all 256 in use every candidate restarts it |
| `Ids.NewIdDistinct` | src/map.cpp:2252-2272 | a new id is distinct from all others, also as a short, if and only if an id from 1 to 32767 is unused or -32768 is |
| `Ids.NewIdTakesOne` | src/map.cpp:759-772 | as long as ids are left, a new item takes exactly one of them |
| `Ids.IdsRunOut` | src/map.cpp:759-772 | with all positive ids in use the next two items get the same id |
| `ItemHandlers.Character.HasItem` | src/character.cpp:677-703 | the amount of the first stack, or 0, less what is offered in a running trade unless that is to be included |
| `ItemHandlers.Character.AddItem` | src/character.cpp:720-760 | the new inventory, refusals included, and a weight that fits it |
| `ItemHandlers.Character.DelItem` | src/character.cpp:762-789 | the new inventory and a weight that fits it |
| `ItemHandlers.Character.CanHoldItem` | src/character.cpp:813-831 | the amount allowed by weight and item limit |
| `ItemHandlers.Character.CalculateStats` | src/character.cpp:1544-1590 | the weight of everything carried and worn, as the loops with their early exit compute it |
| `ItemHandlers.Character.Unequip` | src/character.cpp:1037-1059 | the first slot that answers is emptied into the inventory |
| `ItemHandlers.Character.Equip` | src/character.cpp:1104-1173 | the item moves to its slot, or nothing changes |
| `ItemHandlers.MapChest.HasItem` | src/map.cpp:176-187 | the amount of the first item of that kind |
| `ItemHandlers.MapChest.AddItem` | src/map.cpp:189-251 | all of the amount or nothing, into the users' part or into a spawn slot |
| `ItemHandlers.MapChest.DelItem` | src/map.cpp:253-280 | removes the first item of that kind and marks its spawn slot as taken now |
| `ItemHandlers.MapChest.DelSomeItem` | src/map.cpp:282-319 | removes exactly the amount, or the item, and returns what is left, or all of it when nothing is left; a spawn that is broken up loses its slot, which is marked as taken now |
| `ItemHandlers.Map.AddItem` | src/map.cpp:2228-2273 | a full tile or map refuses a player with id 0 and stores nothing; otherwise the item gets the least free id |
| `ItemHandlers.Map.DelSomeItem` | src/map.cpp:2331-2381 | removes exactly the amount, or the item |
| `ItemHandlers.ChestAdd` | src/handlers/Chest.cpp:23-76 | new holdings and new chests |
| `ItemHandlers.ChestTake` | src/handlers/Chest.cpp:79-125 | new holdings and new chests, from the first chest there from which anything can be taken |
| `ItemHandlers.LockerAdd` | src/handlers/Locker.cpp:47-105 | new holdings, with the locker limit |
| `ItemHandlers.LockerTake` | src/handlers/Locker.cpp:108-156 | new holdings, although the inventory is filled before the locker is emptied |
| `ItemHandlers.BankAdd` | src/handlers/Bank.cpp:51-78 | new holdings, or nothing above the limit |
| `ItemHandlers.BankTake` | src/handlers/Bank.cpp:81-104 | new holdings, or nothing if there is not enough |
| `ItemHandlers.ItemDrop` | src/handlers/Item.cpp:349-425 | new holdings and new floor; the item leaves the inventory also when the floor refuses it |
| `ItemHandlers.ItemJunk` | src/handlers/Item.cpp:428-450 | new holdings |
| `ItemHandlers.ItemGet` | src/handlers/Item.cpp:453-490 | new holdings and new floor |
| `ItemHandlers.DropAll` | src/character.cpp:1659-1777 | new holdings and new floor after a death |
| `ItemHandlers.PaperdollAdd` | src/handlers/Paperdoll.cpp:146-153 | puts the item on, but nothing happens while trading |
| `ItemHandlers.PaperdollRemove` | src/handlers/Paperdoll.cpp:89-99 | takes the item off unless it is cursed |
| `ItemLaws.OwnedExact` | src/character.cpp:677-703 | what a character owns of an item counts every stack carried or stored, every worn item, and gold in the bank |
| `ItemLaws.TotalNext` | src/handlers/Item.cpp:349-490 | the total that runs conserve takes in every character, every chest and the floor, each once |
| `ItemLaws.HeldExact` | src/character.cpp:677-703 | what is held of an item is the amount of its first stack |
| `ItemLaws.PutExact` | src/character.cpp:720-760 | a new stack gets all of it, one that was there is filled up to the item limit; unknown items, nothing, and what overflows are refused |
| `ItemLaws.TakenExact` | src/character.cpp:762-789 | the first stack loses the amount, or goes when no more than that is in it |
| `ItemLaws.CanHoldIff` | src/character.cpp:813-831 | k more can be held if and only if that many are there, the item limit allows as many and, where weight counts, the character is not overweight and would not be with them |
| `ItemLaws.CanHoldGreatest` | src/character.cpp:813-831 | the amount is the greatest such: with one more the weight limit would be exceeded |
| `ItemLaws.ChestPutExact` | src/map.cpp:189-251 | a player's items go into a chest, all of them, if and only if they fit on top of what is there or leave the places for spawns free |
| `ItemLaws.ChestSpawnExact` | src/map.cpp:189-251 | a spawn goes in front, if there is a place |
| `ItemLaws.ChestTakenExact` | src/map.cpp:282-319 | some is taken and the rest is a player's from then on, or all of it goes; nothing else in the chest changes |
| `ItemLaws.MarkedExact` | src/map.cpp:253-280 | the spawns of the slot the item came from, and no others, start counting anew |
| `ItemLaws.ChestAddExact` | src/handlers/Chest.cpp:23-76 | the amount, cut to what the limit leaves, moves as a whole, and exactly when it may |
| `ItemLaws.ChestTakeExact` | src/handlers/Chest.cpp:79-125 | as much as the character can hold moves, from the first chest there that has something it can hold |
| `ItemLaws.LockerAddExact` | src/handlers/Locker.cpp:47-105 | the locker is filled up to its limit, and only what goes in leaves the inventory |
| `ItemLaws.LockerTakeExact` | src/handlers/Locker.cpp:108-156 | as much as the character can hold of the first stack moves, and the stack goes if nothing is left |
| `ItemLaws.DepositExact` | src/handlers/Bank.cpp:51-78 | a deposit is cut to the gold held and moves as a whole if the limits allow it |
| `ItemLaws.WithdrawExact` | src/handlers/Bank.cpp:81-104 | a withdrawal needs as much gold in the bank and leaves it as a whole |
| `ItemLaws.DropExact` | src/handlers/Item.cpp:349-425 | the amount, cut to the drop limit, leaves the inventory and lies on the floor with the least unused id, unless tile or map are full |
| `ItemLaws.JunkExact` | src/handlers/Item.cpp:428-450 | what is held of the amount is gone |
| `ItemLaws.PickUpExact` | src/handlers/Item.cpp:453-490 | as much as the character can hold moves; the rest stays where it is, with its id |
| `ItemLaws.SlotExact` | src/character.hpp:255-272 | the slot of every type of item; of two slots the second unless the first is asked for |
| `ItemLaws.SlotsReached` | src/character.cpp:1037-1173 | each slot is reached, under the number under which it is emptied |
| `ItemLaws.EquipExact` | src/character.cpp:1061-1173 | an item that is there and suits moves to its slot if that is free and the hands do not clash, and nothing else changes |
| `ItemLaws.UnequipExact` | src/character.cpp:1037-1059 | the first slot with the item that answers to the number is emptied into the inventory |
| `ItemLaws.EquipThenUnequip` | src/character.cpp:1037-1173 | taking off right away what was put on gives everything back, if the item limit allows it |
| `ItemLaws.DieExact` | src/character.cpp:1659-1777 | exactly the lore items stay carried and exactly the lore and cursed ones worn; everything else lies at the place of death |
| `Items.PutCounts` | src/character.cpp:720-760 | adding changes the count by the amount less an explicit loss, which is zero if and only if there is room |
| `Items.TakenCounts` | src/character.cpp:762-789 | taking away what is held changes the count by exactly that |
| `Items.ChestPutCounts` | src/map.cpp:189-251 | a chest takes all or nothing of one item |
| `Items.ChestTakenCounts` | src/map.cpp:282-319 | a chest loses exactly what is taken |
| `Items.DroppedCounts` | src/map.cpp:2252-2272 | the floor gains exactly what is dropped |
| `Items.PickedUpCounts` | src/map.cpp:2331-2381 | the floor loses exactly what is picked up |
| `ItemRuns.OneWornDropped` | src/character.cpp:1717-1776 | taking a worn item off into the inventory and deleting it there, when dying, changes nothing but its slot |
| `ItemRuns.StacksDroppedCounts` | src/character.cpp:1665-1707 | dying keeps the count of every item over inventory and floor, and leaves only lore items |
| `ItemRuns.DollDroppedCounts` | src/character.cpp:1711-1776 | dying keeps the count of every item over paperdoll and floor and leaves the inventory alone |
| `ItemRuns.ApplyAccounted` | src/handlers/Item.cpp:349-490 | every request changes the total of every item by exactly its stated loss, and only an NPC drop can raise it |
| `ItemRuns.ConservedIff` | src/handlers/Locker.cpp:47-156 | a request leaves all totals alone if and only if it runs into no limit: item limit, locker limit, full tile, or junk |
| `ItemRuns.LossIff` | src/handlers/Chest.cpp:23-125 | the stated loss is zero if and only if, before the request, none of these limits is in the way |
| `ItemRuns.LockerAddedCounts` | src/handlers/Locker.cpp:47-105 | storing keeps every total, unless a locker stack was already above the limit: then exactly the excess is lost |
| `ItemRuns.LockerTookCounts` | src/handlers/Locker.cpp:108-156 | fetching keeps every total, less exactly what the inventory limit spills |
| `ItemRuns.AddingCanShrink` | src/character.cpp:735-747 | a stack above the item limit shrinks to it when anything is added |
| `ItemRuns.RunAccounted` | src/handlers/Item.cpp:349-490 | over any run of any number of characters, the total over inventories, paperdolls, lockers, banks, chests and floor is the old one less the losses of the single requests |
| `ItemRuns.NothingIsMade` | src/handlers/Item.cpp:349-490 | no run without kills raises the total of any item |
| `ItemRuns.RunKeepsHands` | src/character.cpp:1116-1144 | no run puts a two-handed weapon and a shield that is not worn on the back into the same hands |
| `ItemRuns.RunKeepsFloor` | src/npc.cpp:629-637 | floor ids stay valid and distinct throughout a run of drops, deaths, kills and pick-ups if and only if at every request there are as many unused ids as items that it drops |
| `ItemRuns.ApplyKeepsFloor` | src/map.cpp:2252-2272 | the same for one request |
| `Items.DroppedValid` | src/map.cpp:2252-2272 | dropping one item keeps the floor valid if and only if an id is left |
| `ItemWeights.WeightExact` | src/character.cpp:1555-1590 | leaving the weight loop early does not show: the weight is the true one cut to 250, when no stack weighs more than 32518 |
| `ItemWeights.StackLimitIsTight` | src/character.cpp:1555-1590 | the weight is exact for every character whose stacks weigh at most a limit if and only if the limit is at most 32518 |
| `ItemWeights.OverloadedWeighsFifty` | src/character.cpp:1555-1590 | stacks of weight 249, 32519, 32518 and 300 weigh 50 together |
| `ItemWeights.HeavyStackWeighsNothing` | src/character.cpp:1555-1563 | 65536 items of weight 1 weigh nothing |
| `ItemWeights.TakingKeepsWeight` | src/character.cpp:813-831 | taking no more than allowed never makes a character overweight, when no stack weighs more than 32518 |
| `DamageLedger.NPC.Enter` | src/npc.cpp:451-478 | list and total after a hit; they still agree if and only if the hit overflows neither or both |
| `DamageLedger.NPC.Credit` | src/npc.cpp:457-468 | the loop adds to the attacker's own entry only |
| `DamageLedger.NPC.Clear` | src/npc.cpp:883-892 | the list is empty and every attacker has forgotten this NPC and no other |
| `DamageLedger.Damage` | src/npc.cpp:433-512 | every hit of any amount keeps over all NPCs: attackers distinct, every listed attacker online and registered; only what is left of the hit points is entered; totals remain the sum of the entries if and only if the hit kills or is added to both in the same way |
| `DamageLedger.AddsIff` | src/npc.cpp:451-478 | the overflow test in front of the additions lets an amount through if and only if it is positive and the sum stays a 32-bit integer |
| `DamageLedger.UsuallyTallies` | src/npc.cpp:451-478 | damage that is not negative always tallies as long as the total does not overflow |
| `DamageLedger.StruckExact` | src/npc.cpp:451-478 | a hit adds to the attacker's entry what fits into an int, or makes a new last entry; no other entry changes |
| `DamageLedger.WithoutExact` | src/npc.cpp:883-892 | leaving takes the one entry away and no other |
| `DamageLedger.RewardExact` | src/npc.cpp:764-786 | everybody listed gets the part of its damage, rounded up, and nobody else anything |
| `DamageLedger.PaidOut` | src/npc.cpp:764-812 | it is paid out up to the experience limit |
| `DamageLedger.ClearAll` | src/npc.cpp:956-974 | the same for dying without a killer |
| `DamageLedger.Logout` | src/character.cpp:2233-2244 | afterwards no list names the character, all other entries are unchanged, and everything else stays consistent |
| `DamageLedger.RewardBounds` | src/npc.cpp:764-786 | with all n attackers there, the rewards of a kill worth E add up to between E and E+n-1 |
| `DamageLedger.RewardSumIsPaid` | src/npc.cpp:696-786 | going over the characters on the map pays every entry of the list once |
| `DamageLedger.Reward` | src/npc.cpp:690-812 | every listed character gets its part up to the experience limit; the parts obey the bound |
| `Shares.PaidExact` | src/party.cpp:149-218 | shares by any weights, each rounded up, add up to between the whole and one less per share more |
| `Shares.WeightsNext` | src/party.cpp:149-175 | everybody eligible counts, in mode 2 with the level, of which 0 counts as 1 |
| `Shares.DueExact` | src/party.cpp:177-218 | in mode 1 the experience by the number that share it, in mode 2 by the levels, both rounded up; otherwise nothing |
| `Shares.Party.Count` | src/party.cpp:149-175 | sum of levels, 0 counting as 1, and number of eligible members |
| `Shares.Party.Give` | src/party.cpp:177-218 | one member's reward, experience and level, for every share mode; other modes than 1 and 2 give nothing |
| `Shares.Party.ShareExp` | src/party.cpp:149-218 | every eligible member gets its share in modes 1 and 2 and nothing in others, nobody else anything; in modes 1 and 2 the shares come together to at least the experience and less than one point more each |
| `Timers.DeltaForward` | src/timer.cpp:68-88 | the clock sees the true time up to its limit, across the wrap of the tick counter |
| `Timers.DeltaBackward` | src/timer.cpp:68-88 | a step back counts as no time |
| `Timers.Clock.GetTime` | src/timer.cpp:68-95 | time never goes back and never jumps further than the limit |
| `Timers.Timer.Register` | src/timer.cpp:259-273 | an event with no lifetime left is not registered; otherwise it starts now |
| `Timers.Timer.Unregister` | src/timer.cpp:275-282 | the event is gone |
| `Timers.Timer.Callback` | src/timer.cpp:212-214 | callbacks that register and unregister any events keep every bound |
| `Timers.Timer.Fire` | src/timer.cpp:195-209 | one call: the last time moves on by one period, a finite lifetime by one, and at its end the event goes |
| `Timers.Timer.Tick` | src/timer.cpp:180-257 | at all times an event has been called k times only if k periods have passed, and no more than its lifetime; a tick calls none twice, early or unregistered, and, whatever the callbacks do, of the events no callback names exactly those that are due |
| `Timers.Timer.Promised` | src/timer.cpp:180-257 | k calls since an event was registered took more than k periods, a positive lifetime is never exceeded, and a waiting event is due one period after its last call |

## Left out

- Sockets, files, database drivers, threads, configuration parsing and the contents of packets beyond the modelled fields: foreign effects or plumbing.
- PacketFields.PacketReader.GetBreakString: a reader that has stepped past its data is not usable any more; what the original reads there is not modelled.
- Upload.UploadClient.Upload: a failing seek and the rewriting of map bytes for global PK are not modelled; of the memory behind the temporary buffer only the one slot that can be written is; new buffers hold zeros.
- Framing.FramedClient.Tick: outside uploads only; `Upload.UploadClient.Tick` models the rest of the same function.
- Sequence.NeverRefused: starts after the INIT exchange, with enforcement on; the change of start with an account reply is not modelled, and an unanswered ping, which closes the client, is a step that does nothing. A packet of the reserved internal family, which closes the client before it is counted, is not modelled.
- Sha256.HashChunks: this and `HashText` are for messages below 2^61 bytes, beyond which the bit count does not fit.
- Visibility.Map.WalkCharacter: floor items, hidden players, warps and deaths are not modelled; walkability is a parameter.
- The lexer: token lists are the input. Token data are text or integers; floats and booleans as values are not modelled.
- QuestGrammar.AcceptedIff: for tokens as the lexer makes them, each kind with its kind of data; error messages are error kinds, of which `QuestRoundTrip.QuestRoundTrip` says that they name something that is wrong.
- QuestTexts.EveryQuestHasText: for states that have a text at all (`QuestTexts.StateTextIff` says which) and versions below 2^32, all that the parser computes.
- QuestRecords.QuestUnserialize: the splitting only; looking up quests and starting their states is not modelled.
- Transactions.Database.Commit: a commit that was applied but whose answer was lost is excluded; one database engine's recovery is modelled.
- Transactions.Database.RawQuery: a lost answer is taken to mean that the query had no effect, also for queries outside a transaction, which commit by themselves; the rows a query returns are not modelled.
- Wedding.WeddingState.Tick: what the priest says and the effects clients see are not modelled; names, vows and rings are.
- Ids.GenerateNPCIndex: requires a free index, without which the scan does not end (`ScanEndsIff`).
- ItemHandlers.MapChest.DelSomeItem: the spawning of items in chests, which makes items on purpose, is not modelled; the slots and times it uses are.
- ItemHandlers.Character.Equip: the requirements of gender, class, level and stats are one parameter.
- ItemHandlers.Character.CalculateStats: only the weight; the weight limit, which follows from stats, is a constant of the character.
- ItemRuns.RunAccounted: amounts in requests are 32-bit; the sum of two amounts that overflows is taken to wrap around, as the code's own test expects.
- ItemWeights.WeightExact: for stacks that weigh at most 32518, the largest limit for which it holds (`StackLimitIsTight`); single inventories with heavier stacks can come out right.
- ItemHandlers.ItemGet: reach and ownership of the floor item are one parameter, as are reach, walkability and the jail for dropping.
- DamageLedger.Reward: reward mode 2 at rate 1 without party sharing, level-ups left out; total damage is positive.
- Shares.Party.ShareExp: integer ceilings in place of doubles.
- Timers.Timer.Tick: time is in whole milliseconds; freeing events that are no longer managed is not modelled.
- Trades, shops, the choice of the winner of a drop, party membership, the thread pool and password hashing other than SHA-256.
