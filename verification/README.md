# RoarAudio: state machines, codecs and buffer algorithms in Dafny

This project models the self-contained algorithms of RoarAudio's client and DSP libraries and
proves what they promise over all inputs and all sequences of calls. Code that changes state
is modelled by methods on classes and arrays that do the same steps in the same order; each is
proved against a function of its inputs or of the old state, and the laws are lemmas about
those functions.

| Files | Source | Main results |
|---|---|---|
| Word64, TigerCipher, TigerStream, TigerHash | libroar/hash_tiger.c | every chunking of a message gives the one-shot digest; suspending and resuming at a block boundary changes nothing; the three-pass cipher is a permutation, and which table meets which octet is fixed by differences |
| Buffer, BufferQueue | libroar/buffer.c | any interleaving of adding and shifting out is a byte queue; no node is used after it was freed |
| Packets, Transcode | libroardsp/transcode.c | over every run no byte is lost or reordered and every packet has the packet length; two chunkings differ by at most one last packet |
| ConvertBits, ConvertChans, ConvertEndian, Frames | libroardsp/convert.c | conversions with input and output in one memory are the pure ones, with the exact conditions where they are not; round trips |
| Subscribers, Notify, EventBus, Events | libroar/notify.c, libroar/notify_proxy.c | over every run the hashed table makes the calls of a plain list, a flat one exactly when no wildcard is missed; the re-entrant proxy stops at depth two and delivers once |
| EventBlob, Wait, NetWords | libroar/notify.c, libroar/asyncctl.c | the event wire form is self-delimiting; written and read back, exactly the transparent events that fit the room come back the same; the wait request decodes to its events |
| Ltm | libroar/ltm.c | rank lookup in the packed answer equals a plain table; slots are distinct |
| LowPass | libroardsp/filter_lowp.c | the accumulator never overflows over any run; block seams are invisible; silence drives every state to zero |
| ChanMap | libroardsp/channels.c | MAP and INVMAP are inverse permutations; in-place and separate remapping agree; there and back is the identity |
| Interleave | libroardsp/interleave.c | encode places every byte and decode inverts it |
| ServerInfo | libroar/serverinfo.c | the indexed text record comes back from its message |
| KeyVal | libroar/keyval.c | the two-pass in-place splitter is a pure tokenizer; written pairs come back |
| CInt, Util, Digits | | C's truncating division and integer widths; optional results and flattening; numbers as bytes |

Conventions: pointers into memory are indices; two pointers to the same memory are the same
array; `ghost` parameters list the nodes of a chain or the table a packed answer stands for.
The widths of C integers appear where they matter: 64-bit words wrap modulo 2^64, the byte count of
a buffer chain and the accumulators are 32-bit ints. Allocation succeeds. The four substitution
tables of Tiger, the packet size and the outcomes of a codec, and the bytes of every message
are arbitrary.

Where the code departs from what its names or documentation say, the code is followed, and the
exact condition under which it does what they say is proved: Buffer.Add (chains that share a node),
Packets.WrappedCountHoldsBack (a wrapped byte count), Packets.AllSent (bytes lost on close),
ConvertChans.Chans2to3 and OddShown, ConvertChans.MeanIffFits, ConvertEndian.PdpIsMiddleEndian,
MiddleEndianIsPdp and ApartAgrees, Subscribers.EmitIsFlat (missed wildcards), EventBlob.WriteAndRead and WireParsed,
Ltm.StaysWithin, ChanMap.CalculatedWithin. `roar_interl_encode_ext` and `roar_interl_decode_ext`
return -1 after doing their work, and the header gives four group events one number
(Subscribers.GroupSubscriberHears).

## Model

| member | source | states |
|---|---|---|
| Word64.MulCancel | libroar/hash_tiger.c:737 | multiplying by 5, 7 or 9 modulo 2^64 is undone by the inverse multiplier, both ways |
| Word64.XorCancel | libroar/hash_tiger.c:730 | exclusive or with the same word twice changes nothing |
| Word64.XorIsBitwise | libroar/hash_tiger.c:730 | bit k of the exclusive or is set exactly if bit k of one of the two is |
| TigerCipher.TigerRound | libroar/hash_tiger.c:724-739 | the round through pointers, for any three distinct registers and any tables, is the function Round |
| TigerCipher.RoundMixes | libroar/hash_tiger.c:730 | the third register becomes its exclusive or with the message word |
| TigerCipher.RoundLooksUp | libroar/hash_tiger.c:731-734 | a round looks up table 1 at octets 0 and 7 of the mixed word, table 2 at 2 and 5, table 3 at 4 and 3, table 4 at 6 and 1, and nothing else: tables that agree there give the same round |
| TigerCipher.OneOctet | libroar/hash_tiger.c:731-737 | a change of one octet of the mixed word changes only what is taken from the first register, for an even octet, or only what is added to the second before it is multiplied, for an odd one, and by the exclusive or of the two entries of that octet's table |
| TigerCipher.RoundBijective | libroar/hash_tiger.c:724-739 | a round is a bijection on the three registers, whatever the tables hold |
| TigerCipher.PassInPlace | libroar/hash_tiger.c:741-750 | the eight unrolled calls are eight rounds with rotating roles |
| TigerCipher.PassBijective | libroar/hash_tiger.c:741-750 | a pass over any fixed message words is a bijection |
| TigerCipher.PassRoles | libroar/hash_tiger.c:741-750 | with empty tables the first register of a pass meets message words 1, 4 and 7, the second 2 and 5, the third 0, 3 and 6, with the multiplications in between |
| TigerCipher.KeyScheduleInPlace | libroar/hash_tiger.c:752-769 | the sixteen assignments are sixteen uniform steps, each changing one word by the others |
| TigerCipher.KeyScheduleBijective | libroar/hash_tiger.c:752-769 | the schedule, and every prefix of it, is a bijection on the eight words |
| TigerCipher.KeyStepMixes | libroar/hash_tiger.c:752-769 | step i changes only word i mod 8; two of every three steps cross it with the word before it or add that to it |
| TigerCipher.KeyStepMasks | libroar/hash_tiger.c:752-769 | every third step subtracts the word before, crossed with 0xa5a5a5a5a5a5a5a5 in the first and 0x0123456789abcdef in the last step, else with the complement of the word before that, shifted left by 19 and right by 23 in turn |
| TigerCipher.InnerInPlace | libroar/hash_tiger.c:807-812 | three passes and two schedules in place are the function Inner |
| TigerCipher.InnerPermutation | libroar/hash_tiger.c:807-812 | for every message block the cipher before the feed-forward is a permutation of the register states |
| TigerCipher.InnerRoles | libroar/hash_tiger.c:807-812 | with empty tables each register plays each of the three roles once, with multipliers 5, 7 and 9 and the words scheduled no, one and two times |
| TigerCipher.CompressBlock | libroar/hash_tiger.c:771-823 | load, encipher, feed forward: the block function Compress |
| TigerCipher.BlockWords | libroar/hash_tiger.c:796 | word i of the block is its bytes 8 * i to 8 * i + 7, the least significant first |
| TigerCipher.FeedForwardUndone | libroar/hash_tiger.c:814-817 | the registers before are crossed with the first result, subtracted from the second, added to the third |
| TigerHash.Tiger.Init | libroar/hash_tiger.c:563-579 | the initial stream state |
| TigerHash.Tiger.InitFromPstate | libroar/hash_tiger.c:585-616 | the state that the 32 bytes encode |
| TigerHash.Tiger.ProcBlock | libroar/hash_tiger.c:771-823 | one block absorbed, the wrapping counter up by one |
| TigerHash.Tiger.Proc | libroar/hash_tiger.c:829-883 | topping up, whole blocks and remainder together absorb the data as the stream does |
| TigerHash.Tiger.FinalizeState | libroar/hash_tiger.c:672-712 | padding in one or two blocks is the message tail; a final state stays |
| TigerHash.Tiger.Export | libroar/hash_tiger.c:618-662 | fails exactly with bytes pending or too little room, else big-endian words and, for a state, the block count |
| TigerHash.Tiger.GetDigest | libroar/hash_tiger.c:714-722 | finalises, then the digest unless the room is too small |
| TigerHash.HashChunks | libroar/hash_tiger.c:829-883 | driving the object over any chunks gives the one-shot hash, byte by byte the fold over the padded message, and the same bytes when asked again |
| TigerStream.FeedConcat | libroar/hash_tiger.c:829-883 | feeding two chunks is feeding their concatenation, from every state |
| TigerStream.FeedAllIsFeed | libroar/hash_tiger.c:829-883 | any list of chunks leaves the state its concatenation leaves |
| TigerStream.ReachableState | libroar/hash_tiger.c:829-883 | before finalising fewer than 64 bytes are pending and 64 * blocks + inlen is the number of bytes fed |
| TigerStream.ChunkedIsOneShot | libroar/hash_tiger.c:672-722 | for every message and chunking the digest is the block function folded over the padded message |
| TigerStream.PaddedIsTail | libroar/hash_tiger.c:672-712 | the tail makes the one padded message there is: a byte 1, zeros, and in the last eight bytes, the least significant first, the number of bits modulo 2^64, in as few blocks as that takes |
| TigerStream.OneShotByBytes | libroar/hash_tiger.c:618-722 | the digest's three words, most significant byte first, are the block function folded over the padded message from Tiger's three constants |
| TigerStream.FoldByBlocks | libroar/hash_tiger.c:771-823 | the fold takes the blocks of 64 bytes in order |
| TigerStream.WordBytes | libroar/hash_tiger.c:618-704 | the two byte forms of a word, least and most significant byte first, have its value |
| TigerStream.PstateByBytes | libroar/hash_tiger.c:618-662 | a saved state is the three words and then the number of blocks, each most significant byte first |
| TigerStream.BeRoundTrip | libroar/hash_tiger.c:585-662 | a word survives big-endian export and import |
| TigerStream.PstateRoundTrip | libroar/hash_tiger.c:585-666 | an unfinished state without pending bytes survives saving and reloading |
| TigerStream.ResumeIsOneShot | libroar/hash_tiger.c:585-666 | a state can be saved exactly at block boundaries, and resuming on any further chunks gives the digest of the whole message |
| Buffer.Delete | libroar/buffer.c:122-141 | the node is freed, its successor returned |
| Buffer.Free | libroar/buffer.c:100-120 | every node of the chain is freed, once |
| Buffer.Add | libroar/buffer.c:143-175 | fails exactly on a ring or on itself; else the chains are one behind the other exactly if they had no node in common, and otherwise no finite list describes the result |
| Buffer.CyclicIsNoChain | libroar/buffer.c:158-168 | a walk that leads back into itself is described by no finite list |
| Buffer.Node.SetOffset | libroar/buffer.c:226-234 | the window loses its first bytes; an offset beyond it wraps the length, and the window leaves the data |
| Buffer.ShiftOut | libroar/buffer.c:236-297 | exactly the first min(requested, total) bytes are copied, exactly the rest stays, drained nodes are freed, nothing else is written |
| Buffer.RingStats | libroar/buffer.c:422-438 | the number of nodes, and the number of bytes as a wrapping int |
| Buffer.Duplicate | libroar/buffer.c:395-420 | a fresh chain of as many nodes with equal content |
| BufferQueue.Drive | libroar/buffer.c:143-297 | over every interleaving of adding chains of any number of nodes and shifting out, the chain answers and holds what a byte queue does |
| BufferQueue.NothingLost | libroar/buffer.c:143-297 | over every run the bytes served and then the bytes left are the bytes put in, in order |
| Transcode.Xcoder.PacketSize | libroardsp/transcode.c:101-115 | stores the codec's packet size and returns a default for size zero |
| Transcode.Xcoder.ProcPacket | libroardsp/transcode.c:135-157 | a packet is sent exactly when there is a backend, its length fits and the codec accepts it |
| Transcode.Xcoder.ProcDirect | libroardsp/transcode.c:184-242 | with nothing buffered all full packets go out and the remainder is kept; a refused packet ends the call |
| Transcode.Xcoder.TakePacket | libroardsp/transcode.c:267-276 | one packet is shifted out whole; the branch for a short count is unreachable |
| Transcode.Xcoder.ProcBuffered | libroardsp/transcode.c:243-290 | with bytes buffered packets go out while more than one packet is held; a refused packet is lost |
| Transcode.Xcoder.Proc | libroardsp/transcode.c:159-290 | one encode call sends and keeps what Encode says, and fails only if the size is unknown, the codec refuses or there is no backend |
| Transcode.Xcoder.Close | libroardsp/transcode.c:117-127 | a flush that has nothing to send sends nothing, and every node ever held is freed |
| Transcode.EncodeStream | libroardsp/transcode.c:159-290 | a new encoder over any chunks has sent and holds exactly what Run says, and succeeds if every packet is accepted |
| Transcode.EncodeAndClose | libroardsp/transcode.c:117-290 | from a new encoder to its close the codec got all the input exactly if every chunk was a whole number of packets |
| Packets.EncodeKeeps | libroardsp/transcode.c:184-290 | one call sends and keeps exactly what was held plus what came in, in packets of the packet length, and keeps at most one packet exactly if nothing was held or the byte count does not wrap |
| Packets.RunKeeps | libroardsp/transcode.c:184-290 | over every sequence of calls the packets followed by the bytes held are all input in order, each packet exactly of the packet length, and at most one packet is held exactly if no byte count wraps |
| Packets.CutBufferedKeeps | libroardsp/transcode.c:265-285 | the buffered loop loses nothing and never leaves nothing, wrapped count or not |
| Packets.SameStreamSamePackets | libroardsp/transcode.c:184-290 | two cuts of one stream into equal packets agree, except for one full last packet |
| Packets.ChunkingHardlyMatters | libroardsp/transcode.c:184-290 | two chunkings of one stream emit the same packets, except that one may still hold the last |
| Packets.WrappedCountHoldsBack | libroardsp/transcode.c:256-285 | the buffered loop leaves at most a packet exactly if the bytes fit an int or are no more than a packet, and otherwise at least 2^31 bytes |
| Packets.RunHolds | libroardsp/transcode.c:184-290 | over every run the bytes held are at most a packet exactly if no count wraps, and then as many as the chunk sizes alone say; once a count has wrapped it stays so |
| Packets.SmallChunksFit | libroardsp/transcode.c:256-265 | a bound on every chunk keeps every count from wrapping |
| Packets.FlushSendsNothing | libroardsp/transcode.c:117-125 | after every run an empty call sends nothing |
| Packets.NothingHeld | libroardsp/transcode.c:184-290 | after a run nothing is held exactly if every chunk was a whole number of packets |
| Packets.AllSent | libroardsp/transcode.c:184-290 | the packets of a run are all its input exactly if every chunk was a whole number of packets |
| ConvertBits.Bits8to16 | libroardsp/convert.c:69-78 | also in place, every sample is widened from its original: a zero byte, then the original |
| ConvertBits.Bits8to32 | libroardsp/convert.c:80-89 | also in place, every sample is widened from its original: three zero bytes, then the original |
| ConvertBits.Bits16to32 | libroardsp/convert.c:104-113 | also in place, every sample is widened from its original: two zero bytes, then the original two |
| ConvertBits.Bits16to8 | libroardsp/convert.c:91-102 | also in place, every sample is narrowed: its original's upper byte |
| ConvertBits.Bits32to8 | libroardsp/convert.c:154-163 | also in place, every sample is narrowed: its original's uppermost byte |
| ConvertBits.Bits32to16 | libroardsp/convert.c:165-174 | also in place, every sample is narrowed: its original's upper two bytes |
| ConvertBits.ConvBits | libroardsp/convert.c:40-67 | for any two widths of 8, 16 and 32 bits, aliased or not, every output sample is the scaled original and nothing behind changes; equal formats are copied, other pairs with 24 bits refused |
| ConvertBits.ScaleBack | libroardsp/convert.c:69-174 | scaling a value up and down again is the identity |
| ConvertBits.WidenNarrow | libroardsp/convert.c:40-174 | widening and narrowing in one memory restores every sample |
| ConvertChans.Chans1toN | libroardsp/convert.c:259-307 | also in place, every channel of frame f gets original sample f |
| ConvertChans.Chans1to2 | libroardsp/convert.c:271-321 | also in place, both channels of frame f get original sample f |
| ConvertChans.ChansNto1 | libroardsp/convert.c:323-394 | also in place, sample f is the quotient of the 32-bit sum of original frame f, and where the sum fits it is that sum over the number of channels rounded toward zero |
| ConvertChans.EverySampleCounts | libroardsp/convert.c:323-394 | a change of any one sample of a frame changes the sum by as much |
| ConvertChans.OthersDoNotCount | libroardsp/convert.c:323-394 | samples outside the frame do not change the sum |
| ConvertChans.SilenceIsZero | libroardsp/convert.c:323-394 | the sum of a silent frame is zero |
| ConvertChans.MeanIffFits | libroardsp/convert.c:354-394 | that is the average of the frame exactly if its sum fits 32 bits |
| ConvertChans.Chans2to1 | libroardsp/convert.c:344-408 | also in place, sample f is the average of the original pair, rounded toward zero; for an odd count the last average takes a sample behind those passed |
| ConvertChans.Chans2to4 | libroardsp/convert.c:430-447 | also in place, with whole frames every frame is its original spread to four channels; with an odd count what the shifted and partly overwritten reads give, which is right if and only if the samples seen are equal |
| ConvertChans.Chans2to5 | libroardsp/convert.c:450-468 | also in place, with whole frames every frame is its original spread to five channels; with an odd count what the shifted and partly overwritten reads give, which is right if and only if the samples seen are equal |
| ConvertChans.Chans2to6 | libroardsp/convert.c:470-489 | also in place, with whole frames every frame is its original spread to six channels; with an odd count what the shifted and partly overwritten reads give, which is right if and only if the samples seen are equal |
| ConvertChans.ChannelsShown | libroardsp/convert.c:411-489 | the channels of a spread frame: left and right in front, the centre (two for six channels, none for four) their sum halved and rounded toward zero, and from four channels on left and right last |
| ConvertChans.OddShown | libroardsp/convert.c:411-489 | an odd count gives the stereo frames exactly if all samples are equal; in one memory one sample, of frame 2 to three or frame 1 to four channels, is never seen and need not be |
| ConvertChans.Chans2to3 | libroardsp/convert.c:411-427 | with whole frames right for every frame but the second in place, and throughout if and only if the memories differ, there is at most one frame, or frame 1 has equal samples; with an odd count what the reads give, right if and only if the samples seen are equal |
| ConvertChans.MeanFits | libroardsp/convert.c:354-373 | the average of 16-bit samples is a 16-bit sample |
| ConvertChans.SmallSumsFit | libroardsp/convert.c:354-373 | with up to 65536 channels of 16-bit samples it always does |
| ConvertChans.SpreadAndBack | libroardsp/convert.c:259-373 | 1 to n to 1 channels in one memory restores every 8- or 16-bit sample |
| ConvertEndian.Endian16 | libroardsp/convert.c:866-891 | also in place, the bytes of every sample are exchanged |
| ConvertEndian.Endian24 | libroardsp/convert.c:893-918 | the outer bytes are exchanged and the middle byte of the output is never written, so a sample is reversed exactly if the output held its middle byte before |
| ConvertEndian.Endian32 | libroardsp/convert.c:920-943 | also in place, the four bytes of every sample are reversed |
| ConvertEndian.ConvEndian16 | libroardsp/convert.c:805-863 | for any two orders, every sample is converted from its original |
| ConvertEndian.ConvEndian32 | libroardsp/convert.c:805-863 | for any two orders, in one memory the conversion of the original, between two what the second read of the input makes of it |
| ConvertEndian.ConvKeepsValue | libroardsp/convert.c:805-863 | the number a sample stands for is the same under the new order |
| ConvertEndian.ConvComposes | libroardsp/convert.c:805-863 | converting a to b to c is converting a to c, so every conversion is undone by its opposite |
| ConvertEndian.ConvTwice16 | libroardsp/convert.c:805-863 | two conversions of a 16-bit array in a row are the direct one and keep all values |
| ConvertEndian.ConvTwice32 | libroardsp/convert.c:805-863 | two conversions of a 32-bit array in a row are the direct one and keep all values |
| ConvertEndian.PdpIsMiddleEndian | libroardsp/convert.c:833-863 | what the code calls PDP is the order named 3412 only for samples that read the same from both ends |
| ConvertEndian.MiddleEndianIsPdp | libroardsp/convert.c:833-863 | a sample that comes in the order named 3412 is converted as such only if it reads the same from both ends |
| ConvertEndian.ApartAgrees | libroardsp/convert.c:840-850 | between different memories the result is that of one memory, except for PDP with BE and samples that are not symmetric |
| ConvertEndian.ApartIsMiddleEndian | libroardsp/convert.c:840-850 | BE to PDP between different memories does give the order named 3412 |
| Subscribers.BucketIsFlat | libroar/notify.c:65-75 | searching one bucket delivers what a flat list would, if and only if no matching subscriber to the special event sits in another bucket |
| Subscribers.EmitIsFlat | libroar/notify.c:271-310 | a whole emit, through the proxy or not, delivers what the flat list would if and only if none of its searches misses a subscriber to the special event |
| Subscribers.PlainEmitIsFlat | libroar/notify.c:271-310 | so without subscribers to the special event it always does |
| Subscribers.WithoutBucket | libroar/notify.c:242-269 | taking a subscriber off the flat list takes it off its bucket and no other |
| Subscribers.EmitCount | libroar/notify.c:271-310 | how often one emit through the proxy calls a live subscriber: once for each of the any event, the group event and the event that it matches |
| Subscribers.CalledExactly | libroar/notify.c:284-307 | a list calls exactly its subscribers of which each field is that of the event or left open |
| Subscribers.HashIsBytewise | libroar/notify.c:65-75 | bit k of the hash is the parity of the bits k of the event's four bytes |
| Subscribers.AnySubscriberHearsOnce | libroar/notify_proxy.c:78-91 | a subscriber to any event is called exactly once per event, before anyone is called for the event itself, with the any event as event, the original one in event_proxy and all else as it was (twice for an any event itself) |
| Subscribers.GroupSubscriberHears | libroar/notify_proxy.c:93-102 | a subscriber to "any client event" hears of all client, stream, source and sample events, as the header gives the four one number, with the original event in event_proxy and all else as it was |
| Notify.Core.New | libroar/notify.c:77-124 | exactly the powers of two up to 1024 and -1 make a core, -1 one of 16 lists |
| Notify.Core.Subscribe | libroar/notify.c:194-240 | the new subscriber is last in order; every list still holds exactly its bucket |
| Notify.Core.Unsubscribe | libroar/notify.c:242-269 | takes off exactly that subscriber, or fails if it is not there; only a subscriber that is not first in its list is freed |
| Notify.Core.Emit | libroar/notify.c:271-310 | the calls made are EmitLog of the live subscribers; it terminates and nests at most two deep |
| Notify.Core.ProxyStd | libroar/notify_proxy.c:44-103 | the any event first, then the group events, each delivered through the emitter |
| Notify.Core.CallList | libroar/notify.c:284-307 | walking a list calls exactly its matching subscribers in order |
| EventBus.Drive | libroar/notify.c:77-310 | over every run of subscribing, unsubscribing and emitting on a new core, with or without the proxy, the calls are those of a plain list asked in order; each goes to a subscriber whose fields are the event's or left open, with an event emitted in the run or what the proxy relays of one |
| EventBus.HeardRightly | libroar/notify.c:271-310 | every call of the plain list, over every run, is right in this sense |
| EventBus.PlainIsFlat | libroar/notify.c:271-310 | in a run without subscriptions to the special event the number of buckets does not matter |
| EventBus.AskedIsDirect | libroar/notify.c:284-307 | searching one bucket calls exactly the live subscriptions that fit, those to the special event only for events of their own bucket |
| EventBlob.ToBlob | libroar/notify.c:334-407 | for every event and room: refused, or the wire form written and nothing but what the final copy moves, or a copy that is not sound, each exactly when Writing says |
| EventBlob.SoundWriting | libroar/notify.c:334-407 | an event whose data length is that of its data is written or refused, never copied from elsewhere |
| EventBlob.WireByBytes | libroar/notify.c:372-402 | the wire form byte by byte, most significant bytes first: flags with 1 for data and 2 for a proxy event, event, original event of a proxy event, emitter, target, its type, data length, and with data both arguments and the data |
| EventBlob.FromBlob | libroar/notify.c:409-517 | reads what ParseAs makes of the memory and the length claimed, errors included |
| EventBlob.ParseWire | libroar/notify.c:334-517 | whatever follows, the wire form of any event that can be written is read back and exactly its length consumed |
| EventBlob.ParsePrefix | libroar/notify.c:409-517 | no proper prefix of a wire form is accepted |
| EventBlob.ReceivedIsSent | libroar/notify.c:334-517 | exactly the events with fields from -1 to 65534, whole data of at most 32768 bytes and nothing set that is not sent are written, given the room, and received the same |
| EventBlob.WriteAndRead | libroar/notify.c:334-517 | the two functions one after the other: what is written is read back as Received says, and exactly the transparent events that fit the room come back the same |
| EventBlob.WireParsed | libroar/notify.c:334-517 | writing an accepted event again gives its bytes, or is refused if it has more than 32768 bytes of data, or copies from NULL if the bytes claimed data without the data flag |
| EventBlob.ReadAndWrite | libroar/notify.c:334-517 | the same for the two functions run one after the other on one memory |
| Wait.ParseAllWire | libroar/asyncctl.c:66-76 | a concatenation of wire forms decodes to the list of events |
| Wait.BuildRequest | libroar/asyncctl.c:52-78 | for any events what writing them one behind the other into the room left does; a built request is the header and their wire forms |
| Wait.SendableIsBuilt | libroar/asyncctl.c:62-76 | a request of events that can be sent is built exactly if it fits the buffer |
| Wait.RequestRoundTrip | libroar/asyncctl.c:52-78 | for any events, what the receiver of a built request reads is their list; of events that can be sent it is built exactly if it fits |
| Wait.ParseReply | libroar/asyncctl.c:83-114 | exactly a zero header and one event filling the rest are accepted; the length left is kept modulo 2^64, so that of a reply of 2 or 3 bytes matches no event |
| Wait.ReplyIsEvent | libroar/asyncctl.c:83-114 | a reply of one event is read as that event without its data, and refused under any other length |
| Ltm.Numbits | libroar/ltm.c:47-58 | the number of set bits |
| Ltm.NegativeNeverEnds | libroar/ltm.c:47-58 | a negative argument shifted any number of times is not zero, so the loop does not end |
| Ltm.PackedAt | roard/req.c:1001-1050 | in the packed answer a stream's offset holds its channel count and the slot of every set bit the table's value |
| Ltm.SlotsDiffer | libroar/ltm.c:253-330 | different streams, channels or types have different slots |
| Ltm.GetStreamPtr | libroar/ltm.c:253-278 | finds the stream's offset, NULL exactly out of range |
| Ltm.GetNumchans | libroar/ltm.c:280-287 | the stream's channel count, -1 exactly out of range |
| Ltm.Extract | libroar/ltm.c:289-330 | -1 for a mask of other than one bit or no such stream or channel; else what Reading says for the one bit, which for a requested type is the table's value; a negative channel reads as far back |
| Ltm.SlotReads | libroar/ltm.c:303-328 | at the slot of any type lies the value of the first requested type from it on, else the next channel's first value, else the next stream's channel count, else foreign memory |
| Ltm.StaysWithin | libroar/ltm.c:303-328 | the lookup stays within the answer exactly if a type from the one asked for on was requested, or any was and the channel is not its stream's last, or the stream is not the last |
| Ltm.UnrequestedReadsNext | libroar/ltm.c:313-323 | for a type not requested, if there is a higher one that was, the lookup gives the value of the next such |
| LowPass.StepBounds | libroardsp/filter_lowp.c:70-76 | the accumulator stays within 65536 times, and the state within, the bounds of samples and states |
| LowPass.StepRounds | libroardsp/filter_lowp.c:72-74 | 65536 times the next state is the weighted sum of sample and state, but for less than 65536 that is cut off toward zero |
| LowPass.StateHeld | libroardsp/filter_lowp.c:54-82 | over any run, with weights that fill 65536, an input equal to the state holds it |
| LowPass.OutputFollows | libroardsp/filter_lowp.c:54-82 | over any run every output is weighted from its sample and the output before, and the last is the state left |
| LowPass.StateFits | libroardsp/filter_lowp.c:54-82 | over any run every state fits 16 bits |
| LowPass.SilenceDecays | libroardsp/filter_lowp.c:70-76 | every silent frame takes at least one off the state |
| LowPass.SilenceSettles | libroardsp/filter_lowp.c:54-82 | after 32768 silent frames every state is zero |
| LowPass.OutputConcat | libroardsp/filter_lowp.c:54-82 | the outputs for two stretches in a row are those for their concatenation |
| LowPass.TwoBlocksAreOne | libroardsp/filter_lowp.c:54-82 | filtering two frame-aligned blocks in turn is filtering their concatenation, in every channel |
| LowPass.Filter.Frame | libroardsp/filter_lowp.c:69-78 | one frame: every channel's sample and state become the next state, without overflow |
| LowPass.Filter.Calc16 | libroardsp/filter_lowp.c:54-82 | in every channel each sample becomes the weighted sum of itself and the channel's sample before over 65536, rounded toward zero; samples behind the last whole frame and states of other channels stay; fails exactly for too many channels |
| ChanMap.Calc | libroardsp/channels.c:337-394 | MAP and INVMAP hold the first place of each channel in the other list; errors exactly as asked for |
| ChanMap.MapsInverse | libroardsp/channels.c:337-394 | for two orders of the same channels MAP and INVMAP are mutually inverse permutations, and never an error |
| ChanMap.MapPcm | libroardsp/channels.c:396-521 | in place and between arrays every whole frame becomes the same; a separate output is silenced behind; fails exactly for too many channels |
| ChanMap.CellOf | libroardsp/channels.c:396-521 | of the samples sent to one place the last one stays |
| ChanMap.SilentCell | libroardsp/channels.c:396-521 | a place to which nothing is sent is silent |
| ChanMap.CalculatedWithin | libroardsp/channels.c:337-394 | a calculated map may be used, between arrays or in place, exactly if each of the first channels is one and among the first, or anywhere, on the other side |
| ChanMap.CellThereAndBack | libroardsp/channels.c:396-521 | a sample moved by a map comes back under a map that undoes it |
| ChanMap.ThereAndBack | libroardsp/channels.c:396-521 | remapping with a map and then the one that undoes it restores every whole frame |
| ChanMap.CalculatedMapsUndo | libroardsp/channels.c:337-394 | the calculated MAP and INVMAP undo each other |
| Interleave.Encode | libroardsp/interleave.c:64-96 | byte k of frame f of channel c lies at (f * channels + c) * w + k, and nothing behind changes |
| Interleave.Decode | libroardsp/interleave.c:98-131 | the channels hold the bytes of the stream at those places, and nothing behind changes |
| Interleave.SameStreamSameChannels | libroardsp/interleave.c:64-131 | channels that interleave to one stream are equal |
| Interleave.SameChannelsSameStream | libroardsp/interleave.c:64-131 | a stream is determined by its channels |
| Interleave.EncodeDecode | libroardsp/interleave.c:64-131 | decoding what was encoded copies every channel |
| ServerInfo.ToMes | libroar/serverinfo.c:84-150 | the length is 4 + 4 * fields + text; the message is the header, index and texts of the non-empty fields; fails exactly if it needs data space it is not given |
| ServerInfo.FromMes | libroar/serverinfo.c:152-294 | reads what Parse makes of the bytes, errors included, and never writes behind the memory set aside |
| ServerInfo.MessageTexts | libroar/serverinfo.c:139-147 | text offsets are the prefix sums of the lengths in the index, and each text lies there |
| ServerInfo.MessageByBytes | libroar/serverinfo.c:129-140 | header and index byte by byte: two zeros, the number of fields, and for each a zero, its type and the length of its text, most significant bytes first |
| ServerInfo.FieldOrder | libroar/serverinfo.c:97-107 | the fields go into the message in the order 0, 1, 2, 3, 8, 9, 10, 4, 6, 5, 7 |
| ServerInfo.ParseMessage | libroar/serverinfo.c:152-294 | reading a message stores its entries in order |
| ServerInfo.RoundTrip | libroar/serverinfo.c:84-294 | every non-empty field comes back unchanged, empty and missing ones come back missing |
| ServerInfo.RoundTripIff | libroar/serverinfo.c:84-294 | a record of C strings comes back exactly if none of its texts is 65536 bytes or longer |
| ServerInfo.ThereAndBack | libroar/serverinfo.c:84-294 | the same for the two functions run one after the other |
| KeyVal.IsIn | libroar/keyval.c:53-59 | whether the character is in the list |
| KeyVal.Count | libroar/keyval.c:81-96 | the first pass counts the segment starts |
| KeyVal.Fill | libroar/keyval.c:109-133 | the second pass writes exactly the entries of those starts, leaves the end mark, and changes only delimiters behind a segment's character |
| KeyVal.Unread | libroar/keyval.c:112-133 | zeroing never changes a character not yet read |
| KeyVal.SegmentsAreNonEmptyPieces | libroar/keyval.c:81-133 | the segments found by scanning are the non-empty pieces between field delimiters |
| KeyVal.EntrySays | libroar/keyval.c:109-133 | in the memory left behind, key and value of an entry are the C strings that cutting its segment gives |
| KeyVal.Split | libroar/keyval.c:61-136 | as many entries as tokens, each saying its token, and an end mark; quotes are refused |
| KeyVal.WrittenComesBack | libroar/keyval.c:61-136 | pairs whose parts hold no delimiter, but for a key delimiter that starts a key, written one behind the other come back as the same pairs |
| KeyVal.ComesBackIffWritable | libroar/keyval.c:61-136 | and no others do |
| KeyVal.SplitWritten | libroar/keyval.c:61-136 | the same in memory: split where it lies, such a string leaves entries that say exactly these pairs |

## Left out

- Error returns for NULL pointers, failing allocation, and everything that talks to sockets, files or a server.
- TigerHash: only the little-endian build; the contents of the substitution tables are arbitrary.
- Buffer.RingStats: memory_usage, which only sums allocation sizes.
- Ring buffers: reading and writing with wrap-around, and growing a buffer with set_len.
- Transcode.Xcoder.Proc: only the encode side; the buffered decode path is not modelled. What a codec writes to the backend is inside its library.
- ConvertBits.ConvBits: 24 to 32 bits, where the loop reads before the first byte; rates, signedness and the composition in roar_conv.
- ConvertChans.ChansNto1: a 32-bit sum that overflows is taken to wrap, where C leaves it undefined.
- 4 to 2 channels and combinations by way of one channel.
- Notify.Core.Emit: the callbacks are recorded as calls; a callback that changes the table while it is walked is not modelled. Reference counts and the global core are left out.
- EventBlob.ToBlob: what a copy that is not sound does to memory.
- Ltm.Numbits: only arguments that are not negative; NegativeNeverEnds shows what happens for others.
- Ltm.Extract: a word outside the answer is not given a value.
- LowPass.Filter.Calc16: the coefficients are any that are not negative and at most 65536 together; their computation from a frequency in floating point is left out.
- ChanMap.MapPcm: a map that leads out of the frame between arrays, or out of the 64 places in place, writes elsewhere; CalculatedWithin says when a calculated map does not. The 24-bit function, which only fails, and the dispatch by width are left out.
- ServerInfo.FromMes: a text with a NUL inside is kept whole, where a C string would end at it; such texts do not occur in messages from ToMes.
- KeyVal.Split: the quote state of the first loop, which no input can reach, and the lookup by key.
