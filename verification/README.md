# Verification of the AMQP client library and the nginx data structures

This project models the AMQP 0-9-1 client library in `rabbitmq-c-master/librabbitmq`, the nginx pool
and queue in `nginx/src`, and the command-line quoter of the Windows tools, and proves what they are
relied upon for.

| module | what it models |
|---|---|
| `Wire`, `Division` | big-endian integers, bounded reads and writes |
| `FieldTable`, `TableCodec` | field tables: format, recursive decoder, encoder with back-patched sizes |
| `Generator`, `Arguments`, `Properties` | the code generator's bit packing, method arguments, property flags |
| `FrameParser`, `Frames` | the resumable frame parser, the frame writer, the whole round trip |
| `ValueLayout`, `ArgumentLayout`, `FrameLayout` | the wire formats octet by octet, as numbers |
| `FrameQueue`, `Session`, `Messages`, `MessageEnds` | queued frames, waiting, RPC replies, reading messages and how that ends |
| `Sending`, `SendRuns` | the send loop and publishing; how sending ends, event by event |
| `AmqpPool`, `AmqpPlacement`, `ChannelPools` | page pools, where they put requests, the pool table |
| `Recycling`, `Releases` | when memory may be recycled, and when it is |
| `NgxPool`, `NgxPlacement`, `NgxChain` | the nginx pool as a specification, where it puts requests, and as a linked chain |
| `StableSort`, `NgxQueue` | the nginx queue and its sort |
| `Url`, `UrlRoundTrip` | the in-place URL parser |
| `CommandLine` | Windows command-line quoting |
| `Merge`, `MergeEnds` | cloning tables and merging capabilities, and how merging fails |

The pattern is the same throughout. Code that updates buffers, lists or counters is written as
methods or classes and proved equal to a specification function; the guarantees are lemmas about
that function, over all inputs or over all runs. Formats and outcomes are also stated without it, in
numbers and by the events, frames or octets that decide them. Sockets and clocks are scripts of results that the
methods consume, so a statement about a method is one about every behaviour of the network.

Some properties turned out to hold only under a condition the code does not check. The code is
modelled as it is; each such property is proved as an equivalence with its condition, next to an
input on which it fails:

- keys longer than 255 octets (`FieldTable.TableRoundTrip`, `LongKeyIsLost`);
- the first payload octet of the very first frame (`Frames.FirstFrameExact`, `FrameParser.FirstHeartbeatRefused`);
- frames queued in front of a match (`FrameQueue.NothingLost`, `FrontLost`);
- octets received while a heartbeat is being sent, which the next receive overwrites (`Session.ConservationExact`, `OverwrittenFrame`);
- replies parsed while a heartbeat is being sent, which the RPC then misses (`Session.FirstHeardReturned`, `AsideIsMissed`);
- frames of a message parsed while a heartbeat is being sent (`Messages.ReadPublished`, `ScrambledBody`, `HeaderAside`);
- pool sizes that are no multiple of the alignment (`NgxPool.RegionsSafe`, `UnalignedSizeOverruns`);
- frames queued again after their memory was released (`Recycling.RequeueExact`, `StaleFrame`);
- requests whose rounding leaves the 64-bit range (`AmqpPool.EnoughExactly`, `RoundingWraps`);
- merging two empty tables, or empty keys (`Merge.MergeSucceeds`, `NothingToMerge`);
- keys that the added table repeats (`Merge.MergeSucceeds`, `RepeatedKey`).

Where comments and code of the library disagree, the code is followed: a comment in `amqp_private.h`
says that in the idle state the inbound buffer is null and otherwise comes from a pool, while the
code points it at the fixed header buffer until a header is complete; and only seven of the eight
octets gathered in the initial state are kept. Constants are those of a 64-bit platform: `NGX_ALIGNMENT` 8,
`sizeof(ngx_pool_t)` 80, `sizeof(ngx_pool_data_t)` 32, `sizeof(ngx_pool_large_t)` 16,
`sizeof(amqp_link_t)` 16, `sizeof(amqp_frame_t)` 48.

## Model

| member | source | states |
|---|---|---|
| Wire.BigEndianRoundTrip | rabbitmq-c-master/librabbitmq/amqp_private.h:225-241 | a number stored in n octets is read back whenever it fits them |
| Wire.FromBigEndianRoundTrip | rabbitmq-c-master/librabbitmq/amqp_private.h:225-241 | every octet string is the big-endian form of the number it denotes |
| FrameLayout.OctetOf | rabbitmq-c-master/librabbitmq/amqp_private.h:225-241 | the most significant octet comes first: octet i of n is the number divided by 256^(n-1-i), modulo 256 |
| Wire.Encode | rabbitmq-c-master/librabbitmq/amqp_private.h:243-255 | a bounded write succeeds exactly when it fits, stores exactly its octets, touches nothing else, and advances the offset even when it is refused |
| Wire.StoredAdjacent | rabbitmq-c-master/librabbitmq/amqp_table.c:295-357 | two adjacent stores, in either order, are one store: the fact behind sizes that are written last |
| TableCodec.EncodeTable | rabbitmq-c-master/librabbitmq/amqp_table.c:322-357 | the encoder succeeds exactly when all kinds are known and the octets fit; then exactly the wire format, back-patched sizes included, is in place and nothing else changed; each failure names its reason |
| TableCodec.EncodeArray | rabbitmq-c-master/librabbitmq/amqp_table.c:295-320 | the same for arrays |
| TableCodec.EncodeValue | rabbitmq-c-master/librabbitmq/amqp_table.c:359-450 | the same for a field value of any kind |
| TableCodec.DecodeTable | rabbitmq-c-master/librabbitmq/amqp_table.c:127-201 | the decoding loop with its growing entry list computes the recursive decoder, on every buffer and offset, and terminates |
| TableCodec.DecodeArray | rabbitmq-c-master/librabbitmq/amqp_table.c:63-125 | the same for arrays |
| TableCodec.DecodeValue | rabbitmq-c-master/librabbitmq/amqp_table.c:203-291 | the same for field values |
| FieldTable.TableRoundTrip | rabbitmq-c-master/librabbitmq/amqp_table.c:127-450 | decoding the octets of a table gives the table back, booleans normalised, and stops at the encoder's end, if and only if every kind is known and every key, at any depth, has at most 255 octets |
| FieldTable.LongKeyIsLost | rabbitmq-c-master/librabbitmq/amqp_table.c:332-335 | a 256-octet key is written with length 0 and the table cannot be read back |
| FieldTable.DecodedTable | rabbitmq-c-master/librabbitmq/amqp_table.c:63-291 | whatever the buffer holds: a decoded table has only known kinds and keys that fit, nests at most one level per five octets, and all its keys and byte strings are slices of the octets read |
| FieldTable.TableAt | rabbitmq-c-master/librabbitmq/amqp_table.c:127-201 | success implies start + 4 + declared size <= final offset <= buffer length |
| FieldTable.TableBytesInjective | rabbitmq-c-master/librabbitmq/amqp_table.c:322-357 | tables that can be read back and have the same octets are the same table |
| ValueLayout.NumberRanges | rabbitmq-c-master/librabbitmq/amqp.h:524-541 | the range of every number kind |
| ValueLayout.NumberOctets | rabbitmq-c-master/librabbitmq/amqp_table.c:359-450 | every number kind by its kind octet (b, B, s, u, I, i, l, L, f, d, T) and width, negative values modulo the size of the type |
| ValueLayout.LeafOctets | rabbitmq-c-master/librabbitmq/amqp_table.c:359-450 | booleans (t), decimals (D), strings (S, x) with a four-octet length, void (V) |
| ValueLayout.ArrayOctets | rabbitmq-c-master/librabbitmq/amqp_table.c:295-320 | arrays (A): the size of the values in four octets, then the values |
| ValueLayout.NestedOctets | rabbitmq-c-master/librabbitmq/amqp_table.c:322-357 | tables (F): the size of the entries in four octets, then the entries |
| ValueLayout.ItemsJoin | rabbitmq-c-master/librabbitmq/amqp_table.c:295-320 | values lie one behind the other |
| ValueLayout.EntriesJoin | rabbitmq-c-master/librabbitmq/amqp_table.c:322-357 | entries lie one behind the other: one octet of key length, the key, the value |
| ValueLayout.NumberTaken | rabbitmq-c-master/librabbitmq/amqp_table.c:203-291 | a number kind octet is taken for its kind exactly when its octets are there, and gives the one value of that type congruent to them |
| ValueLayout.LeafTaken | rabbitmq-c-master/librabbitmq/amqp_table.c:203-291 | what each other kind octet is taken for, and that the eighteen known ones are all there are |
| ValueLayout.PartsTaken | rabbitmq-c-master/librabbitmq/amqp_table.c:63-201 | arrays and tables are read from behind their four-octet size up to where it ends |
| ValueLayout.ItemsTaken | rabbitmq-c-master/librabbitmq/amqp_table.c:63-125 | the array loop reads only values one behind the other, each starting below the limit, the last ending at or beyond it |
| ValueLayout.ItemsFound | rabbitmq-c-master/librabbitmq/amqp_table.c:63-125 | and whenever there are such values in the buffer, it reads them |
| ValueLayout.EntriesTaken | rabbitmq-c-master/librabbitmq/amqp_table.c:127-201 | the table loop reads only entries of key length, key and value, each starting below the limit, the last ending at or beyond it |
| ValueLayout.EntriesFound | rabbitmq-c-master/librabbitmq/amqp_table.c:127-201 | and whenever there are such entries in the buffer, it reads them |
| Generator.BitEncoder.EncodeBit | rabbitmq-c-master/librabbitmq/codegen.py:83-111 | the emitter's state and the statements it adds for a bit: cleared at the first bit, flushed at the eighth |
| Generator.GenerateEncoder | rabbitmq-c-master/librabbitmq/codegen.py:318-329 | the emitting loop over a field list produces the specified encoder program |
| Generator.GenerateDecoder | rabbitmq-c-master/librabbitmq/codegen.py:287-299 | the emitting loop over a field list produces the specified decoder program |
| Generator.EncoderCorrect | rabbitmq-c-master/librabbitmq/codegen.py:83-205 | the emitted encoder, run on any struct, writes exactly the fields in order with bits packed low bit first, at most eight to an octet, and fails exactly when a field is refused or the buffer is full |
| Generator.DecoderCorrect | rabbitmq-c-master/librabbitmq/codegen.py:58-205 | the emitted decoder, run over those octets, assigns every member its value and stops right behind them |
| Generator.PackedHasBit | rabbitmq-c-master/librabbitmq/codegen.py:83-111 | bit k of a packed octet is the k-th flag of its run |
| ArgumentLayout.RunOctets | rabbitmq-c-master/librabbitmq/codegen.py:83-111 | a run of bits of any length is written in as many octets as it needs, eight to an octet: flag k in bit k mod 8 of octet k div 8, and what follows it comes behind |
| ArgumentLayout.BitOf | rabbitmq-c-master/librabbitmq/codegen.py:83-111 | bit k of a number is its quotient by 2^k modulo 2 |
| ArgumentLayout.FieldRanges | rabbitmq-c-master/librabbitmq/codegen.py:58-205 | octet, short, long and longlong members hold 8, 16, 32 and 64 bits |
| ArgumentLayout.FieldAccepted | rabbitmq-c-master/librabbitmq/codegen.py:83-205 | short strings of fewer than 2^8 and long strings of fewer than 2^32 octets are accepted, numbers and bits always |
| ArgumentLayout.FieldOctets | rabbitmq-c-master/librabbitmq/codegen.py:83-205 | numbers take 1, 2, 4 or 8 octets, strings a length of 1 or 4 octets and their own, tables their own format |
| ArgumentLayout.NumberFieldTaken | rabbitmq-c-master/librabbitmq/codegen.py:58-82 | a number is read exactly when its octets are there |
| ArgumentLayout.StringFieldTaken | rabbitmq-c-master/librabbitmq/codegen.py:58-82 | a string is read exactly when its length and its octets are there |
| Arguments.EncodeArgsCorrect | rabbitmq-c-master/librabbitmq/amqp_framing.c:1205-1833 | a method's encoder succeeds exactly when its strings and tables are accepted and the octets fit |
| Arguments.ArgsRoundTrip | rabbitmq-c-master/librabbitmq/amqp_framing.c:176-1030 | for every field list and struct, the decoder gives back what the encoder wrote, flags and booleans normalised, exactly when all tables are portable |
| Properties.NumberFlags | rabbitmq-c-master/librabbitmq/codegen.py:753-761 | the numbering loop gives property i bit 15 - i mod 15 of word i div 15 |
| Properties.FlagBitsDistinct | rabbitmq-c-master/librabbitmq/codegen.py:753-761 | distinct properties have distinct flags, never the continuation bit of a word; the first thirty fit 32 bits |
| Properties.EncodeFlags | rabbitmq-c-master/librabbitmq/amqp_framing.c:1834-1861 | the flag-word loop stores exactly the words with their continuation bits, or refuses |
| Properties.DecodeFlags | rabbitmq-c-master/librabbitmq/amqp_framing.c:1031-1053 | the flag-word loop computes the recursive reader; a third word is undefined |
| Properties.ReadBackKeepsFlags | rabbitmq-c-master/librabbitmq/amqp_framing.c:1834-1861 | whatever happens to the continuation bits, a property is announced to the reader exactly when the writer set its flag |
| Properties.ReadBackExact | rabbitmq-c-master/librabbitmq/amqp_framing.c:1834-1861 | the raw flag set itself comes back exactly when its continuation bits already say how many words it needs |
| FrameLayout.FlagNumbers | rabbitmq-c-master/librabbitmq/amqp_framing.h:712-725 | the first fifteen properties have bits 15 to 1, the next fifteen bits 31 to 17 |
| FrameLayout.FlagOctets | rabbitmq-c-master/librabbitmq/amqp_framing.c:1834-1861 | one flag word, or two with bit 0 of the first set |
| Properties.PropsRoundTrip | rabbitmq-c-master/librabbitmq/amqp_framing.c:1031-1204 | properties that were encoded within their buffer are decoded with every flagged member back, exactly when their tables are portable |
| FrameParser.Connection.HandleInput | rabbitmq-c-master/librabbitmq/amqp_connection.c:253-419 | one call on the mutable buffers is one step of the chunk parser: same frame or error, same number of octets used, same next state |
| FrameParser.Connection.ConsumeData | rabbitmq-c-master/librabbitmq/amqp_connection.c:235-251 | as much as is available and fits is appended to the filled part of the buffer |
| FrameParser.FeedIsConsume | rabbitmq-c-master/librabbitmq/amqp_connection.c:253-419 | one call on any chunk is a stretch of the run of the one-octet-at-a-time automaton |
| FrameParser.Feed | rabbitmq-c-master/librabbitmq/amqp_connection.c:253-419 | every call on a non-empty chunk uses at least one octet and leaves a valid state |
| FrameParser.ChunkingIndependence | rabbitmq-c-master/librabbitmq/amqp_connection.c:226-419 | for every octet stream, every cut of it and every valid start state: the frames, their order, the error if any and the final state are those of the uncut stream |
| FrameParser.FeedWholeFrame | rabbitmq-c-master/librabbitmq/amqp_connection.c:253-419 | an idle parser with a whole frame buffered uses exactly that frame and is idle again |
| FrameLayout.TooLarge | rabbitmq-c-master/librabbitmq/amqp_connection.c:311-318 | a header that declares more than the limit is refused at once |
| FrameLayout.WholeFrameTaken | rabbitmq-c-master/librabbitmq/amqp_connection.c:253-419 | a frame within the limit is taken whole off the stream: refused if its last octet is not 206, else what decoding says, and the rest follows |
| FrameLayout.GreetingTaken | rabbitmq-c-master/librabbitmq/amqp_connection.c:282-304 | as the very first thing, the letters AMQP and four octets are a protocol header |
| FrameParser.InitialIsIdleWithZero | rabbitmq-c-master/librabbitmq/amqp_connection.c:282-332 | in the initial state the first frame is parsed as if its first payload octet were zero |
| Frames.FirstFrameExact | rabbitmq-c-master/librabbitmq/amqp_connection.c:311-327 | for every complete first frame that the idle parser delivers or skips: the initial parser does the same if and only if the eighth octet is zero, or lies in a payload that nobody looks at |
| Frames.FirstWrittenFrame | rabbitmq-c-master/librabbitmq/amqp_connection.c:311-327 | a frame the library wrote survives as the very first one if and only if its payload starts with a zero octet: a method number below 2^24, a class number below 256, a body starting with zero; never a heartbeat |
| FrameParser.FirstHeartbeatRefused | rabbitmq-c-master/librabbitmq/amqp_connection.c:282-351 | a heartbeat as the very first frame is refused |
| Frames.WriteFrame | rabbitmq-c-master/librabbitmq/amqp_connection.c:473-545 | the writer leaves exactly the frame's octets in the buffer, or refuses |
| FrameLayout.WrittenFrame | rabbitmq-c-master/librabbitmq/amqp_connection.c:473-545 | a written method, header, body or heartbeat starts with 1, 2, 3 or 8; then the channel, the length of the payload, and 206 as the last octet |
| FrameLayout.WrittenPayload | rabbitmq-c-master/librabbitmq/amqp_connection.c:482-535 | the payload: a method's number and arguments; a header's class, a zero weight, the size of the body and the properties; the fragment; nothing |
| FrameLayout.TakenFor | rabbitmq-c-master/librabbitmq/amqp_connection.c:353-409 | for every complete frame: type 1 can only become a method and 2 a header; 3 always becomes a body fragment and 8 a heartbeat, on the channel in octets 1 and 2; any other is skipped |
| FrameLayout.TakenMethod | rabbitmq-c-master/librabbitmq/amqp_connection.c:361-374 | the method number lies in octets 7 to 10; an unknown one is refused, as are arguments that do not decode |
| FrameLayout.TakenHeader | rabbitmq-c-master/librabbitmq/amqp_connection.c:376-393 | the class lies in octets 7 and 8 and the body's size in 11 to 18; an unknown class is refused, as are properties that do not decode |
| Frames.FrameRoundTrip | rabbitmq-c-master/librabbitmq/amqp_connection.c:473-545 | a written frame fits the buffer, declares its own length, ends with the end marker, and decodes to itself exactly when its tables are portable |
| Frames.ParserRoundTrip | rabbitmq-c-master/librabbitmq/amqp_connection.c:253-545 | the idle parser given a written frame uses exactly its octets, delivers that frame and is idle again |
| Frames.StreamTransparency | rabbitmq-c-master/librabbitmq/amqp_connection.c:253-545 | writer, network and reader together: however the octets of a sequence of frames are cut, the parser delivers those frames in order, nothing else, and ends idle |
| FrameQueue.Queue.Enqueue | rabbitmq-c-master/librabbitmq/amqp_socket.c:886-903 | the frame is appended; the tail pointer stays the true tail, null exactly when the head is |
| FrameQueue.Queue.PutBack | rabbitmq-c-master/librabbitmq/amqp_socket.c:905-922 | the frame is put in front, same invariant |
| FrameQueue.Queue.TakeFirst | rabbitmq-c-master/librabbitmq/amqp_socket.c:982-989 | the front frame is removed, same invariant |
| FrameQueue.Queue.TakeOnChannel | rabbitmq-c-master/librabbitmq/amqp_socket.c:932-945 | the first frame of the channel is returned and the queue goes on behind it |
| FrameQueue.NothingLost | rabbitmq-c-master/librabbitmq/amqp_socket.c:932-945 | taking by channel keeps all other queued frames if and only if the match is at the front |
| FrameQueue.FrontLost | rabbitmq-c-master/librabbitmq/amqp_socket.c:932-945 | a frame of another channel in front of the match is lost |
| Session.Receiver.ConsumeOne | rabbitmq-c-master/librabbitmq/amqp_socket.c:692-708 | one parser call on the socket buffer takes at most one frame off the front of everything still to be heard |
| Session.ConservationExact | rabbitmq-c-master/librabbitmq/amqp_socket.c:822-859 | no octet is parsed that did not arrive, and every octet that arrives is parsed, in order, if and only if no receive overwrites octets that were received while a heartbeat was being sent |
| Session.AllIsHeard | rabbitmq-c-master/librabbitmq/amqp_socket.c:797-860 | then the frames heard, by the waiting loop or aside, are those of everything buffered and everything that arrives, in order |
| Session.OverwrittenFrame | rabbitmq-c-master/librabbitmq/amqp_socket.c:826-842 | a script on which a whole frame is lost: received during a heartbeat, overwritten by the next receive |
| Session.AwaitExact | rabbitmq-c-master/librabbitmq/amqp_socket.c:1071-1158 | for every queue and everything that can still be heard: waiting ends with the first wanted frame that comes to the loop, or with the failure before it; the queue becomes the old queue followed by all frames heard until then, in order, heartbeats aside; the rest is still to come |
| Session.CalmNews | rabbitmq-c-master/librabbitmq/amqp_socket.c:797-860 | when nothing fails and the socket takes every heartbeat at once, what is heard is exactly the frames of all octets, however they are cut |
| Session.FirstReplyReturned | rabbitmq-c-master/librabbitmq/amqp_socket.c:1071-1158 | then, if a frame that answers is among them (on the channel an expected method or 0x00140028, on channel 0 0x000A0032), the first one is returned, as a normal reply if and only if its method is expected and as the server's exception if and only if it is not; the queue becomes the old queue followed by all earlier frames in order, heartbeats aside, and the later ones are still to come |
| Session.WantedReturned | rabbitmq-c-master/librabbitmq/amqp_socket.c:797-963 | for every script without a failure that does not stop right after a heartbeat, the first wanted frame that comes to the loop is returned, whatever is parsed aside |
| Session.FirstHeardReturned | rabbitmq-c-master/librabbitmq/amqp_socket.c:1071-1158 | of everything heard, by the loop or while a heartbeat is being sent: the first wanted frame is returned, with the queue followed by all earlier frames, if and only if it came to the loop and nothing broke off before it |
| Session.AsideIsMissed | rabbitmq-c-master/librabbitmq/amqp_connection.c:580-594 | a frame parsed while a heartbeat is being sent is queued but not noticed by the wait it arrives in |
| Session.Client.WaitFrame | rabbitmq-c-master/librabbitmq/amqp_socket.c:797-860 | for every script of reads, heartbeats and failures, and every queue: the result, the queue and what is still to be heard are those of the specification |
| Session.Client.SendHeartbeat | rabbitmq-c-master/librabbitmq/amqp_connection.c:571-599 | while a heartbeat is being sent, everything buffered is parsed and queued before each receive, and the last receive stays in the buffer |
| Session.Client.TryRecv | rabbitmq-c-master/librabbitmq/amqp_socket.c:751-795 | the queue grows by exactly the frames of what was buffered, heartbeats included; then the socket is asked once: nothing there is a timeout, a failure is reported, and if octets arrive, nothing but those frames is missing from what is still to be heard |
| Session.Client.WaitAny | rabbitmq-c-master/librabbitmq/amqp_socket.c:971-993 | the queue's front if there is one, and nothing else changes; otherwise exactly the waiting loop, its failures included |
| Session.Client.AwaitReply | rabbitmq-c-master/librabbitmq/amqp_socket.c:1087-1157 | for every script: the reply is normal if and only if the frame that ended the wait has an expected method, an exception of the server if and only if it is 0x00140028 on the channel or 0x000A0032 on channel 0 and not expected, and one of the library if the wait failed; the queue and what is still to be heard are those of the specified wait |
| Messages.WaitOnChannel | rabbitmq-c-master/librabbitmq/amqp_socket.c:924-963 | for every script: the queued match, losing what was before it, or exactly the specified wait for a frame of the channel |
| Messages.ReadMessage | rabbitmq-c-master/librabbitmq/amqp_consumer.c:202-313 | for every script and queue: the result, the queue and what is still to be heard are those of assembling the frames of the channel one by one |
| MessageEnds.ReadFirst | rabbitmq-c-master/librabbitmq/amqp_consumer.c:217-268 | by the first frame of the channel, whatever comes before it from others: 0x00140028 or 0x000A0032 is reported as a close and taken; any other frame but a header is unexpected and put back in front of the queue; a header whose properties cannot be cloned is refused; a header with size zero is the message |
| MessageEnds.ReadInBody | rabbitmq-c-master/librabbitmq/amqp_consumer.c:271-302 | behind a header and an incomplete body: a close is reported; a fragment that reaches the size gives the message with all fragments in order, one that passes it is bad data, as is any other frame; the queue becomes the old one followed by what was heard from others |
| MessageEnds.ReadBreaksOff | rabbitmq-c-master/librabbitmq/amqp_consumer.c:217-302 | if the wait breaks off before, reading reports why and everything heard from others is queued |
| Messages.TakeFragment | rabbitmq-c-master/librabbitmq/amqp_consumer.c:271-302 | a fragment is copied behind the others; the message is over exactly when its size is reached, exceeded, or another frame comes |
| Messages.PublishedCompletes | rabbitmq-c-master/librabbitmq/amqp_consumer.c:225-302 | a header and the fragments of its body, and no proper prefix of them, are a message with that body |
| Messages.CompletesOnce | rabbitmq-c-master/librabbitmq/amqp_consumer.c:225-302 | two runs of frames, one continuing the other, that each complete a message, are the same |
| Messages.ReadPublished | rabbitmq-c-master/librabbitmq/amqp_consumer.c:202-313 | for every interleaving, where the frames of the channel, whoever parses them, are a header and the fragments of its body: whatever the queue holds for other channels, the body is returned, exactly what is heard up to the last fragment is taken, and the queue becomes the old one followed by the other frames in order; if and only if waiting does not break off before and no frame of the message is parsed while a heartbeat is being sent |
| Messages.ReadWhenAllCame | rabbitmq-c-master/librabbitmq/amqp_consumer.c:202-313 | for one queue, where header and fragments all come to the waiting loop: the same if and only if waiting does not break off before and no further frame of the channel is parsed aside before the last wait |
| Messages.ScrambledBody | rabbitmq-c-master/librabbitmq/amqp_consumer.c:271-302 | a fragment parsed while a heartbeat is being sent is overtaken by the next one: reading succeeds with the fragments in the wrong order, and everything queued before is lost |
| Messages.HeaderAside | rabbitmq-c-master/librabbitmq/amqp_consumer.c:217-240 | a header parsed while a heartbeat is being sent is not found by the read it arrives in: the next fragment, whatever follows it, is reported as unexpected and put back, and if there is none the read goes on waiting |
| Messages.WhatIsSentArrives | rabbitmq-c-master/librabbitmq/amqp_connection.c:253-604 | if the socket brings the octets of a sequence of frames, in any pieces, then exactly those frames are heard |
| Messages.WhatIsSentIsRead | rabbitmq-c-master/librabbitmq/amqp_consumer.c:202-313 | sender, network and reader together: if they hold a message, reading its channel gives the body and leaves everything else in the queue in order |
| Sending.Sender.TrySend | rabbitmq-c-master/librabbitmq/amqp_socket.c:376-402 | for every script of partial writes and polls, what is put on the wire is a prefix of the data, once and in order, and the result is the one the script dictates |
| Sending.Sender.SendOctets | rabbitmq-c-master/librabbitmq/amqp_connection.c:571-599 | status and number of octets are those of the reference loop: a partial send times out, waits for input, or goes on exactly as the deadlines say |
| SendRuns.SendEnds | rabbitmq-c-master/librabbitmq/amqp_connection.c:571-599 | for every script, by the first event with which sending does not go on: the send that completes the octets gives Ok; a poll that times out with a deadline not later than the heartbeat time in force gives a timeout; a receive that times out after one gives a heartbeat timeout; any other failed poll or receive gives its own status; the octets taken until then and the rest of the script are exactly those |
| SendRuns.SendExact | rabbitmq-c-master/librabbitmq/amqp_connection.c:571-599 | the result is Ok if and only if some send completes the octets and, before it, every poll was successful or ended by a heartbeat time earlier than the deadline and followed by a successful receive; it is a timeout if and only if such a poll is ended by the deadline |
| Sending.Sender.SendFrame | rabbitmq-c-master/librabbitmq/amqp_connection.c:553-604 | the wire is extended by a prefix of the frame's octets; how many, and the status, are what the script dictates, and nothing if the frame cannot be written |
| SendRuns.FrameSent | rabbitmq-c-master/librabbitmq/amqp_connection.c:553-604 | a frame that cannot be written takes nothing off the script; once all octets are taken the status is that of renewing the timer, and else that of the loop |
| Sending.SendAll | rabbitmq-c-master/librabbitmq/amqp_connection.c:553-604 | sending frame after frame takes no more than all their octets, and all of them if the result is Ok |
| SendRuns.FramesSent | rabbitmq-c-master/librabbitmq/amqp_connection.c:547-604 | a further frame is sent, without a deadline, exactly when all frames before it were |
| Sending.WillingSocket | rabbitmq-c-master/librabbitmq/amqp_connection.c:553-604 | with a socket that takes every frame at once, sending succeeds if and only if every frame can be written |
| Sending.FragmentsJoin | rabbitmq-c-master/librabbitmq/amqp_api.c:232-257 | the fragments of a body concatenate to the body |
| Sending.Fragments | rabbitmq-c-master/librabbitmq/amqp_api.c:232-257 | every fragment is a non-empty body frame of the channel with at most frame_max - 8 octets |
| Sending.Sender.Publish | rabbitmq-c-master/librabbitmq/amqp_api.c:173-260 | the wire is extended by a prefix of the octets of method, header and fragments, in this order, also on failure; how much of it, and the status, are what the script dictates, and all of it if the result is Ok |
| SendRuns.PublishStarts | rabbitmq-c-master/librabbitmq/amqp_api.c:198-208 | a clock that fails ends publishing; a heartbeat time that has passed asks for a receive, whose timeout is a heartbeat timeout and whose failure ends it; else the frames are sent |
| SendRuns.MessageFrames | rabbitmq-c-master/librabbitmq/amqp_api.c:210-257 | the frames are method 0x003C0028, a header of class 60 with the body's size, and fragments that join to the body, all but the last of them full |
| Sending.WireIsStream | rabbitmq-c-master/librabbitmq/amqp_api.c:173-260 | frames that can be read back have on the wire the octets the reader expects |
| AmqpPool.Allocator.AllocRegion | rabbitmq-c-master/librabbitmq/amqp_mem.c:125-172 | the place returned and all counters are those of the specification, in a block of the pool or a new one |
| AmqpPool.Allocator.RecyclePool | rabbitmq-c-master/librabbitmq/amqp_mem.c:88-94 | large blocks are dropped, pages are kept |
| AmqpPool.Allocator.EmptyPool | rabbitmq-c-master/librabbitmq/amqp_mem.c:96-100 | the pool is as new |
| AmqpPool.RegionsSafe | rabbitmq-c-master/librabbitmq/amqp_mem.c:88-172 | for every page size and every run of requests and recyclings: the regions handed out since the last recycling are pairwise disjoint, 8-aligned and inside their page or block, and the page in use is never overrun |
| AmqpPlacement.RequestPlaced | rabbitmq-c-master/librabbitmq/amqp_mem.c:125-172 | in every run, by the regions handed out before: a request, rounded up to a multiple of eight, is cut right behind the last one of its page if there is room, else from the start of the next page, the first since the last recycling; it gets a block of its own exactly when it is larger than a page, of 4096 octets by default |
| AmqpPlacement.RecyclePlaced | rabbitmq-c-master/librabbitmq/amqp_mem.c:88-94 | recycling takes all regions back and keeps the pages; an empty request gets nothing |
| AmqpPool.PagesAreNeverWasted | rabbitmq-c-master/librabbitmq/amqp_mem.c:88-172 | the number of pages owned is the largest number in use at any time of the run |
| AmqpPool.EnoughExactly | rabbitmq-c-master/librabbitmq/amqp_mem.c:125-131 | a request gets at least what it asked for exactly when rounding up does not leave the 64-bit range |
| AmqpPool.RoundingWraps | rabbitmq-c-master/librabbitmq/amqp_mem.c:131-131 | the largest request is rounded to nothing |
| ChannelPools.PoolTable.Get | rabbitmq-c-master/librabbitmq/amqp_mem.c:239-253 | the lookup loop finds the channel's pool if it has one |
| ChannelPools.PoolTable.GetOrCreate | rabbitmq-c-master/librabbitmq/amqp_mem.c:212-237 | the channel has that pool from now on, a new empty one only if it had none; other channels keep theirs, and no two share one |
| Recycling.RecyclingSafety | rabbitmq-c-master/librabbitmq/amqp_connection.c:426-471 | for every interleaving of input, decoding, queueing, putting back, taking and releasing: the memory of every queued frame and of the half-read frame was handed out by its own channel's pool since its last recycling, and none is shared |
| Recycling.RequeueExact | rabbitmq-c-master/librabbitmq/amqp_socket.c:862-922 | over all runs: queueing a frame that was once handed to the caller is safe if and only if no step since then recycled the pool of its channel and the frame is not already queued |
| Releases.ReleaseExact | rabbitmq-c-master/librabbitmq/amqp_connection.c:447-471 | between frames, releasing a channel leaves its pool without a region in use and in a new epoch if and only if no frame of it is queued, whatever other channels have queued; no other pool, the queue or the reader changes; inside a frame nothing happens |
| Releases.ReleaseAllExact | rabbitmq-c-master/librabbitmq/amqp_connection.c:421-445 | releasing all buffers does that for exactly the channels that have nothing queued |
| Releases.QueueOrder | rabbitmq-c-master/librabbitmq/amqp_socket.c:886-922 | a frame is queued behind the others or put back in front |
| Releases.TakeOrder | rabbitmq-c-master/librabbitmq/amqp_socket.c:932-945 | a frame that is taken goes to the caller, those queued before it are dropped |
| Recycling.StaleFrame | rabbitmq-c-master/librabbitmq/amqp_connection.c:447-471 | a run on which the memory of a frame kept across a release looks live, because it was handed out again, and queueing the frame is not safe |
| NgxPool.RegionsSafe | nginx/src/ngx_palloc.c:122-215 | for every pool size with room for the header and one slot: in all runs the small regions since the last reset are apart, inside a block behind its header and aligned where asked, if and only if the size is a multiple of the alignment |
| NgxPool.UnalignedSizeOverruns | nginx/src/ngx_palloc.c:133-139 | for every other size, a run that fills the block and then asks for aligned memory is served outside the block |
| NgxPool.SmallValid | nginx/src/ngx_palloc.c:122-215 | one small request keeps all of that, the fresh block included |
| NgxPool.RetirementInvariant | nginx/src/ngx_palloc.c:182-215 | in every reachable state `current` is a block of the chain, the blocks before it are exactly those with six counted failures, and the counts never grow from it on |
| NgxPool.RetiredBlocksMissed | nginx/src/ngx_palloc.c:182-215 | a block is given up only after at least six requests since the last reset found no room in it |
| NgxPlacement.SmallServed | nginx/src/ngx_palloc.c:122-215 | in every reachable state, a request that fits an empty first block and is smaller than a page is cut from the first block, from the current one on, that has room for it, right behind what was cut from it before, rounded up to eight if aligned; if there is none, from a new block at offset 32, and then each block searched but the last counts one more failure and exactly those that had five already are given up |
| NgxPlacement.LargeServed | nginx/src/ngx_palloc.c:218-254 | any other request is remembered in the first free slot among the first five, and else in a new slot of 16 octets cut like a small request |
| NgxPlacement.AfterReset | nginx/src/ngx_palloc.c:99-119 | after a reset, whatever happened before, a small request is served from the first block at offset 80; no large memory is held, no region in use, and no block was given back |
| NgxPlacement.ResetReuses | nginx/src/ngx_palloc.c:99-215 | after a reset, requests of which each block holds only one are served from one block after the other, all those there were, before a new one is needed |
| NgxPool.TakeSlotHolds | nginx/src/ngx_palloc.c:218-254 | a large request is remembered by exactly one more slot, reused or new |
| NgxPool.FreeReleases | nginx/src/ngx_palloc.c:282-299 | freeing empties exactly one slot that points to the memory, or changes nothing |
| NgxChain.ChainPool.Alloc | nginx/src/ngx_palloc.c:122-180 | on the linked chain: the place returned and all counters are those of the specification |
| NgxChain.ChainPool.CountFailures | nginx/src/ngx_palloc.c:205-209 | the counting loop on the linked chain computes the specified pass and ends at the last block |
| NgxChain.ChainPool.Append | nginx/src/ngx_palloc.c:182-215 | a new block is linked at the end of the chain |
| NgxChain.ChainPool.AllocLarge | nginx/src/ngx_palloc.c:218-254 | the slot search and the new slot are those of the specification |
| NgxChain.ChainPool.FreeChunk | nginx/src/ngx_palloc.c:282-299 | the slot list after freeing, and whether a slot was found |
| NgxChain.ChainPool.ResetPool | nginx/src/ngx_palloc.c:99-119 | all blocks are emptied and the first one is current |
| NgxQueue.Sort | nginx/src/ngx_queue.c:51-81 | the pointer-rewriting loops turn the ring into the sentinel followed by the insertion-sorted nodes |
| NgxQueue.SortCorrect | nginx/src/ngx_queue.c:51-81 | for every total preorder: the same nodes in a well-formed ring, in order, equal ones in their original order |
| StableSort.SortIsStable | nginx/src/ngx_queue.c:51-81 | elements that compare equal keep their relative order |
| StableSort.SortOrders | nginx/src/ngx_queue.c:51-81 | the result is in order |
| StableSort.SortPermutes | nginx/src/ngx_queue.c:51-81 | the result is a permutation, for every comparator |
| NgxQueue.Middle | nginx/src/ngx_queue.c:18-45 | the two-pointer loop returns the middle element, or the first of the second half |
| NgxQueue.InsertAfter | nginx/src/ngx_queue.h:33-40 | the ring with the node inserted |
| NgxQueue.InsertTail | nginx/src/ngx_queue.h:43-47 | the ring with the node at its end |
| NgxQueue.Remove | nginx/src/ngx_queue.h:80-82 | the ring without the node |
| NgxQueue.Split | nginx/src/ngx_queue.h:87-93 | two rings, cut at the node |
| NgxQueue.Add | nginx/src/ngx_queue.h:96-100 | one ring with all elements of both |
| NgxQueue.SplitThenAdd | nginx/src/ngx_queue.h:87-100 | splitting and adding back gives the original ring |
| Url.FindDelim | rabbitmq-c-master/librabbitmq/amqp_url.c:64-113 | a component is decoded over itself: the write index never passes the read index, nothing before it changes, and it is ended with a zero |
| Url.ParseUrl | rabbitmq-c-master/librabbitmq/amqp_url.c:116-225 | the parse of the original string, and every component still stands in the rewritten buffer where the result points; what that parse is for every form of URL is the next row |
| UrlRoundTrip.ParseRoundTrip | rabbitmq-c-master/librabbitmq/amqp_url.c:116-225 | for every form of URL (no login, user, user and password; host missing, plain or in brackets; port and virtual host given or not; both schemes), all texts and every percent-encoded spelling of them: parsing succeeds if and only if the URL ends there, not with ?, # or ], and its port is at most 65535; every given part is read back, and every missing one is guest, guest, localhost, 5672 or 5671, and / |
| UrlRoundTrip.ParseSpelledUrl | rabbitmq-c-master/librabbitmq/amqp_url.c:64-225 | the same through the parser on its buffer: the C strings it leaves behind are the original texts |
| UrlRoundTrip.EncodeSpells | rabbitmq-c-master/librabbitmq/amqp_url.c:85-103 | every ASCII text has a spelling |
| UrlRoundTrip.EscapeExact | rabbitmq-c-master/librabbitmq/amqp_url.c:89-103 | the two characters behind a percent sign are accepted if and only if they are two hexadecimal digits below 0x80, a plus and a digit, a minus and a zero, or a blank and a digit that nothing continues |
| UrlRoundTrip.DecimalFirst | rabbitmq-c-master/librabbitmq/amqp_url.c:195-204 | the port is read in decimal, the first digit counting most |
| UrlRoundTrip.OtherScheme | rabbitmq-c-master/librabbitmq/amqp_url.c:126-134 | any other scheme is refused |
| CommandLine.MakeCommandLine | rabbitmq-c-master/tools/win32/process.c:69-151 | the buffer holds the quoted line and its zero, inside the length computed beforehand |
| CommandLine.QuotingRoundTrip | rabbitmq-c-master/tools/win32/process.c:69-151 | splitting the line by the backslash and quote rules gives the argument list back, for every non-empty list |
| CommandLine.LineFits | rabbitmq-c-master/tools/win32/process.c:77-95 | the line and its zero never exceed the computed length |
| Merge.MergeCapabilities | rabbitmq-c-master/librabbitmq/amqp_socket.c:1209-1263 | without a table to add, the clone of base; otherwise the in-place filling of the entries computes the specified merge, errors included |
| Merge.MergeIsMapMerge | rabbitmq-c-master/librabbitmq/amqp_socket.c:1209-1263 | for all tables: the merged table has base's keys in order, then add's new keys in order; each key maps to the last value given for it, or to the merge of base's table with it if both are tables |
| Merge.DistinctMapMerge | rabbitmq-c-master/librabbitmq/amqp_socket.c:1204-1263 | without repeated keys: each key maps to the added value, the base value, or the recursive merge if both are tables |
| Merge.MergeSucceeds | rabbitmq-c-master/librabbitmq/amqp_socket.c:1209-1263 | for all tables: merging succeeds if and only if at every merged level there is an entry, base has a table wherever two tables meet, no key is empty and all kept values can be cloned; it reads a base entry that does not exist if and only if, before anything else fails, a key that only add gave a table is given another one |
| MergeEnds.FailsWith | rabbitmq-c-master/librabbitmq/amqp_socket.c:1209-1263 | merging runs out of memory if and only if there is no entry at all, or, before anything else fails, two tables meet for which that is so; it refuses a parameter if and only if it neither succeeds nor runs out of memory nor reads an entry that does not exist |
| Merge.CleanIsDefined | rabbitmq-c-master/librabbitmq/amqp_socket.c:1236-1250 | if add repeats no key, at any depth, merging never reads an entry that does not exist |
| Merge.RepeatedKey | rabbitmq-c-master/librabbitmq/amqp_socket.c:1236-1250 | a key given twice by add, with tables, reads a base entry that does not exist |
| Merge.NothingToMerge | rabbitmq-c-master/librabbitmq/amqp_socket.c:1224-1231 | two tables without entries, or an empty key, are refused |
| Merge.CloneTable | rabbitmq-c-master/librabbitmq/amqp_table.c:595-623 | a clone is the table itself, or a refusal exactly when a kind is unknown or a key empty, at any depth |
| MergeEnds.CloneableKinds | rabbitmq-c-master/librabbitmq/amqp_table.c:475-593 | only an unknown kind cannot be cloned by itself; arrays and tables can if all their values can and, in tables, no key is empty |

## Left out

- Sockets, polling, connecting, DNS, TLS and threads: they appear only as scripts of results.
- Clocks: times are inputs; the renewal of timers is a result in the script.
- Login: the SASL exchange, the choice of a mechanism, the negotiation of channel, frame and heartbeat limits, and the comparison of host names with certificates.
- Running out of memory: allocation succeeds, except that a request of size zero gives nothing, as in the source.
- Addresses: regions are offsets into blocks, and blocks from the system are taken to be different memory with its usual alignment.
- Frame lengths that wrap in 32 bits, method and header frames shorter than their fixed part, and a third flag word give an explicit undefined outcome instead of the wrapped computation.
- Session.Client.AwaitReply: models the waiting part of an RPC; sending the request is `Sending.Sender.SendFrame`.
- Sending.Sender.TryRecv: keeps only the result and the new heartbeat time of a receive inside the send loop; what it does to the queue is `Session.Client.TryRecv`, and inside a wait `Session.Client.SendHeartbeat`.
- Session.Receiver: holds the parser as a value and calls `FrameParser.Feed`; that the parser object computes it is `FrameParser.Connection.HandleInput`.
- Frames.WriteFrame: writes the payload as one block; that the statements of the generated encoders produce it, field by field, is `Generator.EncoderCorrect`.
- Merge.CloneTable: an empty array is one whose entries pointer is null, as the decoder and the library's empty array have it; the source refuses to clone an empty array with another pointer.
- Merge.MergeCapabilities: nested tables are values, so sharing of entries between the merged table and its inputs is not captured.
- CommandLine: strings have no encoding; the splitting rules are those stated in the quoter's comments.
- Recycling: the scan over the queue is a condition on the queue, not a loop; releasing all pools is one step.
- nginx pools without room for the pool header and one slot, that is of less than 96 octets: there a large request makes two functions call each other without end.
- nginx cleanup handlers, `ngx_pcalloc`, `ngx_pmemalign`, `ngx_destroy_pool`, and the second copy of the queue under `work/`.
- Demo programs, examples, logging, MQTT, Python scripts and the other command-line tools.
