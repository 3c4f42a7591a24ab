# Verification of the Thanatos protocol terminator

Thanatos terminates the Ragnarok login and character protocols locally and relays GameGuard challenges
between a bus peer and the game client; a Python orchestrator starts fleets of instances. This project
models the parts that carry state or wire formats and proves what they keep over whole runs.

`dafny verify dfyconfig.toml` checks everything.

| file | models |
|---|---|
| `Bytes.dfy`, `Wrappers.dfy`, `Sets.dfy`, `Arithmetic.dfy` | bytes, fixed-width and shortest integers; results and options; set sizes; laws of arithmetic |
| `BusGrammar.dfy`, `BusProtocol.dfy` | the entry grammar of the bus envelope; the encoder and decoder loops, proved against it |
| `BusTheorems.dfy`, `BusNormalForm.dfy` | round trip, acceptance, normal form, prefix-freedom |
| `QueryServer.dfy` | reading a frame, delivering the query, writing the reply |
| `GameGuardBridge.dfy`, `BridgeTheorems.dfy` | the challenge transaction and its runs |
| `Relay.dfy` | server and bridge together |
| `QueryStream.dfy`, `SessionRegistry.dfy`, `QueryHandler.dfy` | frame extraction from a stream, the one-shot waiter, the query relay |
| `Fleet.dfy`, `Batches.dfy`, `Orchestrator.dfy` | slots, port triples, filling whole blocks, and processes that may exit at any moment |
| `TcpSession.dfy` | the write queue and read loop of a session |
| `CharFlow.dfy`, `LoginFlow.dfy` | the two phase machines |

## How the models are built

Code that updates fields is a class whose methods follow the source branch by branch. Each method is
proved to compute a step function on values; the theorems are about all sequences of steps. What comes from
outside (clock readings, random percentages and ids, results of sends, process exits, open ports, the
order in which an unordered map is visited) is an input of the step or a choice of the environment class,
so the theorems hold for every behaviour of it. The orchestrator's `Environment` is adversarial: every
poll and every port check may let processes exit, and unless it is `sealed` any port may be found in use. It
keeps what it answered and what it was told to terminate, so that contracts can speak of what was seen.

Step functions say what one call does, and a method that equals one shares its mistakes. So each of them is
also pinned from outside, by theorems that speak of bytes, packets and events only: what a query, a client
packet, a frame or a request is answered with, and that it is answered at all.

## Where the code and its documentation disagree

The models follow the code.

- `src/interface/query/QueryServer.hpp:31-41` describes a header with a magic number; the code reads the bus
  envelope's length prefix.
- `src/interface/query/QueryServer.cpp:229-231` says that after a decoding error the connection is closed and
  the next one accepted. The handler does neither, nor does it after a frame that is not a query or a query
  the bridge drops or gives up. `Relay.StuckReached` is a run, `Relay.FrameOutcome`, `Relay.PacketOutcome` and
  `Relay.StuckIffSomeEventSticks` say exactly when it happens, and `Relay.StuckForever` proves that the endpoint
  then never does anything again.
- `src/infrastructure/net/asio/AsioTcpServer.cpp:178-204` says that upstream is notified once. It is notified
  once for each of three reasons that comes up, and no more (`TcpSession.ToldOncePerReason`); all three can
  (`TcpSession.DisconnectedThreeTimes`). A write error does not close the session
  (`TcpSession.StuckAfterWriteError`).
- `src/application/services/GameGuardBridge.hpp:35-45` names reply strategies and size bounds; the bridge reads
  none of them and always replies with the whole trimmed packet.
- Framing a raw query of more than 65531 bytes wraps the 16-bit length field; `GameGuardBridge.FramingIdempotent`
  and `GameGuardBridge.LengthFieldIsSize` give the exact conditions. Likewise a message of 2^32 bytes or more
  (`BusTheorems.RoundTrip`) and a captured packet of more than 65529 bytes (`QueryStream.BlobFrameRoundTrip`).
- An expired challenge is noticed only when the client sends its next packet; there is no bound in time
  (`BridgeTheorems.OnlyPacketsMoveOn`).
- A size field below 4 drops what has arrived, so how a stream is cut matters exactly if something follows it
  (`QueryStream.CutsDoNotMatterIff`).
- `start_n_blocks` catches the error of a block and returns the instances of the blocks before it; those that
  the failing block had started stay in the table but are not in the list
  (`Orchestrator.ThanatosOrchestrator.StartNBlocks`, where they are `unlisted`).

## Model

| member | source | states |
|---|---|---|
| `BusTheorems.RoundTrip` | src/interface/query/bus/BusProtocol.hpp:105-299 | decoding an encoded message, whatever the map's iteration order and whatever bytes follow, gives the message back (unused fields cleared) and consumes exactly the encoding, if and only if the encoding is shorter than 2^32 bytes |
| `BusTheorems.EncodeIffEncodable` | src/interface/query/bus/BusProtocol.hpp:105-196 | encoding throws exactly for a MID or key over 255 bytes, options other than 0 and 1, or a raw value over 0xFFFFFF bytes |
| `BusTheorems.DecodeIffTiled` | src/interface/query/bus/BusProtocol.hpp:205-299 | decoding succeeds exactly when the header is in range and whole entries of the declared form tile the bytes between the MID and the declared length |
| `BusTheorems.DecodeIsLocal` | src/interface/query/bus/BusProtocol.hpp:205-299 | bytes behind the declared length never influence the result, and the count returned is the declared length |
| `BusTheorems.FirstEntryWins` | src/interface/query/bus/BusProtocol.hpp:257-257 | args_map has exactly the keys of the entries, each with the value of its first entry |
| `BusTheorems.MapOnTheWire` | src/interface/query/bus/BusProtocol.hpp:105-154 | the bytes of a map message: be32 length, options, MID, and an entry with its length-prefixed key, tag, be24 length and bytes |
| `BusTheorems.ArrayOnTheWire` | src/interface/query/bus/BusProtocol.hpp:156-195 | the bytes of an array message: entries without keys, an integer with only the digits it needs |
| `BusTheorems.IntegerDigits` | src/interface/query/bus/BusProtocol.hpp:243-255 | under every tag but 0 and 1 a value is a number: no digits are zero, and one more digit shifts in a byte on 64 bits |
| `BusTheorems.LeadingZeros` | src/interface/query/bus/BusProtocol.hpp:243-255 | a leading zero byte does not change the number |
| `BusTheorems.LastEightDigits` | src/interface/query/bus/BusProtocol.hpp:243-255 | of more than eight digits only the last eight count |
| `BusNormalForm.DecodeThenEncode` | src/interface/query/bus/BusProtocol.hpp:105-299 | a decoded message is in normal form, encodes again in every order without throwing, into at most the bytes read plus one per integer sent without digits, and decodes to itself if and only if that is below 2^32 bytes |
| `BusNormalForm.OrderIsInvisible` | src/interface/query/bus/BusProtocol.hpp:123-154 | two iteration orders give encodings of the same length that decode alike |
| `BusNormalForm.SizeIgnoresOrder` | src/interface/query/bus/BusProtocol.hpp:123-154 | the space a map takes up does not depend on the order it is visited in |
| `BusNormalForm.StreamSplits` | src/interface/query/bus/BusProtocol.hpp:296-298 | repeated decoding splits any concatenation of encodings into the messages that were sent |
| `BusNormalForm.StreamUnique` | src/interface/query/bus/BusProtocol.hpp:296-298 | no two different lists of messages have the same concatenated encoding |
| `BusGrammar.ParseOfPrint` | src/interface/query/bus/BusProtocol.hpp:94-103 | the recursive parser inverts the printer of entries |
| `BusGrammar.PrintOfParse` | src/interface/query/bus/BusProtocol.hpp:94-103 | what the parser accepts prints back to the same bytes |
| `BusGrammar.ParseIffTiles` | src/interface/query/bus/BusProtocol.hpp:94-103 | the parser accepts exactly the byte strings that entries tile |
| `BusGrammar.TilingUnique` | src/interface/query/bus/BusProtocol.hpp:94-103 | a byte string is tiled by entries in at most one way |
| `BusProtocol.Encode` | src/interface/query/bus/BusProtocol.hpp:105-196 | the encoder computes the grammar's encoding, or throws what it throws at the first offending entry |
| `BusProtocol.EncodeMap` | src/interface/query/bus/BusProtocol.hpp:120-155 | the map loop appends the entries in iteration order |
| `BusProtocol.EncodeArray` | src/interface/query/bus/BusProtocol.hpp:156-185 | the array loop appends the entries in order |
| `BusProtocol.EncodeValue` | src/interface/query/bus/BusProtocol.hpp:129-153 | one value's tag, be24 length and bytes |
| `BusProtocol.EncodeUInt` | src/interface/query/bus/BusProtocol.hpp:141-152 | the do-while loop over tmp yields the shortest big-endian form |
| `BusProtocol.PatchLength` | src/interface/query/bus/BusProtocol.hpp:187-195 | the head is overwritten with the total length, truncated to 32 bits |
| `BusProtocol.Decode` | src/interface/query/bus/BusProtocol.hpp:205-299 | the decoder computes the message the grammar assigns, or the error of the first check that fails |
| `BusProtocol.DecodeMap` | src/interface/query/bus/BusProtocol.hpp:224-259 | the map loop reads entries until the declared length and keeps the first value of a key |
| `BusProtocol.DecodeArray` | src/interface/query/bus/BusProtocol.hpp:260-288 | the array loop reads entries until the declared length |
| `BusProtocol.DecodeMapEntry` | src/interface/query/bus/BusProtocol.hpp:229-255 | one map entry with both truncation checks |
| `BusProtocol.DecodeArrayEntry` | src/interface/query/bus/BusProtocol.hpp:265-284 | one array entry with both truncation checks |
| `BusProtocol.DecodeValue` | src/interface/query/bus/BusProtocol.hpp:236-254 | raw tags keep the bytes, every other tag is an integer |
| `BusProtocol.DecodeUInt` | src/interface/query/bus/BusProtocol.hpp:249-253 | the shift loop yields the big-endian value modulo 2^64, for any length |
| `Bytes.Be32RoundTrip` | src/interface/query/bus/BusProtocol.hpp:69-87 | rd_be32 after wr_be32 is the number modulo 2^32 |
| `Bytes.Be24RoundTrip` | src/interface/query/bus/BusProtocol.hpp:77-92 | rd_be24 after wr_be24 is the number, below 2^24 |
| `Bytes.Be24Inverse` | src/interface/query/bus/BusProtocol.hpp:77-92 | wr_be24 after rd_be24 is the bytes |
| `Bytes.MinBeValue` | src/interface/query/bus/BusProtocol.hpp:139-152 | the shortest form denotes its number |
| `Bytes.MinBeUnique` | src/interface/query/bus/BusProtocol.hpp:139-152 | a form without a leading zero is the shortest one of its value |
| `Bytes.Le16RoundTrip` | src/interface/query/QueryProtocol.hpp:36-50 | r16 after w16 is the number modulo 2^16 |
| `Bytes.ToLeBytesInjective` | src/interface/ragnarok/protocol/Ids.hpp:16-25 | two numbers have the same wire identity only if they are equal |
| `QueryServer.QueryDelivered` | src/interface/query/QueryServer.cpp:149-233 | an encoded Poseidon query with a binary packet passes the length guard exactly up to 16 MiB, and its packet is delivered unchanged |
| `QueryServer.DeliveredIff` | src/interface/query/QueryServer.cpp:196-224 | on the wire: the callback runs with a payload if and only if the frame has options 0, MID "Poseidon Query", a body that map entries tile, and a first "packet" entry that is binary and holds the payload |
| `QueryServer.WholeFrameConsumed` | src/interface/query/QueryServer.cpp:160-197 | whenever the assembled frame decodes, the decoder consumes all of it |
| `QueryServer.ReplyDecoded` | src/interface/query/QueryServer.cpp:251-274 | the peer decodes a written reply to the Poseidon reply with the payload, whatever follows it |
| `QueryServer.ReplyEncodable` | src/interface/query/QueryServer.cpp:251-274 | a reply can be encoded exactly up to 0xFFFFFF bytes of payload |
| `QueryServer.Server.OnAccept` | src/interface/query/QueryServer.cpp:128-145 | a failed accept is retried, a successful one reads the length |
| `QueryServer.Server.OnLength` | src/interface/query/QueryServer.cpp:149-175 | only lengths from 6 to 16 MiB go on to reading the rest; the header is kept at the front of the frame |
| `QueryServer.Server.OnRest` | src/interface/query/QueryServer.cpp:179-234 | a whole frame is handed to the decoder, and the callback gets the packet of a Poseidon query and nothing else |
| `QueryServer.Server.SendReply` | src/interface/query/QueryServer.cpp:251-291 | without a connection the reply is dropped; otherwise the encoded reply is written, or the encoder throws |
| `QueryServer.Server.OnReplyWritten` | src/interface/query/QueryServer.cpp:276-290 | after writing, the connection is closed and the next one accepted |
| `BridgeTheorems.RunIsTransactions` | src/application/services/GameGuardBridge.cpp:95-292 | in every run the bridge's actions are complete transactions and at most one open one: one accepted query, at most 1 + max_retries successful sends of the same bytes, each after the deadline before it, and one end; replies are in time, giving up needs every retry used and expired |
| `BridgeTheorems.QueryOutcome` | src/application/services/GameGuardBridge.cpp:95-163 | a query is dropped while another is pending or no client is bound; otherwise its framing is sent at once and it is pending, with its deadline, if and only if that succeeded |
| `BridgeTheorems.ClientPacketOutcome` | src/application/services/GameGuardBridge.cpp:178-292 | what a client packet does, byte by byte: a late 0x09D0 swallowed; in time, 0x09D0 and 0x099F answered with exactly the packet cut at its length field, all else left alone; late, one more send of the same bytes while there are retries, else the query is dropped |
| `BridgeTheorems.FramingIsCorrect` | src/application/services/GameGuardBridge.cpp:128-149 | what is sent for a query, byte by byte: a 0x09CF packet cut at its length field, or CF 09, the length and the query |
| `BridgeTheorems.WireFollowsBindings` | src/application/services/GameGuardBridge.cpp:63-72 | in every run the wire is what the last binding said |
| `BridgeTheorems.Conservation` | src/application/services/GameGuardBridge.cpp:95-292 | accepted queries = replies + failed sends + lost wires + give-ups + 1 if one is pending |
| `BridgeTheorems.PendingInvariant` | src/application/services/GameGuardBridge.cpp:111-163 | pending: the saved packet is a 0x09CF packet and the retry count is within the retries; otherwise the count is 0 |
| `BridgeTheorems.LatePacketsClear` | src/application/services/GameGuardBridge.cpp:190-244 | a query survives at most as many late client packets as it has retries left, whatever happens in between |
| `BridgeTheorems.OnlyPacketsMoveOn` | src/application/services/GameGuardBridge.cpp:178-244 | there is no bound in time: in a run without client packets, a pending query stays pending, unanswered and not resent, and only the wire changes |
| `BridgeTheorems.EveryTryHasItsTimeout` | src/application/services/GameGuardBridge.cpp:115-118 | every try in a run was made in some call and has that call's timeout before its deadline |
| `BridgeTheorems.TimeoutWithin` | src/application/services/GameGuardBridge.cpp:75-93 | the randomized timeout stays between the shares of the base timeout that the percentage stays between; without randomizing it is the base timeout |
| `BridgeTheorems.TimeoutIsPercentage` | src/application/services/GameGuardBridge.cpp:82-86 | the randomized timeout is the percentage of the base timeout, less than one unit cut off |
| `BridgeTheorems.RepliesAreCutPackets` | src/application/services/GameGuardBridge.cpp:248-281 | every reply in a run is a client packet with opcode bytes D0 09 or 9F 09, cut at its own length field where that is usable, in the call that received it |
| `GameGuardBridge.FramingIdempotent` | src/application/services/GameGuardBridge.cpp:128-149 | framing twice is framing once exactly if the query was framed, has at most 65531 bytes, or overflowed to a length below 4 |
| `GameGuardBridge.LengthFieldIsSize` | src/application/services/GameGuardBridge.cpp:128-149 | the length field of what is sent is its size exactly for usable lengths and for wrapped queries up to 65531 bytes |
| `GameGuardBridge.TrimIdempotent` | src/application/services/GameGuardBridge.cpp:31-39 | a trimmed packet is a fixed point of trimming |
| `GameGuardBridge.FramedShape` | src/application/services/GameGuardBridge.cpp:128-153 | what is sent is always a 0x09CF packet whose length field is the length recorded |
| `GameGuardBridge.Bridge.OnQueryFromKore` | src/application/services/GameGuardBridge.cpp:95-163 | one query: dropped while pending or without a wire, otherwise framed, saved and sent |
| `GameGuardBridge.Bridge.MaybeConsumeC2s` | src/application/services/GameGuardBridge.cpp:178-292 | one client packet: late answers swallowed, expiry retried or given up, answers in time replied and consumed, all else left |
| `GameGuardBridge.Bridge.BindClientWire` | src/application/services/GameGuardBridge.cpp:63-72 | binding or unbinding changes nothing but the wire |
| `Relay.PendingMeansServed` | src/interface/query/QueryServer.cpp:189-290 | in every run of server and bridge together, a query is pending only while the connection it came from waits for the reply, and no reply is written while another operation is outstanding |
| `Relay.StuckForever` | src/interface/query/QueryServer.cpp:179-234 | once a frame has been served that nobody will answer, the endpoint never accepts, reads or writes again |
| `Relay.StuckIffNeverAcceptsAgain` | src/interface/query/QueryServer.cpp:179-247 | the endpoint is stuck if and only if no continuation of the run accepts a connection again |
| `Relay.FrameOutcome` | src/interface/query/QueryServer.cpp:194-233 | a served frame leaves the endpoint stuck if and only if it does not decode or is not a query, or the bridge has no wire or cannot send |
| `Relay.StuckIffSomeEventSticks` | src/interface/query/QueryServer.cpp:189-233 | a run from a system that is not stuck, like the initial one, ends stuck if and only if some frame in it was left unanswered or some late packet made the bridge drop the query |
| `Relay.StuckReached` | src/interface/query/QueryServer.cpp:227-232 | a run from the start in which a six-byte frame that does not decode leaves the endpoint stuck |
| `Relay.PacketOutcome` | src/application/services/GameGuardBridge.cpp:190-289 | a packet leads on to the next connection exactly if it answers in time, and leaves the endpoint stuck exactly if it is late and is not resent |
| `Relay.RepliesAreGenuine` | src/interface/query/QueryServer.cpp:251-274 | every frame written in a run was written when a packet of that run answered the pending query in time, and decodes to a Poseidon reply with that packet cut to its length |
| `Relay.QueryAnswered` | src/interface/query/QueryServer.cpp:128-291 | a whole exchange: a query frame goes to the bound client as a challenge, the answer in time goes back as the one frame written, and the next connection is accepted |
| `Relay.RelayServer.OnRest` | src/interface/query/QueryServer.cpp:196-224 | the packet of a query frame becomes the bridge's query |
| `Relay.RelayServer.OnClientPacket` | src/application/services/GameGuardBridge.cpp:246-289 | an answer in time is written on the connection that asked |
| `QueryStream.ChunkIndependence` | src/interface/query/QueryHandler.cpp:46-90 | however a stream is cut, the frames before the first bad header are those of the one-shot parser; unless something follows a bad header all frames and the remaining buffer agree |
| `QueryStream.CutsDoNotMatterIff` | src/interface/query/QueryHandler.cpp:46-90 | within the buffer limit, all cuts of the bytes give the frames and the buffer of the one-shot parser if and only if there is no bad header or it is the last four bytes |
| `QueryStream.ExtractAppend` | src/interface/query/QueryHandler.cpp:62-89 | extraction goes on where it stopped when more bytes arrive |
| `QueryStream.ExtractIffTiled` | src/interface/query/QueryHandler.cpp:62-89 | the extraction is the only split of the buffer into whole frames and an incomplete rest |
| `QueryStream.BufferBound` | src/interface/query/QueryHandler.cpp:52-89 | after every arrival the buffer holds at most 65534 bytes |
| `QueryStream.OverflowIff` | src/interface/query/QueryHandler.cpp:52-58 | no run of reads of up to 8192 bytes overflows if and only if the limit is at least 73726 |
| `QueryStream.BytesConserved` | src/interface/query/QueryHandler.cpp:60-89 | unless something was dropped, the bytes received are the frames handed on and the buffer |
| `QueryStream.BlobRoundTrip` | src/interface/query/QueryProtocol.hpp:83-117 | decode_blob after encode_blob is the blob, below 2^16 bytes |
| `QueryStream.BlobFrameRoundTrip` | src/interface/query/QueryProtocol.hpp:61-117 | the first frame of a stream that starts with a framed blob gives back id and blob if and only if the blob has at most 65529 bytes |
| `QueryHandler.QueriesDelivered` | src/interface/query/QueryHandler.cpp:46-137 | a stream of queries reaches the active client blob by blob, in order, however it is cut |
| `QueryHandler.RunConsistent` | src/interface/query/QueryHandler.cpp:97-137 | in every run, each reply goes to the peer of the latest query, which had none yet, and the registry's waiter stands for the open query |
| `QueryHandler.RepliesCarryPackets` | src/interface/query/QueryHandler.cpp:126-132 | every reply in a run frames a client packet of that run and was sent when it came in, to the peer whose query was open then |
| `QueryHandler.AnswerIsReadOff` | src/interface/query/QueryHandler.cpp:126-132 | the peer reads exactly that packet off the reply, whatever follows, if and only if it has at most 65529 bytes |
| `QueryHandler.OpenQueryIsAnswered` | src/interface/query/QueryHandler.cpp:126-132 | in every run, while a query is open the next client packet of up to 65529 bytes sends exactly one frame, byte by byte a reply with that packet to the peer that asked, and closes the query; while none is open it sends nothing |
| `QueryHandler.FrameOutcome` | src/interface/query/QueryHandler.cpp:97-143 | a frame opens a query and sends its blob to the client if and only if its id bytes are 1 and 0, its blob fits in it and the active client is there; otherwise nothing happens |
| `QueryHandler.OverflowCloses` | src/interface/query/QueryHandler.cpp:52-58 | bytes that would overflow clear the buffer and close the connection, and nothing else does |
| `QueryHandler.WhoIsThere` | src/interface/query/QueryHandler.cpp:21-36 | in every run the active client is the last one set, and exactly the connected peers have a buffer |
| `QueryHandler.QueriesConserved` | src/interface/query/QueryHandler.cpp:97-137 | forwarded queries = replies + superseded queries + 1 if one still waits |
| `QueryHandler.Handler.OnData` | src/interface/query/QueryHandler.cpp:46-90 | one arrival: overflow clears and closes; otherwise every extracted frame is handled in order and the rest kept |
| `QueryHandler.Handler.HandleFrame` | src/interface/query/QueryHandler.cpp:97-143 | a query with a well-formed blob and an active client registers the reply and forwards the blob; all else is ignored |
| `QueryHandler.Handler.OnClientBytes` | src/interface/query/QueryHandler.cpp:126-132 | the callback frames what the client sent for the peer that asked |
| `QueryHandler.Handler.OnConnect` | src/interface/query/QueryHandler.cpp:21-25 | a known session keeps its buffer |
| `QueryHandler.Handler.OnDisconnect` | src/interface/query/QueryHandler.cpp:31-36 | the session's buffer is forgotten |
| `SessionRegistry.FiresIffFirstMatch` | src/application/state/SessionRegistry.hpp:33-63 | a packet runs a callback exactly when the latest waiter matches it and has matched none since it was registered |
| `SessionRegistry.RunsAtMostOnce` | src/application/state/SessionRegistry.hpp:43-51 | a waiter that has run waits no more |
| `SessionRegistry.Registry.NotifyC2s` | src/application/state/SessionRegistry.hpp:33-52 | a match clears the waiter before the callback runs |
| `SessionRegistry.Registry.WaitNextC2s` | src/application/state/SessionRegistry.hpp:57-63 | a new waiter replaces the old one |
| `SessionRegistry.Registry.SetActiveClient` | src/application/state/SessionRegistry.hpp:20-24 | the active client is replaced, the waiter kept |
| `Fleet.EnoughTriples` | scripts/thanatos-orchestrator-cli/src/thanatos_orchestrator/application/services/orchestrator.py:270-276 | pigeonhole: with disjoint triples, fewer starts than there were free triples leave a triple outside everything reserved or taken |
| `Fleet.PlacingKeepsLiveDisjoint` | scripts/thanatos-orchestrator-cli/src/thanatos_orchestrator/application/services/orchestrator.py:117-141 | an instance on unreserved ports keeps live instances port-disjoint, whoever exits |
| `Fleet.StartsTouchOneEach` | scripts/thanatos-orchestrator-cli/src/thanatos_orchestrator/application/services/orchestrator.py:127-141 | k starts touch at most k more triples |
| `Fleet.FreeOrTouched` | scripts/thanatos-orchestrator-cli/src/thanatos_orchestrator/application/services/orchestrator.py:270-276 | free and touched triples are all triples |
| `Fleet.FirstFree` | scripts/thanatos-orchestrator-cli/src/thanatos_orchestrator/application/services/orchestrator.py:103-105 | the first empty slot of a row: all before it are taken |
| `Fleet.FirstBlock` | scripts/thanatos-orchestrator-cli/src/thanatos_orchestrator/application/services/orchestrator.py:88-92 | the first block with an empty slot: all before it are full |
| `Orchestrator.AllocationIsFirstFit` | scripts/thanatos-orchestrator-cli/src/thanatos_orchestrator/application/services/orchestrator.py:98-115 | place by place: the first empty place of the table or of a new row; in a preferred block its first empty place, or the error if and only if it is full or negative |
| `Batches.GrownByBatch` | scripts/thanatos-orchestrator-cli/src/thanatos_orchestrator/application/services/orchestrator.py:226-268 | filling one block after the other puts exactly the instances of all of them into places that were vacant, first fit |
| `Batches.FullRowsOfBatch` | scripts/thanatos-orchestrator-cli/src/thanatos_orchestrator/application/services/orchestrator.py:226-241 | filling a block makes at most that one block full |
| `Orchestrator.ThanatosOrchestrator.StartNBlocks` | scripts/thanatos-orchestrator-cli/src/thanatos_orchestrator/application/services/orchestrator.py:251-268 | the table grows by exactly the instances started, on new processes and in vacant places, first fit; unless the triples run out, n blocks become full or one more would need more triples than were free; with disjoint triples and no foreign listener they never run out, whatever exits, counting from the ports in use at the call; if they do, every triple was blocked, and the list returned omits the instances of the block that failed |
| `Orchestrator.ThanatosOrchestrator.StartBlock` | scripts/thanatos-orchestrator-cli/src/thanatos_orchestrator/application/services/orchestrator.py:226-241 | fills the first block with room or raises; only empty slots of it are written, on pairwise disjoint triples |
| `Orchestrator.ThanatosOrchestrator.FillBlock` | scripts/thanatos-orchestrator-cli/src/thanatos_orchestrator/application/services/orchestrator.py:232-241 | the loop ends with the block full or the triples exhausted |
| `Orchestrator.ThanatosOrchestrator.StartServer` | scripts/thanatos-orchestrator-cli/src/thanatos_orchestrator/application/services/orchestrator.py:172-210 | one instance in the first-fit slot on the first triple that is available, outside all reserved ports; every invariant is kept |
| `Orchestrator.ThanatosOrchestrator.PickFirstAvailableTriple` | scripts/thanatos-orchestrator-cli/src/thanatos_orchestrator/application/services/orchestrator.py:127-141 | the first configured triple with no reserved port and none found listening, each of its ports asked for and found free; an error only if every triple is blocked; in a sealed environment an error means that every triple is touched |
| `Orchestrator.ThanatosOrchestrator.RecomputeReservedPorts` | scripts/thanatos-orchestrator-cli/src/thanatos_orchestrator/application/services/orchestrator.py:117-125 | the reserved ports are exactly those of instances whose process was seen running or whose three ports were all found listening, and include those of all instances still alive afterwards |
| `Orchestrator.ThanatosOrchestrator.InUse` | scripts/thanatos-orchestrator-cli/src/thanatos_orchestrator/application/services/orchestrator.py:123-124 | an instance counts as in use if its process is seen running or all its ports listening, and as idle only if it is seen to have exited and some port free |
| `Orchestrator.ThanatosOrchestrator.AllocateSlot` | scripts/thanatos-orchestrator-cli/src/thanatos_orchestrator/application/services/orchestrator.py:98-115 | the slot and the added rows, or the error, of first fit |
| `Orchestrator.ThanatosOrchestrator.EnsureBlock` | scripts/thanatos-orchestrator-cli/src/thanatos_orchestrator/application/services/orchestrator.py:94-96 | empty rows are added up to the block |
| `Orchestrator.ThanatosOrchestrator.FindFirstBlockWithFreeSlot` | scripts/thanatos-orchestrator-cli/src/thanatos_orchestrator/application/services/orchestrator.py:88-92 | the first block with an empty slot, if any |
| `Orchestrator.ThanatosOrchestrator.CountPossibleBlocks` | scripts/thanatos-orchestrator-cli/src/thanatos_orchestrator/application/services/orchestrator.py:270-276 | n blocks need at most the free triples and n + 1 blocks need more, where the reserved ports are exactly those of instances seen in use and include those of all that live |
| `Orchestrator.ThanatosOrchestrator.StopServer` | scripts/thanatos-orchestrator-cli/src/thanatos_orchestrator/application/services/orchestrator.py:212-224 | exactly the process of the slot is terminated and the slot emptied, or one of three errors, each with its exact condition |
| `Orchestrator.ThanatosOrchestrator.StopBlock` | scripts/thanatos-orchestrator-cli/src/thanatos_orchestrator/application/services/orchestrator.py:243-249 | exactly the processes of the block are terminated, the block is emptied and nothing else changes |
| `Orchestrator.ThanatosOrchestrator.StopAll` | scripts/thanatos-orchestrator-cli/src/thanatos_orchestrator/application/services/orchestrator.py:278-331 | once: every process of the table that still lives has been told to terminate, and no others; the table is emptied if and only if there was one to terminate; no later call does anything |
| `Orchestrator.ThanatosOrchestrator.LetTimePass` | scripts/thanatos-orchestrator-cli/src/thanatos_orchestrator/application/services/orchestrator.py:117-125 | processes that exit between calls break no invariant |
| `TcpSession.FifoInEveryRun` | src/infrastructure/net/asio/AsioTcpServer.cpp:66-88 | in every interleaving the peer has a prefix of what was sent and the queue is the rest; the write in flight is of its head; an open session without a write error writes while it has something; at most 1000 are queued while open |
| `TcpSession.ReadsOn` | src/infrastructure/net/asio/AsioTcpServer.cpp:112-137 | in every run a session that is started, open and has not failed to read is reading, unless its handler is at work |
| `TcpSession.OpenUntil` | src/infrastructure/net/asio/AsioTcpServer.cpp:222-238 | in every run a session is open if and only if it was not closed and its queue did not overflow |
| `TcpSession.SentAndCompleted` | src/infrastructure/net/asio/AsioTcpServer.cpp:66-88 | in every run the packets sent are those of the send calls, in order, and each successful write completes one |
| `TcpSession.StepKeepsInv` | src/infrastructure/net/asio/AsioTcpServer.cpp:66-238 | every step keeps the queue invariant |
| `TcpSession.Drains` | src/infrastructure/net/asio/AsioTcpServer.cpp:160-175 | an open session drains its whole queue if writes complete |
| `TcpSession.StuckAfterWriteError` | src/infrastructure/net/asio/AsioTcpServer.cpp:167-171 | after a write error nothing is written any more, though the session stays open |
| `TcpSession.ToldOncePerReason` | src/infrastructure/net/asio/AsioTcpServer.cpp:178-238 | in every run the handler is told once for a failed read, once for a failed write and once for a queue that overflowed, for each that came up; so it is told at most once exactly if at most one of them came up |
| `TcpSession.DisconnectedThreeTimes` | src/infrastructure/net/asio/AsioTcpServer.cpp:178-238 | a run in which it is told three times: 1001 packets overflow the queue, which aborts the write and the read in flight |
| `TcpSession.Session.Send` | src/infrastructure/net/asio/AsioTcpServer.cpp:66-88 | one send: queued, and written if it is alone, or the session closed on overflow |
| `TcpSession.Session.OnWriteDone` | src/infrastructure/net/asio/AsioTcpServer.cpp:163-175 | one completion: the head is popped and the next write started, or the error reported |
| `TcpSession.Session.OnReadDone` | src/infrastructure/net/asio/AsioTcpServer.cpp:120-131 | one read: the error is reported, or the handler gets the data |
| `TcpSession.Session.OnHandled` | src/infrastructure/net/asio/AsioTcpServer.cpp:130-135 | only when the handler has returned, after whatever it sent, is the next read started, unless the session was closed |
| `TcpSession.Session.Close` | src/infrastructure/net/asio/AsioTcpServer.cpp:92-96 | closing reports nothing and is idempotent |
| `TcpSession.Session.DoClose` | src/infrastructure/net/asio/AsioTcpServer.cpp:224-238 | the first close reports its reason, later ones nothing |
| `TcpSession.Session.DoWrite` | src/infrastructure/net/asio/AsioTcpServer.cpp:141-176 | a write is started of the head of a non-empty queue on an open socket |
| `CharFlow.RunExplained` | src/interface/ragnarok/char/CharFlow.cpp:123-330 | in every run the three phase conditions agree and the output is a sequence of whole units in the order of the grammar |
| `CharFlow.RedirectThenEnter` | src/interface/ragnarok/char/CharFlow.cpp:222-330 | each redirect is followed at once by one burst for its account at (49,113,0), and there is no burst without one |
| `CharFlow.ResendsBounded` | src/interface/ragnarok/char/CharFlow.cpp:206-220 | lists are sent again at most once for each server selection |
| `CharFlow.EveryPacketAnswered` | src/interface/ragnarok/char/CharFlow.cpp:123-330 | in every run each packet is answered at once with exactly the packets that those sent before demand: the burst after a redirect, else the preamble, the list, the redirect pair or nothing, by opcode |
| `CharFlow.WireLaw` | src/interface/ragnarok/char/CharFlow.cpp:222-330 | on the packets of every run: the client is only ever put on the initial map at (49, 113); a redirect is a pair for one character, followed at once by the twelve packets for its account if by anything; no burst without one |
| `CharFlow.Flow.Handle` | src/interface/ragnarok/char/CharFlow.cpp:123-162 | one packet: the new state and the packets sent |
| `CharFlow.Flow.OnEnter` | src/interface/ragnarok/char/CharFlow.cpp:253-330 | the burst of twelve packets at the override, the client's or the default position |
| `CharFlow.Flow.OnCharSelected` | src/interface/ragnarok/char/CharFlow.cpp:222-251 | both redirects, the fixed spawn and the expectation of a map login |
| `CharFlow.Flow.OnCharListReq` | src/interface/ragnarok/char/CharFlow.cpp:206-220 | the list is sent again only if it is awaited |
| `CharFlow.Flow.OnServerSelected` | src/interface/ragnarok/char/CharFlow.cpp:184-204 | the account id is taken over and the list sent |
| `LoginFlow.InfosUseTokens` | src/interface/ragnarok/login/LoginFlow.cpp:118-152 | in every run of all flows, each server info uses up a token issued to the same flow since its last one |
| `LoginFlow.IdsRepeatIff` | src/interface/ragnarok/login/LoginFlow.cpp:32-32 | two logins of the process get the same account id exactly when a multiple of 2^32 logins lies between them |
| `LoginFlow.EveryPacketAnswered` | src/interface/ragnarok/login/LoginFlow.cpp:58-196 | in every run of all flows each packet is answered at once: key, token, or, if and only if the flow has an unused token, a server info with the next account id in little-endian bytes and the form that opcode and setting demand |
| `LoginFlow.Flow.Handle` | src/interface/ragnarok/login/LoginFlow.cpp:58-100 | one packet: the new state, the shared counter and the reply |
| `LoginFlow.Flow.OnMasterLogin` | src/interface/ragnarok/login/LoginFlow.cpp:141-196 | ignored unless awaited; otherwise fresh ids, one reply and the signal for the next connection |
| `LoginFlow.Shared.FetchAdd` | src/interface/ragnarok/login/LoginFlow.cpp:153-153 | the counter steps by one modulo 2^32 |

## Left out

- BusProtocol.Decode: the contents that the caller's message is left with when decoding throws; every caller discards it. Offsets are assumed to fit `size_t` on a 64-bit platform. The check for a truncated key length inside the loop can never fail and is not written out.
- BusProtocol.Encode: the loops over the map and over the array are methods of their own, and output is built as a sequence value rather than in one growing buffer.
- GameGuardBridge.Bridge.MaybeConsumeC2s: an exception thrown by the reply (only for replies over 0xFFFFFF bytes, more than a socket read holds) would leave the query pending; replies are taken to succeed here.
- QueryServer.Server.SendReply: a reply sent while a frame is being read or another reply is being written is written too, but what the completions of the overlapping operations then do is not modelled (`Overlapping`): each of them closes the socket that is current and accepts anew. In runs with the bridge it does not occur (`Relay.PendingMeansServed`).
- QueryServer.Server.OnAccept: binding, listening, stopping, and the socket objects behind accept and recycle.
- TcpSession.Session.DoWrite: the write timer; its expiry cancels the operations in flight, which then complete with errors.
- QueryHandler.Handler.HandleFrame: the early return for frames under four bytes, which the frame loop never produces; sends that call back into the handler synchronously.
- SessionRegistry.Registry.NotifyC2s: calls that overlap between the two locked sections; the server runs one event loop.
- Orchestrator.ThanatosOrchestrator.InUse: a process or port check that throws counts as not running there; here checks do not throw.
- Orchestrator.ThanatosOrchestrator.StartServer: writing configuration files, server names, start times, and exceptions of the file system or of starting a process. The clock is a bound on the number of polls.
- Orchestrator.ThanatosOrchestrator.StopAll: the order of signals and the waiting between them; a signal handler that interrupts another operation.
- Orchestrator.ThanatosOrchestrator.AllocateSlot: a block size of zero, on which counting blocks divides by zero.
- CharFlow.Flow.Handle: the byte layout of the packets; a packet stands for the fields its mapper serialises.
- LoginFlow.Flow.Handle: the byte layout of the packets, and the generation of tokens and session ids.
- The outgoing TCP client, whose overflow path drops the buffer that is being written, and the choice of a port set at start-up.
- Logging, banners, console output, hex dumps and hex parsing, configuration parsing and the command line: presentation and easy members.
- `get_counts` and `list_blocks` of the orchestrator: they only report.
