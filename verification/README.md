# Meshtastic-mini: a verified model of the mesh firmware

This project models the node firmware of Meshtastic-mini and proves what it does, from the header bytes up to whole
networks. `dafny verify dfyconfig.toml` verifies it.

The code side follows the firmware's own form: arrays rewritten in place, classes for the static state of each
source file, loops with invariants. Each such method is tied to a function on values, and the theorems are about
those functions.

| file | what it models |
|---|---|
| `Bytes.dfy` | machine integers, exclusive or, byte orders |
| `MeshPacket.dfy` | the 16-byte header |
| `FloodRouter.dfy` | dedup ring, relay gate, header rewrite (`Router`, `RewriteForRelay`) |
| `AesMeshtastic.dfy` | the CTR loop over the AES peripheral, which is an arbitrary function of key and input words |
| `PbData.dfy` | encoder and decoder of the protobuf Data message |
| `SerialIo.dfy` | the UART ring (`SerialPort`) and its accesses interleaved with interrupts |
| `LineInput.dfy` | assembling lines and telling commands from texts |
| `SerialFraming.dfy` | the framed serial link (`Receiver`) |
| `MeshNode.dfy` | one node: sending, receiving, the main loop (`Node`) |
| `Requests.dfy` | from bytes on the serial line to packets on the air |
| `Delivery.dfy`, `CutShort.dfy` | what a packet says after any relays, and when block operations fail |
| `Relaying.dfy`, `Reach.dfy` | who relays a packet, how far a text can get, and how far it gets for certain |
| `Reception.dfy` | what one reception does, in the bytes of the packet |
| `Network.dfy` | a lossy broadcast network and its quiescence |
| `Integrity.dfy` | what can appear on consoles, and how far from where it was typed |
| `FloodCost.dfy`, `Echoes.dfy` | transmissions per packet; receptions per packet and node |
| `Keystream.dfy` | counter blocks used for sending, at one node and on a channel |
| `RadioFreq.dfy` | the frequency register |

## Conventions

- A node is a `Trace`: its state (id, next packet id, ring, halted flag) and its history (keys registered with
  `flood_seen`, packets handed to the radio, lines printed). A packet passed to `lora_tx` counts as transmitted
  whatever the radio reports.
- A network holds traces and pending copies. One event is a line completed at a node, or one pending copy received.
  Every transmission reaches an arbitrary subset of the other nodes, given by a mask; the rest lose it.
- The environment's answers are parameters. `blocks` is the number of block cipher calls that succeed before the
  first one that fails, which fixes the outcome of a CTR pass, since it stops at the first failure. Peripheral
  initialisation counts as part of the first call.
- Masks, shifts and exclusive or are written as arithmetic; `Bytes.MasksAreArithmetic`, `Bytes.OrIsAddition`,
  `Bytes.XorOnBits` and `MeshPacket.HopLimitIsMask` state the agreement on bit vectors.
- Layouts, constants and tables of cases are stated once more as bytes and numbers (`MeshPacket.HeaderOnWire`,
  `Delivery.PacketInClear`, `Reception.HearingIs`, `MeshNode.LineIsObeyed`, `PbData.SkipTable` and others), so that no
  theorem rests on a definition alone.
- The decoder is total: `Done`, `Hangs` (the loop never ends) or `Undefined` (a varint of six or more bytes, whose
  32-bit shift has no meaning in C). A node whose decoder hangs is halted: it does nothing more. What compiled code
  makes of an undefined decoding is one more answer of the environment (`HearEnv.undefined`): any text, none, or a hang.

## Where the code and its documentation disagree

The model follows the code.

- `firmware/Mesh/flood_router.h:19` says the gate registers the packet and lowers its hop limit. It does neither;
  the main loop does.
- `docs/SERIAL_API.md` and `firmware/Serial/serial_framing.h:2` describe frames starting 0x94 0xC3. The receiver reads
  the second start byte as a length, so no stream of packets from this firmware's own sender is received as sent,
  and no packet heard on its own from SYNC is (`SerialFraming.SenderIsNeverUnderstood`, `LonePacketIsLost`). A single
  body can still get through when the packet before it leaves the receiver out of step (`BodyOutOfStep`).
- `README.md` of the firmware says any text that is not a reserved word is sent. Lines of two or more characters
  starting with N or n are not, nor are lines over 127 bytes (`MeshNode.LineIsSentIff`).
- `firmware/Crypto/aes_meshtastic.h:4` gives the block counter four bytes. It is one byte and wraps after 256 blocks; up to
  4096 bytes, and no further, that makes no difference (`AesMeshtastic.CounterSuffices`).

## Model

| member | source | states |
|---|---|---|
| Reception.HearingIs | firmware/Core/main_loop.c:192-236 | Every reception by a running node, in the bytes of the packet: up to 16 bytes nothing happens; a packet that is neither for everybody nor for this node, or holds no text, is registered and relayed and does no more; a text for this node is shown whatever its portnum and answered unless it is "pong"; the relay depends on the low half of byte 12 and on bytes 4 to 11 not being in the ring; only a decoder that does not come back stops the node |
| Reception.OthersAreLeftAlone | firmware/Core/main_loop.c:200 | A text sent to another node is neither shown nor answered, after any relays and under any cipher |
| Reception.OnlyTheAddresseeActs | firmware/Core/main_loop.c:200-229 | In any run of a network: if a reception makes a node print, use up a packet id or stop, that node received it and bytes 0 to 3 were all FF or its id |
| Reception.EmptyTextIsRelayed | firmware/Core/main_loop.c:212-235 | A packet with an empty text is neither shown nor answered, and relayed like any other |
| Network.Quiescence | firmware/Core/main_loop.c:188-236 | From any node states and any finite set of pending packets, with any loss, any interleaving, any block cipher failures and any outcome of undefined decodings: the receptions of a run, and the weight still on the air, are bounded by the weight of the pending packets plus one fixed price for each event that sends a typed text or in which a block operation that was asked for fails |
| Network.QuiescenceWithCipher | firmware/Core/main_loop.c:188-236 | With a cipher that answers whenever asked, only typed lines cost: if nobody types, the network falls silent within a number of receptions computed from the packets under way |
| Network.HearWeight | firmware/Core/main_loop.c:200-235 | One reception and all that it makes the node transmit to m others never cost more than the packet received was worth, unless a block operation fails in it, which adds at most the price of one text that everybody answers: relays lose a hop, and only texts other than "pong" breed one pong, which breeds nothing |
| Network.PongWeight | firmware/Core/main_loop.c:224-228 | A pong whose one block was encrypted decodes as "pong" at every node with the key, so it is answered nowhere |
| Network.HearTransmits | firmware/Core/main_loop.c:196-235 | All a reception puts on the air is at most one pong to the sender, followed by at most one relay |
| Integrity.ConsoleLocality | firmware/Core/main_loop.c:188-236 | From silence, for any relation of who is in range of whom, in every run in which the block operations asked for succeed: no decoder fails to return, and every text shown on a console was typed during the run, at a running node, at most four links away, or is "pong" |
| Integrity.ConsoleIntegrity | firmware/Core/main_loop.c:188-236 | Under the same condition on the cipher and with no range given: every text shown on any console was typed at some node during the run or is "pong" |
| FloodCost.LinearFloodCost | firmware/Core/main_loop.c:132-133 | With distinct fixed ids and at most 32 registrations per node in the run, each node transmits a given (from, packet id) at most once, never relays its own packets, and N nodes transmit it at most N times |
| FloodCost.HearKeepsInv | firmware/Core/main_loop.c:196-235 | A reception keeps the node's bookkeeping: the ring is a window on its log, ids are issued in order, and nothing it registered goes out twice |
| Echoes.HearingsArePaid | firmware/Core/main_loop.c:196-235 | In every run of every network: the times a node hears a packet, and its copies still coming, are no more than the copies there were at first and the times other nodes have transmitted it since |
| Echoes.EchoesAtMost | firmware/Core/main_loop.c:196-235 | Reception is not deduplicated: under the conditions of FloodCost.LinearFloodCost, each of N nodes hears a given packet of the network, and prints a text for it, at most N - 1 times, its sender included |
| Echoes.OriginHearsItself | firmware/Core/main_loop.c:196-235 | With two nodes that bound is reached at the sender, which shows its own text when the other relays it |
| CutShort.ArrivesIff | firmware/Crypto/aes_meshtastic.c:79-97 | Exactly when a text survives failing block operations: a text of 1 to 127 bytes is read as it was sent under every cipher and key, after any relays, if and only if decryption stops after the same block of it as encryption did |
| CutShort.UnlikeIsMisread | firmware/Crypto/aes_meshtastic.c:79-97 | If they do not stop alike, here is the cipher and the other text that the packet decodes to, for every text, every two stops and every chain of relays |
| CutShort.MisreadIsShown | firmware/Core/main_loop.c:204-224 | And every running node that such a packet is addressed to shows that other text |
| CutShort.FailedEncryptionIsMisread | firmware/Core/main_loop.c:129-130 | An instance: the sender's first block operation fails, its "a" goes out in the clear, and a receiver whose cipher works shows a grave accent |
| Delivery.MultiHopDelivery | firmware/Core/main_loop.c:108-134 | Any text of 1 to 127 bytes is decoded with portnum 1, byte for byte, and shown by every addressed node with the key after any chain of relays, wherever encryption and decryption stop alike, early stops included; it is answered by a pong to its sender unless it is "pong" |
| Delivery.RelayedContent | firmware/Mesh/flood_router.c:39-48 | Nothing that decoding, addressing or deduplication looks at is changed by any chain of relays |
| Relaying.FloodReach | firmware/Core/main_loop.c:119-134 | Along any path of nodes that have not seen it, each hearing what the one before transmitted: exactly the first three put the text on the air again, unchanged but for hop count and relay byte, and the addressed ones among the first four show it |
| Relaying.SomeRunReaches | firmware/Core/main_loop.c:188-236 | In any network and along any path of up to four distinct running nodes that have not seen the packet, each in range of the one before it only, there is a run of the network, one line typed and one reception per node, in which every node of the path shows the text; by Integrity.ConsoleLocality no run takes it further than four links |
| Reach.NeighboursShow | firmware/Core/main_loop.c:188-236 | What is certain is one link: in every run without block cipher failures that leaves nothing on its way, a typed text is shown by every other node in range that its first transmission was not lost to |
| Reach.TwoLinksAreNotCertain | firmware/Core/main_loop.c:197-235 | Two links are not: there is a network, and a run of it without loss or failure that leaves nothing on its way, in which a node two links away never hears of the text, since the node between them heard it first by a longer way, with no hops left |
| Relaying.RelayDecision | firmware/Core/main_loop.c:197-235 | At any point of a node's life since boot, a packet heard is relayed if and only if it is longer than 16 bytes, the low four bits of byte 12 are not all zero, its sender and packet id (bytes 4 to 11) are not among the last 32 registered keys (nor both zero while fewer than 32 are), and its decoding ends |
| Relaying.RelaysPerRegistrations | firmware/Core/main_loop.c:197-235 | Over a node's whole life, with any id changes and any number of packets, it relays a given (from, packet id) at most once per 33 registrations, rounded up |
| Relaying.HearRelays | firmware/Core/main_loop.c:232-235 | The only relay is of the packet just heard, with its header rewritten, and it goes out after any pong |
| Keystream.SharedIff | firmware/Core/main_loop.c:110-130 | For any two lives under one key, of one node or of two, id changes and any number of packets included: two block cipher inputs used for sending are equal if and only if they are the same block of packets sent under the same node id and the same 32-bit packet id; and each packet is the text that was to be sent, combined with the peripheral's answers to its input blocks |
| Keystream.SharedOnChannelIff | firmware/Core/main_loop.c:110-130 | In any run of any network in which nobody changes ids, equal ids allowed: two input blocks are equal if and only if node ids, packet ids and block numbers agree |
| Keystream.BootedShareIff | firmware/Core/main_loop.c:110-130 | In a network just booted in which nobody changes ids, two nodes share an input block in a run if and only if they have the same id and both have sent something |
| Keystream.NoKeystreamReuse | firmware/Core/main_loop.c:110-130 | Over the first 2^32 packets a node sends, whatever lines, id changes and receptions come between: each is the text of its sending, combined with the peripheral's answers to the packet's input blocks, and two input blocks are equal if and only if they are the same block of the same packet (appendix B of NIST SP 800-38A asks for this) |
| Keystream.NoKeystreamReuseOnChannel | firmware/Core/main_loop.c:110-130 | The same across all nodes of a network that share the key, in any run, for ids that are distinct and not changed and the first 2^32 packets of each node |
| Keystream.SentUnderInputBlocks | firmware/Core/main_loop.c:110-130 | Byte i of a sent payload is byte i of the encoded text combined with byte i mod 16 of the peripheral's answer to input block i/16, as read off the packet's own header, up to the first failing block |
| Keystream.RenamingRepeats | firmware/Core/main_loop.c:143-150 | An example with id changes: N1 typed at two booted nodes makes their first texts share every input block |
| Keystream.RebootRepeats | firmware/Core/main_loop.c:118 | An example with two lives of one node: the first texts sent before and after a reboot share every input block |
| Keystream.LifeIsNumbered | firmware/Core/main_loop.c:108-134 | The packets a node has sent itself are, one for one, those of the texts its life made it send, under consecutive 32-bit ids from the one it started with |
| AesMeshtastic.NonceIsInjective | firmware/Crypto/aes_meshtastic.c:84-92 | The counter block determines packet id, sender and block number |
| AesMeshtastic.NonceLayout | firmware/Crypto/aes_meshtastic.c:83-86 | The 16 bytes of the counter block: packet id, zeros, sender, zeros, counter, numbers low byte first |
| AesMeshtastic.BlocksAreWords | firmware/Crypto/aes_meshtastic.c:54-77 | The peripheral is given the key as its key and the block as its input, each word high byte first, and its words become the keystream in the same order |
| AesMeshtastic.SecondLapUndoes | firmware/Crypto/aes_meshtastic.c:90-97 | What the endless loop of a payload over 65520 bytes does: block for block, its second lap over the buffer undoes the first, so that after every 8192 iterations the payload is in the clear |
| Bytes.XorOnBits | firmware/Crypto/aes_meshtastic.c:97 | Bytes are combined by the machine's exclusive or |
| Bytes.XorBitwise | firmware/Crypto/aes_meshtastic.c:97 | Each of the eight bits of the result is the sum modulo 2 of the two bits in its place |
| AesMeshtastic.CounterSuffices | firmware/Crypto/aes_meshtastic.c:84-97 | The blocks of one payload are encrypted under pairwise different inputs if and only if it has at most 4096 bytes |
| AesMeshtastic.CtrTwice | firmware/Crypto/aes_meshtastic.c:79-97 | Two passes with the same number of successful blocks restore the buffer, for any length (section 6.5 of NIST SP 800-38A) |
| AesMeshtastic.CtrCrypt | firmware/Crypto/aes_meshtastic.c:79-97 | In place, for every 16-bit length: the loop makes the iterations CtrLoopEnds counts, at a 16-bit offset that wraps; up to 65520 bytes, byte i is combined with keystream byte i mod 16 of block (i/16) mod 256 up to the first failing block; everything outside the payload is untouched |
| AesMeshtastic.CtrLoopEnds | firmware/Crypto/aes_meshtastic.c:90 | The number of iterations CtrCrypt makes: of itself the loop ends if and only if the length is at most 65520, after at most 4095 of them; for longer payloads the 16-bit offset wraps and only a failing block operation ends it |
| Bytes.WordsAreShifts | firmware/Crypto/aes_meshtastic.c:54-67 | Words are assembled from bytes by the shifts of the code, in either byte order |
| AesMeshtastic.WordsRoundTrip | firmware/Crypto/aes_meshtastic.c:54-67 | The big-endian word conversions around the peripheral are inverse to each other, both ways |
| PbData.DecodeMessage | firmware/Core/main_loop.c:55-104 | On every message of well-formed fields 1 to 15, unknown ones included, in any order, the loop returns the low eight bits of the last portnum and the last payload ("Message Structure" and "Last One Wins" of the Protocol Buffers Encoding guide) |
| PbData.DecodesLastVisited | firmware/Core/main_loop.c:63-104 | For every buffer, malformed or not: if the decoder returns, the payload is that of the last visited tag 0x12 whose declared length fits in what is left, and there is none if none fits; the portnum is the low byte of the last visited varint with tag 0x08, and 0 if there is none |
| PbData.SkipTable | firmware/Core/main_loop.c:63-102 | For every buffer and tag: where the loop goes next, by wire type, in 16 bits; it ends at wire types 3, 4, 6 and 7 |
| PbData.VarintAt | firmware/Core/main_loop.c:84-89 | The varint loop on every buffer, varints cut short by its end included |
| PbData.TruncatedIsRefused | firmware/Core/main_loop.c:90-93 | A payload field of which only a part is in the buffer gives no payload |
| PbData.HangsIffRevisits | firmware/Core/main_loop.c:63-103 | For every buffer: the decoder fails to return if and only if it comes back to a tag position within as many passes as there are bytes; otherwise further passes change nothing |
| PbData.HangExample | firmware/Core/main_loop.c:94 | Four bytes whose field length takes the 16-bit position back to 0 for ever |
| PbData.DecodeIsSafe | firmware/Core/main_loop.c:63-103 | For every buffer: a payload that is returned lies inside it; the decoder does something undefined if and only if it comes to a tag whose varint has six or more bytes; if it does not, and comes to no tag whose skip passes 16 bits, it returns |
| PbData.PassedOverExample | firmware/Core/main_loop.c:94 | Bytes never taken for tags do not matter: a four-byte text that would wrap if read as a tag is decoded |
| PbData.ReadVarintValue | firmware/Core/main_loop.c:84-89 | The varint loop reads the base-128 value of every varint of up to five bytes, minimal or not, modulo 2^32 |
| PbData.EncodeThenDecode | firmware/Core/main_loop.c:38-51 | Decoding the encoder's bytes returns exactly the portnum and the payload, the empty one included |
| PbData.RoundTripIffOneByte | firmware/Core/main_loop.c:46 | That round trip holds for all payloads if and only if the portnum is below 128 |
| PbData.EncodeData | firmware/Core/main_loop.c:38-51 | Returns 0 exactly when the payload is over 127 bytes or does not fit, and then writes nothing; else writes the encoding and nothing else |
| PbData.DecodeData | firmware/Core/main_loop.c:55-104 | The nested loops end on every buffer the decoder returns on, with all reads inside it, and give the decoded portnum and payload |
| FloodRouter.RingRefinesLog | firmware/Mesh/flood_router.c:11-27 | After any insertions since boot a key tests as seen if and only if it is among the last 32, or is the zero key with fewer than 32 made |
| FloodRouter.RelaysAreSeparated | firmware/Mesh/flood_router.c:15-27 | A key that tests as new was last inserted at least 32 insertions before the latest one |
| FloodRouter.ForgottenAfter32 | firmware/Mesh/flood_router.c:9-19 | The window is exactly 32: a key is remembered through 31 later insertions and forgotten at the 32nd |
| FloodRouter.RelayChain | firmware/Mesh/flood_router.c:29-48 | A chain of n relays passes the hop test if and only if n is at most the initial hop limit, the low four bits of byte 12; each lowers it by one and leaves the high flag nibble and every byte but 12 and 15 alone |
| FloodRouter.GateOnWire | firmware/Mesh/flood_router.c:29-37 | The gate in the bytes of the packet: hops left in the low half of byte 12, and the key in bytes 4 to 11 not in the ring |
| FloodRouter.RelayRewrite | firmware/Mesh/flood_router.c:39-48 | One relay: which bytes change and which do not |
| FloodRouter.Router.IsSeen | firmware/Mesh/flood_router.c:21-27 | The scan finds a key exactly when it is in the ring |
| FloodRouter.Router.Seen | firmware/Mesh/flood_router.c:15-19 | The new ring state after an insertion |
| FloodRouter.Router.Gate | firmware/Mesh/flood_router.c:29-37 | Decides the relay question, on byte 12 and the key, and changes nothing |
| FloodRouter.RewriteForRelay | firmware/Mesh/flood_router.c:39-48 | Rewrites the packet in place as the relay chain theorem describes, and nothing beyond its length |
| MeshPacket.HeaderOnWire | firmware/Mesh/mesh_packet.c:3-12 | Which of the 16 bytes holds which field, numbers low byte first |
| MeshPacket.HopLimitIsMask | firmware/Mesh/mesh_packet.h:34-37 | The hop limit is the flags masked with 0x0F |
| Delivery.PacketInClear | firmware/Core/main_loop.c:108-127 | Every byte of a packet before encryption: destination, sender, packet id, hop limit 3, zeros, the Data message, the text |
| MeshPacket.ParseAfterBuild | firmware/Mesh/mesh_packet.c:3-20 | Every header is recovered from its bytes |
| MeshPacket.BuildAfterParse | firmware/Mesh/mesh_packet.c:3-20 | Every 16 bytes are recovered from the header they parse to |
| MeshPacket.HeaderFromBuf | firmware/Mesh/mesh_packet.c:3-12 | The header read is the one whose bytes stand in the buffer |
| MeshPacket.HeaderToBuf | firmware/Mesh/mesh_packet.c:14-20 | Parsing the buffer gives the header back, and nothing beyond byte 15 is touched |
| SerialIo.InterruptSafeFifo | firmware/Core/serial_io.c:18-32 | For every interleaving of interrupts with the six shared accesses of the reader, whichever of the two indices each comparison reads first: bytes delivered are a prefix of bytes accepted, at most 255 wait, and the next byte is dropped if and only if exactly 255 do |
| SerialIo.ReaderIsNotDisturbed | firmware/Core/serial_io.c:28-31 | A reader that found the ring non-empty delivers the byte that was oldest then, however many interrupts come in between |
| SerialIo.WholeGetDelivers | firmware/Core/serial_io.c:26-32 | Run without interrupts, in either order of reading, the accesses take exactly the oldest byte, or nothing from an empty ring |
| SerialIo.SerialPort.PushByte | firmware/Core/serial_io.c:18-24 | The waiting bytes gain the new one at the end, unless 255 wait already |
| SerialIo.SerialPort.GetByte | firmware/Core/serial_io.c:26-32 | Takes the first waiting byte if there is one, and agrees with the accesses of the interleaved model |
| LineInput.AssemblerSplitsStream | firmware/Core/main_loop.c:136-186 | Over every byte stream, the lines handled are its non-empty pieces ended by CR or LF, cut to 199 bytes, in order |
| LineInput.LinesAreHandled | firmware/Core/main_loop.c:136-184 | Non-empty lines of any bytes but 0D and 0A, each ended by one or more of these, are handled one for one and in order, cut to 199 bytes |
| LineInput.PollsCompose | firmware/Core/main_loop.c:136-138 | However the stream is cut into polls, the same lines are handled |
| LineInput.LinesOfAcceptedBytes | firmware/Core/main_loop.c:136-186 | Under any interleaving of interrupts, the lines handled so far are the first lines of the accepted bytes, and all of them once the ring is empty |
| Requests.LinesBecomePackets | firmware/Core/main_loop.c:136-186 | For every list of lines: the new packets number exactly the sendable lines, none that went before is touched, and if the cipher answers, the i-th is a broadcast of the node's own that decodes to the i-th sendable line |
| Requests.LifeSendsRequested | firmware/Core/main_loop.c:108-236 | Over any life of a node, whatever it hears in between: the packets it sends itself are, one for one and in order, a broadcast for each sendable line and pongs in between, and each decodes to its text if enough block operations succeeded |
| Requests.LoopIsLife | firmware/Core/main_loop.c:188-236 | Turns of the main loop, each handling the lines polled and then what the radio received, are such a life, and its lines are those polled |
| Requests.AcceptedBytesBecomePackets | firmware/Core/serial_io.c:18-32 | From bytes to packets, under any interleaving of interrupts with the loop and any receptions between the lines: the texts sent for lines are, in order, the first that the accepted bytes ask for, and all of them once the ring is empty; all else sent are pongs |
| Requests.PollsJoin | firmware/Core/main_loop.c:136-186 | Two polls in a row do what one poll over the lines of both does |
| Requests.PollsResume | firmware/Core/main_loop.c:136-186 | A poll goes on where the one before stopped, unfinished line included, as if there had been one |
| MeshNode.LineIsObeyed | firmware/Core/main_loop.c:143-180 | What every line does, byte for byte: N1 to N9 in either case set the id to the digit, other lines with N or n first do nothing, "help" and "info" print, a text over 127 bytes prints that sending failed, any other is broadcast and the radio's answer printed |
| MeshNode.IdIsLastSet | firmware/Core/main_loop.c:143-146 | Over a node's life its id is the digit of the last line N1 to N9, and the one it started with if there is none |
| MeshNode.LineIsSentIff | firmware/Core/main_loop.c:143-180 | A line makes the node transmit if and only if it is neither help nor info, does not start with N or n and another character, and has at most 127 bytes; then one broadcast packet with that text |
| MeshNode.TakeNext | firmware/Core/main_loop.c:138-184 | Polling one byte more handles exactly the line it completes, in its own environment |
| MeshNode.Node.UartRxLinePoll | firmware/Core/main_loop.c:136-186 | Leaves the ring empty, having handled the lines of all the bytes that waited, in order |
| MeshNode.Node.SendLoraPacket | firmware/Core/main_loop.c:108-134 | In the transmit buffer: the new state, the packet handed to the radio, and success exactly for texts that fit and a radio that agrees |
| MeshNode.Node.HandlePacket | firmware/Core/main_loop.c:192-235 | The reception theorems' step, on the receive buffer, even when a pong is sent between hearing and relaying |
| MeshNode.Node.MeshMiniLoop | firmware/Core/main_loop.c:188-236 | One turn of the loop is the handling of the waiting lines followed by the handling of the received packet |
| MeshNode.Node.constructor | firmware/Core/main_loop.c:238-245 | A booted node has an empty history, a zeroed ring and packet id 0 |
| SerialFraming.ReceiverParsesFrames | firmware/Serial/serial_framing.c:26-52 | On every byte stream the callbacks are exactly the bodies a recursive parser finds: 0x94, length, body, with lengths over 512 thrown away and hunting resumed |
| SerialFraming.FramesRoundTrip | firmware/Serial/serial_framing.c:28-50 | Frames of that grammar with bodies of 1 to 512 arbitrary bytes deliver exactly those bodies and end in SYNC |
| SerialFraming.RoundTripIffNonEmpty | firmware/Serial/serial_framing.c:42-48 | A list of frames is delivered as it was made if and only if no body is empty, since an empty body still swallows a byte |
| SerialFraming.PacketBytes | firmware/Serial/serial_framing.c:19-24 | The bytes of a packet sent, and that bodies over 512 bytes are not sent |
| SerialFraming.HeaderDecides | firmware/Serial/serial_framing.c:28-41 | From SYNC, over all bytes: only 0x94 starts a header, two length bytes follow, high byte first, and lengths over 512 lead back to SYNC |
| SerialFraming.SenderIsNeverUnderstood | firmware/Serial/serial_framing.c:19-52 | The send and receive round trip, for every list of bodies: what the receiver delivers for the sender's packets is the list sent if and only if the list is empty; the first three bytes of each packet heard in SYNC lead back there with no callback |
| SerialFraming.LonePacketIsLost | firmware/Serial/serial_framing.c:19-52 | A packet heard on its own from SYNC never delivers its body, whatever the body |
| SerialFraming.BodyOutOfStep | firmware/Serial/serial_framing.c:19-52 | A single body can get through: after the packet of the bytes 94 00, a certain body of 148 bytes arrives as sent |
| SerialFraming.Receiver.RxByte | firmware/Serial/serial_framing.c:26-52 | One byte: the new receiver state, the callback made, the return value, with the body index inside the buffer |
| RadioFreq.FrequencyIsRecovered | firmware/Radio/radio_stm32wl.c:288-292 | The four command bytes give back the frequency if and only if it is below 4,096,000,000 Hz |
| RadioFreq.RegisterIsMonotone | firmware/Radio/radio_stm32wl.c:54-56 | Below that bound a higher frequency gives a strictly higher register value |
| RadioFreq.FreqCommand | firmware/Radio/radio_stm32wl.c:288-292 | The command bytes are the register value, most significant first |
| RadioFreq.EuropeanBand | firmware/Radio/radio_stm32wl.c:54-56 | 868 MHz is sent as the bytes 36 40 00 00 |

## Left out

- Integrity.ConsoleIntegrity: assumes that every block operation asked for in the run succeeds, and so does Integrity.ConsoleLocality. That is sufficient, not necessary: CutShort.ArrivesIff is exact for one packet, and runs in which all failures stop alike are not covered here.
- FloodCost.LinearFloodCost: assumes ids that are distinct and not changed by N1 to N9 during the run, and at most 32 registrations per node, the depth of the ring.
- PbData.DecodeIsSafe: a wrapping skip met on the way need not lead back to a visited tag, so that its condition for returning is sufficient; the exact one is PbData.HangsIffRevisits.
- Keystream.NoKeystreamReuseOnChannel: assumes distinct ids that N1 to N9 do not change; Keystream.SharedOnChannelIff drops the former and Keystream.SharedIff both, and say exactly which blocks are shared.
- Requests.AcceptedBytesBecomePackets: the ring with its interrupts and the node are two models, joined by the lines read; the class Node polls without interrupts.
- Varints of six or more bytes: the code shifts a 32-bit value by 35 or more, which C leaves undefined; the model lets such a decoding give any text, none, or hang, but nothing worse.
- Null pointer arguments, which the code checks for and never passes.
- AES itself and the peripheral's initialisation flag: the block operation is an arbitrary function that may fail.
- The build without the AES peripheral, in which encryption does nothing.
- Interrupts arriving during a poll, in the class Node: they are covered on values by LineInput.LinesOfAcceptedBytes.
- Radio driver, RF switch, LED, clocks, system calls: register writes whose meaning is in libraries that are not part of this model.
- Flash storage of the configuration: the configuration is an initial value.
- Region and preset tables: lookups.
- The text layout of console output: printing appends an entry to a log.
- Signal strength, timing and collisions: loss is an arbitrary choice of receivers.
