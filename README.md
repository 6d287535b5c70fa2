# A verified model of the raylib networking sample's client

This project models the client side of a small multiplayer game protocol:
`client/networking.c` of the raylib networking sample. The client connects to
one server and waits for an `AcceptPlayer` message that gives it a player id.
It then keeps a fixed table of `MAX_PLAYERS` slots, one per player id. Each slot
holds an active flag and a last-known position. The server's `AddPlayer`,
`RemovePlayer` and `UpdatePlayer` messages update remote players' slots. Once
per frame, no more often than 20 times a second, the client sends its own
position as an `UpdateInput` message.

Modules:

- `Packet` (`packet.dfy`) is the packet cursor.
  - `ReadByte`, `ReadShort` and `ReadPosition` take a byte buffer and an offset. They return the value read and the new offset.
  - `Int16` and `EncodeInt16` are the int16 wire codec.
  - `SourceReadByte` and `SourceReadShort` are the readers exactly as the source writes them, including their out-of-bounds read.
- `Protocol` (`protocol.dfy`) holds the protocol as values.
  - It has the command bytes and the constants, and `SessionState`, the client's globals as one value.
  - There is one function per operation (`AfterAcceptPlayer`, `AfterAddPlayer`, `AfterPacket`, `AfterUpdate`, `AfterMove`, …). Each gives the state the operation leaves behind, and its `ensures` says what the source promises about it.
- `Client` (`session.dfy`) holds the class `Session`.
  - Its fields are the source's globals: `localPlayerId`, `serverPresent` for `server != NULL`, `lastInputSend`, and the `players` array.
  - Its methods update those fields in place, as the C functions do. Each method is proved to leave exactly the state that the matching `Protocol` function describes.
- `ProtocolLemmas` (`protocol_lemmas.dfy`) holds lemmas that relate several operations or several frames, the two out-of-bounds findings, and the worked scenarios.

Modelling decisions:

- Bytes are the newtype `Byte` (0..255). A packet is a `seq<Byte>`.
- `ReadShort` reads in host byte order in the source. The model fixes this as little-endian two's complement.
- Positions are integers. On the wire they are `int16`.
- Time is a `real` number of seconds. The send interval is exactly 0.05.
- The transport is replaced by plain values:
  - The event that `enet_host_service` polls is the `event` parameter of `Update`: nothing, a received packet, or a disconnect.
  - The packet that `enet_peer_send` sends is `Update`'s result.
  - The server peer is the flag `serverPresent`.
- `MAX_PLAYERS`, `FIELD_SIZE_WIDTH`, `FIELD_SIZE_HEIGHT` and `PLAYER_SIZE` come from `networking.h`, which is not part of this model.
  - Their values here (8, 800, 600, 40) are chosen.
  - The general properties rely on `0 < MAX_PLAYERS <= 255`, on `PLAYER_SIZE <= FIELD_SIZE_WIDTH`, on `PLAYER_SIZE <= FIELD_SIZE_HEIGHT`, and on field coordinates that fit an `int16`.
  - The worked scenarios `ProtocolLemmas.AcceptScenario` (id 7) and `ProtocolLemmas.AddPlayerScenario` (id 3) also need `MAX_PLAYERS > 7`.
- Two guards in the source let an index run past a buffer; see "## Findings".
  - The as-written guard is stated and its gap is proved.
  - The executable model uses the tightened guard. It is proved to agree with the source wherever the source stays in bounds.
  - The permissive boundary of the readers is kept only in the as-written readers. The executable readers are hardened.

## Model

| member | source | states |
|---|---|---|
| Packet.Int16 | client/networking.c:149-164 | the short read from two bytes is in the int16 range, and it is non-negative exactly when the high byte is below 0x80 |
| Packet.EncodeInt16 | client/networking.c:245-246 | storing an int16 gives two bytes that read back as the same value |
| Packet.Int16RoundTrip | client/networking.c:149-164 | every byte pair is the encoding of the value it decodes to (the other direction of the codec) |
| Packet.PositionAt | client/networking.c:174-181 | a position read is two wire-sized shorts, x then y; with four bytes in the buffer they are those bytes; with fewer, y is 0; with fewer than two, both are 0 |
| Packet.ReadByte | client/networking.c:123-139 | inside the buffer: returns `data[offset]` and advances by exactly 1; otherwise returns 0 and leaves the offset unchanged |
| Packet.ReadShort | client/networking.c:149-164 | inside the buffer: returns the int16 at `offset` and advances by exactly 2; otherwise returns 0 and leaves the offset unchanged |
| Packet.ReadPosition | client/networking.c:174-181 | reads x then y and advances by 4 in total when both fit; by 2 with y = 0 when only x fits; otherwise returns (0, 0) and does not advance |
| Packet.SourceReadByte | client/networking.c:123-139 | the source's byte read as written: past the `offset > length` guard it returns 0 and keeps the offset; below the length it returns the byte and advances by 1; whatever it returns is a byte, at the same or the next offset |
| Packet.SourceReadShort | client/networking.c:149-164 | the source's short read as written: past the guard it returns 0 and keeps the offset; with two bytes left it returns their int16 and advances by 2; whatever it returns is an int16 |
| Packet.SourceReadByteOverrun | client/networking.c:123-139 | the source's byte read runs past the buffer exactly when the offset equals its length: the guard `offset > length` lets that case through |
| Packet.SourceReadShortOverrun | client/networking.c:149-164 | the source's short read runs past the buffer exactly when the offset is the length or one less |
| Packet.ReadByteAgreesWithSource | client/networking.c:123-139 | wherever the source's byte read stays in bounds, the tightened read returns the same value and offset; every read that fits is one of those |
| Packet.ReadShortAgreesWithSource | client/networking.c:149-164 | the same for the short read |
| Protocol.Initial | client/networking.c:43-76 | at start-up there is no server, the client is not accepted, and every slot is inactive |
| Protocol.SourceAcceptsId | client/networking.c:292 | the source's id check admits exactly the ids `0..MAX_PLAYERS`, including `MAX_PLAYERS` itself |
| Protocol.AcceptsId | client/networking.c:292 | the corrected id check admits exactly the valid indexes `0..MAX_PLAYERS-1` of the table |
| Protocol.AfterAcceptPlayer | client/networking.c:286-308 | an id that passes the check becomes the local id, gets an active slot at (100, 100), and the clock is set to minus one interval; no other slot changes; a rejected id leaves everything unchanged, with the local id still -1 |
| Protocol.AfterAddPlayer | client/networking.c:187-200 | an id out of range or equal to the local id changes nothing; otherwise only slot id changes, to active at the position read after the id |
| Protocol.AfterRemovePlayer | client/networking.c:203-212 | same guards; otherwise only slot id changes, to inactive, and it keeps its position |
| Protocol.AfterUpdatePlayer | client/networking.c:215-227 | same guards, and an inactive target changes nothing; otherwise only slot id's position changes, and it stays active |
| Protocol.AfterPacket | client/networking.c:271-332 | an empty packet changes nothing; before acceptance every command but AcceptPlayer changes nothing; after acceptance the id, the clock and the local slot never change, and AddPlayer, RemovePlayer and UpdatePlayer each leave exactly the table their handler gives for the id at offset 1, and every other command changes nothing; only the slot named by byte 1 can change; the invariant is kept |
| Protocol.EncodeUpdateInput | client/networking.c:243-246 | the UpdateInput frame is 5 bytes: command 5, then x and y, each stored as an int16 |
| Protocol.PackUpdateInput | client/networking.c:242-246 | filling the 5-byte send buffer gives exactly the UpdateInput frame of the position |
| Protocol.SendDue | client/networking.c:240 | the throttle is due exactly when the client is accepted and more than one interval has passed since the last send; it is never due before acceptance |
| Protocol.Outgoing | client/networking.c:233-258 | a frame is sent iff a server is present, the client is accepted, and `now - lastInputSend` exceeds the interval; the frame carries the local slot's position |
| Protocol.AfterUpdate | client/networking.c:230-341 | with no server nothing changes; a send sets the clock to `now`, and nothing later in the call resets it; only a received packet changes the table; a received packet is dispatched by `AfterPacket` on the state after the send; a disconnect event drops the server and the local id and keeps the send's clock; short of a disconnect, an accepted client keeps its id, its server and its own slot |
| Protocol.Clamp | client/networking.c:384-394 | the result lies in `[0, hi]` and is the point of that range nearest to the input; a value past a bound lands exactly on it |
| Protocol.AfterMove | client/networking.c:373-395 | nothing changes before acceptance; otherwise only the local slot's position changes, to the per-axis clamp of position plus delta into the field |
| Client.Session.constructor | client/networking.c:43-76 | the session starts in the initial state |
| Client.Session.Connect | client/networking.c:98-112 | connecting makes the server present and changes nothing else |
| Client.Session.Disconnect | client/networking.c:344-359 | disconnecting drops the server and keeps the local id and the table |
| Client.Session.HandleAddPlayer | client/networking.c:187-200 | updates the table in place to `AfterAddPlayer` of the old table |
| Client.Session.HandleRemovePlayer | client/networking.c:203-212 | updates the table in place to `AfterRemovePlayer` of the old table |
| Client.Session.HandleUpdatePlayer | client/networking.c:215-227 | updates the table in place to `AfterUpdatePlayer` of the old table |
| Client.Session.HandlePacket | client/networking.c:271-332 | the receive branch leaves the state `AfterPacket` gives, and keeps the invariant |
| Client.Session.Update | client/networking.c:230-341 | returns the frame `Outgoing` gives and leaves the state `AfterUpdate` gives |
| Client.Session.UpdateLocalPlayer | client/networking.c:373-395 | the chain of conditional assignments leaves the state `AfterMove` gives |
| Client.Session.Connected | client/networking.c:362-365 | true iff a server is present and the client is accepted; then the local id indexes the table |
| Client.Session.GetLocalPlayerId | client/networking.c:367-370 | the local id, which is -1 or a valid index into the table |
| Client.Session.GetPlayerPos | client/networking.c:398-407 | a position exactly for an id inside the table whose slot is active, and it is that slot's position; none for a negative id, an id at or past `MAX_PLAYERS`, or an inactive slot |
| ProtocolLemmas.UpdateInputRoundTrip | client/networking.c:243-246 | reading an UpdateInput frame with ReadByte and then ReadPosition gives command 5 and the packed x and y, and ends at byte 5 |
| ProtocolLemmas.UpdateInputDecodeEncode | client/networking.c:243-246 | every 5-byte frame that starts with command 5 is the encoding of the position read from it |
| ProtocolLemmas.NoSendBeforeAcceptance | client/networking.c:240 | nothing is sent while the local id is -1, whatever the clock says |
| ProtocolLemmas.SendRightAfterAcceptance | client/networking.c:240-308 | after the frame that accepts the client, the next frame sends iff `now > 0`, and it sends the spawn position |
| ProtocolLemmas.AfterUpdates | client/networking.c:230-341 | any run of Update calls keeps the invariant, and without a server changes nothing |
| ProtocolLemmas.AcceptedIdentityPersists | client/networking.c:187-227 | over any run of frames without a disconnect event, an accepted client keeps its id and its server, and no server message touches its slot |
| ProtocolLemmas.PendingIgnoresOtherCommands | client/networking.c:230-310 | while not accepted, any run of frames without a disconnect event or an AcceptPlayer packet (frames with no event, empty packets, other commands) leaves the whole state unchanged |
| ProtocolLemmas.SourceReadsIdPastShortPacket | client/networking.c:123-139 | for the packet `[2]`, the source reads the player id one byte past its end; the tightened cursor yields 0 |
| ProtocolLemmas.SourceReadsShortPastShortPacket | client/networking.c:149-164 | for the packet `[2, 3, 10]`, the source reads x one byte past its end; the tightened cursor yields (0, 0) |
| ProtocolLemmas.SourceAcceptCheckGap | client/networking.c:292 | the source's check admits exactly one id the corrected check refuses, `MAX_PLAYERS`; every id the corrected check admits, the source's admits too |
| ProtocolLemmas.SourceAcceptsIdPastTable | client/networking.c:289-302 | the packet `[1, MAX_PLAYERS]` passes the source's check with an id equal to the table length; the model leaves the client unaccepted |
| ProtocolLemmas.AcceptScenario | client/networking.c:284-308 | `[1, 7]` while pending makes the client player 7, active at (100, 100) |
| ProtocolLemmas.AddPlayerScenario | client/networking.c:187-200 | `[2, 3, 10, 0, 20, 0]` while accepted as another player makes player 3 active at (10, 20) |

## Left out

- The transport library is not modelled. Initialisation, host creation, address setup, connection, polling, sending, releasing packets, peer disconnect and host destruction are all foreign I/O. The polled event is an input of `Update`, the sent packet is its output, and the peer is the flag `serverPresent`.
- Transport events other than receive and disconnect (a connect event, say) do nothing in the source. They are represented by `NoEvent`.
- Releasing the received packet is not modelled. This includes the early exits that skip the release for an empty packet and for a rejected id. It concerns buffer lifetime, not the client's state.
- Client.Session.Connect: it does not model a connection attempt that fails to create a peer. Connecting always makes the server present.
- Positions and movement deltas are integers. The source keeps them as floats.
  - The float addition is left out.
  - The float-to-`int16_t` cast when sending is left out. It truncates, and it is undefined for out-of-range values.
  - The model keeps every position inside the int16 range, so the cast is exact there.
- The interval `1.0f / 20.0f` is slightly above 0.05 in single precision. The model uses exactly 0.05, and it does not model double-precision rounding of `now - LastInputSend`.
- Host byte order is platform-dependent. The model fixes it as little-endian.
- The header values of `MAX_PLAYERS` and the field and player sizes are assumed, as described above.

## Findings

| source | as written | input that shows it | evidently intended | confidence | as-written member | corrected member |
|---|---|---|---|---|---|---|
| client/networking.c:126 | `ReadByte` refuses only `offset > dataLength`, so it reads `data[dataLength]` | the packet `[2]` (AddPlayer) read while accepted: the id is read at offset 1 of a 1-byte packet | refuse a read when `offset + 1 > dataLength` | not executed; high | Packet.SourceReadByte, shown by ProtocolLemmas.SourceReadsIdPastShortPacket and Packet.SourceReadByteOverrun | Packet.ReadByte, with Packet.ReadByteAgreesWithSource |
| client/networking.c:152 | `ReadShort` refuses only `offset > dataLength`, so it reads two bytes starting at the length or one before it | the packet `[2, 3, 10]` (AddPlayer, id 3, one byte of x) read while accepted | refuse a read when `offset + 2 > dataLength` | not executed; high | Packet.SourceReadShort, shown by ProtocolLemmas.SourceReadsShortPastShortPacket and Packet.SourceReadShortOverrun | Packet.ReadShort, with Packet.ReadShortAgreesWithSource |
| client/networking.c:292 | the accepted id is checked with `LocalPlayerId > MAX_PLAYERS`, so id `MAX_PLAYERS` passes, and line 302 writes `Players[MAX_PLAYERS]`, one slot past the table | the packet `[1, 8]` (AcceptPlayer, id 8, with `MAX_PLAYERS` 8) while not accepted | reject `LocalPlayerId >= MAX_PLAYERS` | not executed; high | Protocol.SourceAcceptsId, shown by ProtocolLemmas.SourceAcceptsIdPastTable and ProtocolLemmas.SourceAcceptCheckGap | Protocol.AcceptsId, used by Protocol.AfterAcceptPlayer and Client.Session.HandlePacket |
