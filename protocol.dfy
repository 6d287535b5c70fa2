/*
 * The game client's protocol, as values: the constants of the wire format
 * and of the field, the state the client keeps, and one function per
 * operation giving the state that operation leaves behind. The class in
 * session.dfy updates the same state in place and is proved to agree with
 * these functions.
 *
 * MAX_PLAYERS, FIELD_SIZE_WIDTH, FIELD_SIZE_HEIGHT and PLAYER_SIZE come from
 * networking.h, which is not part of this model. Their values here are
 * chosen. The general properties rely on 0 < MAX_PLAYERS <= 255,
 * PLAYER_SIZE <= FIELD_SIZE_WIDTH and PLAYER_SIZE <= FIELD_SIZE_HEIGHT, and
 * field coordinates that fit an int16; the worked scenarios in
 * protocol_lemmas.dfy use ids 3 and 7 and so also need MAX_PLAYERS > 7.
 */
module Protocol {
  import opened Packet

  datatype Option<T> = None | Some(value: T)

  // Command bytes (the NetworkCommands enumeration)
  const ACCEPT_PLAYER: Byte := 1   // server -> client: your id
  const ADD_PLAYER: Byte := 2      // server -> client: id, position
  const REMOVE_PLAYER: Byte := 3   // server -> client: id
  const UPDATE_PLAYER: Byte := 4   // server -> client: id, position
  const UPDATE_INPUT: Byte := 5    // client -> server: position

  const MAX_PLAYERS: nat := 8
  const FIELD_SIZE_WIDTH: int := 800
  const FIELD_SIZE_HEIGHT: int := 600
  const PLAYER_SIZE: int := 40

  /** Seconds between two input updates (20 a second). */
  const INPUT_UPDATE_INTERVAL: real := 0.05
  /** The send clock before any acceptance. */
  const INITIAL_LAST_INPUT_SEND: real := -100.0
  /** Where every accepted player starts. */
  const SPAWN := Position(100, 100)

  /** One entry of the player table. */
  datatype Slot = Slot(active: bool, position: Position)

  const EMPTY_SLOT := Slot(false, Position(0, 0))

  /** The client's state: the globals of the source, with the server peer reduced to its presence. */
  datatype SessionState = SessionState(
    serverPresent: bool,
    localPlayerId: int,      // -1 until the server accepts this client
    lastInputSend: real,
    players: seq<Slot>)

  /** An event the transport delivers to one Update call. */
  datatype Event = NoEvent | Receive(data: seq<Byte>) | Disconnect

  /** The commands an accepted client takes: news about remote players. */
  predicate IsRemoteCommand(command: Byte) {
    command == ADD_PLAYER || command == REMOVE_PLAYER || command == UPDATE_PLAYER
  }

  predicate ValidPlayerId(id: int) {
    0 <= id < MAX_PLAYERS
  }

  /** The invariant every operation keeps: a full table, a local id that is unset or indexes it, wire-sized positions. */
  predicate WellFormed(s: SessionState) {
    && |s.players| == MAX_PLAYERS
    && (s.localPlayerId == -1 || ValidPlayerId(s.localPlayerId))
    && forall j :: 0 <= j < |s.players| ==> IsWirePosition(s.players[j].position)
  }

  function Initial(): (s: SessionState)
    ensures WellFormed(s) && !s.serverPresent && s.localPlayerId == -1
    ensures forall j :: 0 <= j < MAX_PLAYERS ==> !s.players[j].active
  {
    SessionState(false, -1, INITIAL_LAST_INPUT_SEND, seq(MAX_PLAYERS, _ => EMPTY_SLOT))
  }

  // ---------------------------------------------------------------------------
  // Acceptance check
  // ---------------------------------------------------------------------------

  /** The id check of the source when accepting: rejects `id < 0 || id > MAX_PLAYERS`. */
  predicate SourceAcceptsId(id: int): (ok: bool)
    ensures ok <==> 0 <= id <= MAX_PLAYERS
  {
    !(id < 0 || id > MAX_PLAYERS)
  }

  /** The corrected check: rejects `id < 0 || id >= MAX_PLAYERS`. */
  predicate AcceptsId(id: int): (ok: bool)
    ensures ok <==> ValidPlayerId(id)
  {
    !(id < 0 || id >= MAX_PLAYERS)
  }

  // ---------------------------------------------------------------------------
  // Inbound handlers. `offset` is where the player id is read.
  // ---------------------------------------------------------------------------

  /** AcceptPlayer, taken only while the client is not accepted. */
  function AfterAcceptPlayer(s: SessionState, data: seq<Byte>, offset: nat): (r: SessionState)
    requires WellFormed(s) && s.localPlayerId == -1
    ensures WellFormed(r)
    ensures r.serverPresent == s.serverPresent
    ensures var id := ByteAt(data, offset) as int;
      if AcceptsId(id) then
        && r.localPlayerId == id
        && r.lastInputSend == -INPUT_UPDATE_INTERVAL
        && r.players[id] == Slot(true, SPAWN)
        && forall j :: 0 <= j < MAX_PLAYERS && j != id ==> r.players[j] == s.players[j]
      else
        r == s
  {
    var id := ByteAt(data, offset) as int;
    if id < 0 || id >= MAX_PLAYERS then s
    else s.(localPlayerId := id,
            lastInputSend := -INPUT_UPDATE_INTERVAL,
            players := s.players[id := Slot(true, SPAWN)])
  }

  /** AddPlayer: a remote player appears at the position that follows its id. */
  function AfterAddPlayer(players: seq<Slot>, localId: int, data: seq<Byte>, offset: nat): (r: seq<Slot>)
    requires |players| == MAX_PLAYERS
    ensures |r| == MAX_PLAYERS
    ensures var id := ByteAt(data, offset) as int;
      && (id >= MAX_PLAYERS || id == localId ==> r == players)
      && (forall j :: 0 <= j < MAX_PLAYERS && j != id ==> r[j] == players[j])
      && (id < MAX_PLAYERS && id != localId ==>
            r[id] == Slot(true, PositionAt(data, Advance(data, offset, 1))))
  {
    var id := ByteAt(data, offset) as int;
    if id >= MAX_PLAYERS || id == localId then players
    else players[id := Slot(true, PositionAt(data, Advance(data, offset, 1)))]
  }

  /** RemovePlayer: a remote player is marked inactive; its last position stays. */
  function AfterRemovePlayer(players: seq<Slot>, localId: int, data: seq<Byte>, offset: nat): (r: seq<Slot>)
    requires |players| == MAX_PLAYERS
    ensures |r| == MAX_PLAYERS
    ensures var id := ByteAt(data, offset) as int;
      && (id >= MAX_PLAYERS || id == localId ==> r == players)
      && (forall j :: 0 <= j < MAX_PLAYERS && j != id ==> r[j] == players[j])
      && (id < MAX_PLAYERS && id != localId ==>
            !r[id].active && r[id].position == players[id].position)
  {
    var id := ByteAt(data, offset) as int;
    if id >= MAX_PLAYERS || id == localId then players
    else players[id := players[id].(active := false)]
  }

  /** UpdatePlayer: an active remote player moves; an inactive slot is never activated by it. */
  function AfterUpdatePlayer(players: seq<Slot>, localId: int, data: seq<Byte>, offset: nat): (r: seq<Slot>)
    requires |players| == MAX_PLAYERS
    ensures |r| == MAX_PLAYERS
    ensures var id := ByteAt(data, offset) as int;
      && (id >= MAX_PLAYERS || id == localId || !players[id].active ==> r == players)
      && (forall j :: 0 <= j < MAX_PLAYERS && j != id ==> r[j] == players[j])
      && (id < MAX_PLAYERS && id != localId && players[id].active ==>
            r[id].active && r[id].position == PositionAt(data, Advance(data, offset, 1)))
  {
    var id := ByteAt(data, offset) as int;
    if id >= MAX_PLAYERS || id == localId || !players[id].active then players
    else players[id := players[id].(position := PositionAt(data, Advance(data, offset, 1)))]
  }

  /** One received packet: its command byte, then the handler the connection state allows. */
  function AfterPacket(s: SessionState, data: seq<Byte>): (r: SessionState)
    requires WellFormed(s)
    ensures WellFormed(r)
    ensures r.serverPresent == s.serverPresent
    // an empty packet is dropped
    ensures |data| == 0 ==> r == s
    // before acceptance only AcceptPlayer is taken
    ensures s.localPlayerId == -1 && |data| > 0 && data[0] != ACCEPT_PLAYER ==> r == s
    ensures s.localPlayerId == -1 && |data| > 0 && data[0] == ACCEPT_PLAYER ==>
      r == AfterAcceptPlayer(s, data, 1)
    // after acceptance the id and the clock stay, and the local slot is never touched
    ensures s.localPlayerId != -1 ==>
      && r.localPlayerId == s.localPlayerId
      && r.lastInputSend == s.lastInputSend
      && r.players[s.localPlayerId] == s.players[s.localPlayerId]
    ensures s.localPlayerId != -1 && |data| > 0 && !IsRemoteCommand(data[0]) ==> r == s
    // after acceptance each remote command runs its handler on the id at offset 1
    ensures s.localPlayerId != -1 && |data| > 0 && data[0] == ADD_PLAYER ==>
      r == s.(players := AfterAddPlayer(s.players, s.localPlayerId, data, 1))
    ensures s.localPlayerId != -1 && |data| > 0 && data[0] == REMOVE_PLAYER ==>
      r == s.(players := AfterRemovePlayer(s.players, s.localPlayerId, data, 1))
    ensures s.localPlayerId != -1 && |data| > 0 && data[0] == UPDATE_PLAYER ==>
      r == s.(players := AfterUpdatePlayer(s.players, s.localPlayerId, data, 1))
    // only the slot named by the id byte can change
    ensures forall j :: 0 <= j < MAX_PLAYERS && j != ByteAt(data, 1) as int ==> r.players[j] == s.players[j]
  {
    if |data| < 1 then s
    else
      var command := ByteAt(data, 0);
      var offset := Advance(data, 0, 1);
      if s.localPlayerId == -1 then
        if command == ACCEPT_PLAYER then AfterAcceptPlayer(s, data, offset) else s
      else if command == ADD_PLAYER then
        s.(players := AfterAddPlayer(s.players, s.localPlayerId, data, offset))
      else if command == REMOVE_PLAYER then
        s.(players := AfterRemovePlayer(s.players, s.localPlayerId, data, offset))
      else if command == UPDATE_PLAYER then
        s.(players := AfterUpdatePlayer(s.players, s.localPlayerId, data, offset))
      else s
  }

  // ---------------------------------------------------------------------------
  // Outbound: the send throttle and the UpdateInput frame
  // ---------------------------------------------------------------------------

  /** The throttle: a send is due once accepted and more than one interval after the last send. */
  predicate SendDue(localId: int, lastInputSend: real, now: real): (due: bool)
    ensures due ==> localId != -1
    ensures due <==> localId >= 0 && lastInputSend + INPUT_UPDATE_INTERVAL < now
  {
    localId >= 0 && now - lastInputSend > INPUT_UPDATE_INTERVAL
  }

  /** The UpdateInput frame: command byte 5, then x and y as int16. */
  function EncodeUpdateInput(p: Position): (frame: seq<Byte>)
    requires IsWirePosition(p)
    ensures |frame| == 5 && frame[0] == UPDATE_INPUT
    ensures Int16(frame[1], frame[2]) == p.x && Int16(frame[3], frame[4]) == p.y
  {
    [UPDATE_INPUT] + EncodeInt16(p.x) + EncodeInt16(p.y)
  }

  /** Fills the 5-byte send buffer with an UpdateInput frame for p. */
  method PackUpdateInput(p: Position) returns (frame: seq<Byte>)
    requires IsWirePosition(p)
    ensures frame == EncodeUpdateInput(p)
  {
    var buffer := new Byte[5];
    buffer[0] := UPDATE_INPUT;
    var x := EncodeInt16(p.x);
    buffer[1], buffer[2] := x[0], x[1];
    var y := EncodeInt16(p.y);
    buffer[3], buffer[4] := y[0], y[1];
    frame := buffer[..];
  }

  /** The frame Update hands to the transport, if any. */
  function Outgoing(s: SessionState, now: real): (frame: Option<seq<Byte>>)
    requires WellFormed(s)
    ensures frame.Some? <==> s.serverPresent && s.localPlayerId >= 0 &&
                             now - s.lastInputSend > INPUT_UPDATE_INTERVAL
    ensures frame.Some? ==>
      && |frame.value| == 5
      && frame.value[0] == UPDATE_INPUT
      && PositionAt(frame.value, 1) == s.players[s.localPlayerId].position
  {
    if s.serverPresent && SendDue(s.localPlayerId, s.lastInputSend, now) then
      Some(EncodeUpdateInput(s.players[s.localPlayerId].position))
    else None
  }

  /** One Update call: send if due, then take the one polled event. */
  function AfterUpdate(s: SessionState, now: real, event: Event): (r: SessionState)
    requires WellFormed(s)
    ensures WellFormed(r)
    // with no server nothing happens
    ensures !s.serverPresent ==> r == s
    // a send restarts the clock, and nothing later in the call resets it
    ensures Outgoing(s, now).Some? ==> r.lastInputSend == now
    ensures s.serverPresent && event.NoEvent? ==>
      r == s.(lastInputSend := if Outgoing(s, now).Some? then now else s.lastInputSend)
    // only a received packet changes the table
    ensures !event.Receive? ==> r.players == s.players
    // a disconnect drops the server and the local id, and leaves the table
    ensures s.serverPresent && event.Disconnect? ==> !r.serverPresent && r.localPlayerId == -1
    ensures s.serverPresent && event.Disconnect? ==>
      r.lastInputSend == (if Outgoing(s, now).Some? then now else s.lastInputSend)
    // a received packet is taken after the send
    ensures s.serverPresent && event.Receive? ==>
      r == AfterPacket(s.(lastInputSend := if Outgoing(s, now).Some? then now else s.lastInputSend), event.data)
    // short of a disconnect, an accepted client keeps its id, its server and its own slot
    ensures s.localPlayerId != -1 && !event.Disconnect? ==>
      && r.localPlayerId == s.localPlayerId
      && r.serverPresent == s.serverPresent
      && r.players[s.localPlayerId] == s.players[s.localPlayerId]
  {
    if !s.serverPresent then s
    else
      var sent := if SendDue(s.localPlayerId, s.lastInputSend, now) then s.(lastInputSend := now) else s;
      match event
      case NoEvent => sent
      case Receive(data) => AfterPacket(sent, data)
      case Disconnect => sent.(serverPresent := false, localPlayerId := -1)
  }

  // ---------------------------------------------------------------------------
  // Local movement
  // ---------------------------------------------------------------------------

  /** v moved into [0, hi]: the point of that range nearest to v. */
  function Clamp(v: int, hi: int): (r: int)
    requires 0 <= hi
    ensures 0 <= r <= hi
    ensures forall w :: 0 <= w <= hi ==> Distance(r, v) <= Distance(w, v)
    ensures 0 <= v <= hi ==> r == v
    ensures v < 0 ==> r == 0
    ensures hi < v ==> r == hi
  {
    if v < 0 then 0 else if v > hi then hi else v
  }

  function Distance(a: int, b: int): nat {
    if a <= b then b - a else a - b
  }

  /** The local player moved by delta, each axis kept inside the field. */
  function AfterMove(s: SessionState, delta: Position): (r: SessionState)
    requires WellFormed(s)
    ensures WellFormed(r)
    ensures s.localPlayerId < 0 ==> r == s
    ensures r.serverPresent == s.serverPresent && r.localPlayerId == s.localPlayerId
    ensures r.lastInputSend == s.lastInputSend
    ensures forall j :: 0 <= j < MAX_PLAYERS && j != s.localPlayerId ==> r.players[j] == s.players[j]
    ensures s.localPlayerId >= 0 ==>
      var old_ := s.players[s.localPlayerId];
      var new_ := r.players[s.localPlayerId];
      && new_.active == old_.active
      && new_.position.x == Clamp(old_.position.x + delta.x, FIELD_SIZE_WIDTH - PLAYER_SIZE)
      && new_.position.y == Clamp(old_.position.y + delta.y, FIELD_SIZE_HEIGHT - PLAYER_SIZE)
  {
    if s.localPlayerId < 0 then s
    else
      var slot := s.players[s.localPlayerId];
      var moved := Position(Clamp(slot.position.x + delta.x, FIELD_SIZE_WIDTH - PLAYER_SIZE),
                            Clamp(slot.position.y + delta.y, FIELD_SIZE_HEIGHT - PLAYER_SIZE));
      s.(players := s.players[s.localPlayerId := slot.(position := moved)])
  }
}
