/*
 * Properties of the protocol that relate several operations or several
 * frames, the two places where the source indexes past a buffer, and the
 * worked scenarios of the protocol.
 */
module ProtocolLemmas {
  import opened Packet
  import opened Protocol

  // ---------------------------------------------------------------------------
  // The UpdateInput frame read back through the cursor
  // ---------------------------------------------------------------------------

  /**
   * Reading an UpdateInput frame with ReadByte and then ReadPosition gives
   * back command 5 and the position that was packed, and ends at its last byte.
   */
  lemma UpdateInputRoundTrip(p: Position)
    requires IsWirePosition(p)
    ensures var frame := EncodeUpdateInput(p);
      && ByteAt(frame, 0) == UPDATE_INPUT
      && Advance(frame, 0, 1) == 1
      && PositionAt(frame, 1) == p
      && Advance(frame, Advance(frame, 1, 2), 2) == |frame| == 5
  {
  }

  /** A 5-byte frame starting with command 5 is the encoding of the position read from it. */
  lemma UpdateInputDecodeEncode(frame: seq<Byte>)
    requires |frame| == 5 && frame[0] == UPDATE_INPUT
    ensures EncodeUpdateInput(PositionAt(frame, 1)) == frame
  {
  }

  // ---------------------------------------------------------------------------
  // The send throttle across frames
  // ---------------------------------------------------------------------------

  /** Nothing is ever sent before the server has accepted the client. */
  lemma NoSendBeforeAcceptance(s: SessionState, now: real)
    requires WellFormed(s) && s.localPlayerId == -1
    ensures Outgoing(s, now) == None
  {
  }

  /**
   * After a frame that accepts the client, the next frame sends exactly when
   * its clock reads more than 0, and what it sends is the spawn position.
   */
  lemma SendRightAfterAcceptance(s: SessionState, now: real, id: Byte, later: real)
    requires WellFormed(s) && s.serverPresent && s.localPlayerId == -1
    requires AcceptsId(id as int)
    ensures var t := AfterUpdate(s, now, Receive([ACCEPT_PLAYER, id]));
      && t.localPlayerId == id as int
      && t.players[id] == Slot(true, SPAWN)
      && (Outgoing(t, later).Some? <==> later > 0.0)
      && (later > 0.0 ==> Outgoing(t, later) == Some(EncodeUpdateInput(SPAWN)))
  {
  }

  /** The frames a run of Update calls goes through. */
  datatype Tick = Tick(now: real, event: Event)

  /** The state after one Update call per tick, in order. */
  function AfterUpdates(s: SessionState, ticks: seq<Tick>): (r: SessionState)
    requires WellFormed(s)
    ensures WellFormed(r)
    ensures !s.serverPresent ==> r == s
    decreases |ticks|
  {
    if |ticks| == 0 then s
    else AfterUpdates(AfterUpdate(s, ticks[0].now, ticks[0].event), ticks[1..])
  }

  /**
   * Once accepted, and until a disconnect event, the client keeps its id
   * and its server, and no message from the server moves or removes the
   * local player.
   */
  lemma {:induction false} AcceptedIdentityPersists(s: SessionState, ticks: seq<Tick>)
    requires WellFormed(s) && s.localPlayerId != -1
    requires forall i :: 0 <= i < |ticks| ==> !ticks[i].event.Disconnect?
    ensures var r := AfterUpdates(s, ticks);
      && r.localPlayerId == s.localPlayerId
      && r.serverPresent == s.serverPresent
      && r.players[s.localPlayerId] == s.players[s.localPlayerId]
    decreases |ticks|
  {
    if |ticks| > 0 {
      var next := AfterUpdate(s, ticks[0].now, ticks[0].event);
      assert forall i :: 0 <= i < |ticks[1..]| ==> ticks[1..][i] == ticks[i + 1];
      AcceptedIdentityPersists(next, ticks[1..]);
    }
  }

  /**
   * Before acceptance, frames with no event, empty packets and packets of
   * any kind but AcceptPlayer change nothing.
   */
  lemma {:induction false} PendingIgnoresOtherCommands(s: SessionState, ticks: seq<Tick>)
    requires WellFormed(s) && s.localPlayerId == -1
    requires forall i :: 0 <= i < |ticks| ==>
      && !ticks[i].event.Disconnect?
      && !(ticks[i].event.Receive? && |ticks[i].event.data| > 0 && ticks[i].event.data[0] == ACCEPT_PLAYER)
    ensures AfterUpdates(s, ticks) == s
    decreases |ticks|
  {
    if |ticks| > 0 && s.serverPresent {
      assert AfterUpdate(s, ticks[0].now, ticks[0].event) == s;
      assert forall i :: 0 <= i < |ticks[1..]| ==> ticks[1..][i] == ticks[i + 1];
      PendingIgnoresOtherCommands(s, ticks[1..]);
    }
  }

  // ---------------------------------------------------------------------------
  // Where the source reads or writes past a buffer
  // ---------------------------------------------------------------------------

  /**
   * An AddPlayer packet that holds only its command byte: the source reads
   * the player id one byte past the packet; the cursor here yields id 0.
   */
  lemma SourceReadsIdPastShortPacket()
    ensures SourceReadByte([ADD_PLAYER], 1) == ReadsPastEnd
    ensures ByteAt([ADD_PLAYER], 1) == 0 && Advance([ADD_PLAYER], 1, 1) == 1
  {
  }

  /**
   * An AddPlayer packet cut off after the first byte of x: the source reads
   * x one byte past the packet; the cursor here yields the position (0, 0).
   */
  lemma SourceReadsShortPastShortPacket()
    ensures SourceReadShort([ADD_PLAYER, 3, 10], 2) == ReadsPastEnd
    ensures PositionAt([ADD_PLAYER, 3, 10], 2) == Position(0, 0)
  {
  }

  /**
   * The source's acceptance check lets exactly one id too many through:
   * MAX_PLAYERS, which fits in the id byte and does not index the table.
   */
  lemma SourceAcceptCheckGap(id: int)
    ensures SourceAcceptsId(id) && !AcceptsId(id) <==> id == MAX_PLAYERS
    ensures AcceptsId(id) ==> SourceAcceptsId(id)
    ensures AcceptsId(id) <==> ValidPlayerId(id)
  {
  }

  /** The packet [1, MAX_PLAYERS] passes the source's check with an id one past the table. */
  lemma SourceAcceptsIdPastTable(s: SessionState)
    requires WellFormed(s) && s.localPlayerId == -1
    ensures var data := [ACCEPT_PLAYER, MAX_PLAYERS as Byte];
      && SourceAcceptsId(ByteAt(data, 1) as int)
      && ByteAt(data, 1) as int == |s.players|
      && AfterPacket(s, data) == s
  {
  }

  // ---------------------------------------------------------------------------
  // Worked scenarios
  // ---------------------------------------------------------------------------

  /** [1, 7] while pending: the client becomes player 7, active at the spawn point. */
  lemma AcceptScenario(s: SessionState)
    requires WellFormed(s) && s.localPlayerId == -1
    ensures var r := AfterPacket(s, [ACCEPT_PLAYER, 7]);
      r.localPlayerId == 7 && r.players[7] == Slot(true, SPAWN)
  {
  }

  /** [2, 3, 10, 0, 20, 0] while accepted as another player: player 3 appears at (10, 20). */
  lemma AddPlayerScenario(s: SessionState)
    requires WellFormed(s) && s.localPlayerId != -1 && s.localPlayerId != 3
    ensures AfterPacket(s, [ADD_PLAYER, 3, 10, 0, 20, 0]).players[3] == Slot(true, Position(10, 20))
  {
  }
}
