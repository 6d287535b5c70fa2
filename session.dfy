/*
 * The game client's session: the globals of client/networking.c as the
 * fields of one object, and its operations as methods that update them in
 * place. Each method is proved to leave the state that the matching
 * function of module Protocol describes.
 *
 * The transport is not modelled: the polled event is a parameter of
 * Update, the packet it would send is its result, and the server peer is
 * the flag serverPresent.
 */
module Client {
  import opened Packet
  import opened Protocol

  class Session {
    var localPlayerId: int
    var serverPresent: bool
    var lastInputSend: real
    /** The table of all players, indexed by player id. */
    const players: array<Slot>

    /** The session's state as a value. */
    ghost function State(): SessionState
      reads this, players
    {
      SessionState(serverPresent, localPlayerId, lastInputSend, players[..])
    }

    ghost predicate Valid()
      reads this, players
    {
      WellFormed(State())
    }

    /** The globals as the program starts: no server, not accepted, every slot empty. */
    constructor ()
      ensures Valid() && fresh(players)
      ensures State() == Initial()
    {
      localPlayerId := -1;
      serverPresent := false;
      lastInputSend := INITIAL_LAST_INPUT_SEND;
      players := new Slot[MAX_PLAYERS](_ => EMPTY_SLOT);
      new;
      assert players[..] == Initial().players;
    }

    /** Connect: the transport calls are left out; the session now has a server peer. */
    method Connect()
      requires Valid()
      modifies this
      ensures Valid()
      ensures State() == old(State()).(serverPresent := true)
    {
      serverPresent := true;
    }

    /** Disconnect: drops the server peer. Unlike a disconnect event, it keeps the local id. */
    method Disconnect()
      requires Valid()
      modifies this
      ensures Valid()
      ensures State() == old(State()).(serverPresent := false)
    {
      serverPresent := false;
    }

    // -------------------------------------------------------------------------
    // Inbound handlers
    // -------------------------------------------------------------------------

    method HandleAddPlayer(data: seq<Byte>, offset: nat)
      requires Valid()
      modifies players
      ensures Valid()
      ensures players[..] == AfterAddPlayer(old(players[..]), localPlayerId, data, offset)
    {
      var remotePlayer, next := ReadByte(data, offset);
      if remotePlayer as int >= MAX_PLAYERS || remotePlayer as int == localPlayerId {
        return;
      }
      players[remotePlayer] := players[remotePlayer].(active := true);
      var position, _ := ReadPosition(data, next);
      players[remotePlayer] := players[remotePlayer].(position := position);
    }

    method HandleRemovePlayer(data: seq<Byte>, offset: nat)
      requires Valid()
      modifies players
      ensures Valid()
      ensures players[..] == AfterRemovePlayer(old(players[..]), localPlayerId, data, offset)
    {
      var remotePlayer, _ := ReadByte(data, offset);
      if remotePlayer as int >= MAX_PLAYERS || remotePlayer as int == localPlayerId {
        return;
      }
      players[remotePlayer] := players[remotePlayer].(active := false);
    }

    method HandleUpdatePlayer(data: seq<Byte>, offset: nat)
      requires Valid()
      modifies players
      ensures Valid()
      ensures players[..] == AfterUpdatePlayer(old(players[..]), localPlayerId, data, offset)
    {
      var remotePlayer, next := ReadByte(data, offset);
      if remotePlayer as int >= MAX_PLAYERS || remotePlayer as int == localPlayerId
         || !players[remotePlayer].active {
        return;
      }
      var position, _ := ReadPosition(data, next);
      players[remotePlayer] := players[remotePlayer].(position := position);
    }

    /** The receive branch of Update. Releasing the packet buffer is left out. */
    method HandlePacket(data: seq<Byte>)
      requires Valid()
      modifies this, players
      ensures Valid()
      ensures State() == AfterPacket(old(State()), data)
    {
      // every valid packet holds at least the command byte
      if |data| < 1 {
        return;
      }
      var command, offset := ReadByte(data, 0);
      if localPlayerId == -1 {
        // before acceptance AcceptPlayer is the only command taken
        if command == ACCEPT_PLAYER {
          var id;
          id, offset := ReadByte(data, offset);
          localPlayerId := id as int;
          if localPlayerId < 0 || localPlayerId >= MAX_PLAYERS {
            localPlayerId := -1;
            return;
          }
          // the next Update sends at once
          lastInputSend := -INPUT_UPDATE_INTERVAL;
          players[localPlayerId] := players[localPlayerId].(active := true);
          players[localPlayerId] := players[localPlayerId].(position := SPAWN);
        }
      } else if command == ADD_PLAYER {
        HandleAddPlayer(data, offset);
      } else if command == REMOVE_PLAYER {
        HandleRemovePlayer(data, offset);
      } else if command == UPDATE_PLAYER {
        HandleUpdatePlayer(data, offset);
      }
    }

    // -------------------------------------------------------------------------
    // One frame
    // -------------------------------------------------------------------------

    /**
     * One frame: send the local position if the throttle allows, then
     * take the one event the transport polled. Returns the packet to send.
     */
    method Update(now: real, event: Event) returns (outgoing: Option<seq<Byte>>)
      requires Valid()
      modifies this, players
      ensures Valid()
      ensures outgoing == Outgoing(old(State()), now)
      ensures State() == AfterUpdate(old(State()), now, event)
    {
      outgoing := None;
      if !serverPresent {
        return;
      }
      if localPlayerId >= 0 && now - lastInputSend > INPUT_UPDATE_INTERVAL {
        var frame := PackUpdateInput(players[localPlayerId].position);
        outgoing := Some(frame);
        lastInputSend := now;
      }
      match event {
        case NoEvent =>
        case Receive(data) =>
          HandlePacket(data);
        case Disconnect =>
          serverPresent := false;
          localPlayerId := -1;
      }
    }

    // -------------------------------------------------------------------------
    // Local movement and queries
    // -------------------------------------------------------------------------

    /** Adds the movement to the local position, then pulls each axis back inside the field. */
    method UpdateLocalPlayer(delta: Position)
      requires Valid()
      modifies players
      ensures Valid()
      ensures State() == AfterMove(old(State()), delta)
    {
      if localPlayerId < 0 {
        return;
      }
      var position := players[localPlayerId].position;
      position := Position(position.x + delta.x, position.y + delta.y);
      if position.x < 0 {
        position := position.(x := 0);
      }
      if position.y < 0 {
        position := position.(y := 0);
      }
      if position.x > FIELD_SIZE_WIDTH - PLAYER_SIZE {
        position := position.(x := FIELD_SIZE_WIDTH - PLAYER_SIZE);
      }
      if position.y > FIELD_SIZE_HEIGHT - PLAYER_SIZE {
        position := position.(y := FIELD_SIZE_HEIGHT - PLAYER_SIZE);
      }
      players[localPlayerId] := players[localPlayerId].(position := position);
    }

    /** True once a server peer exists and the server has accepted this client. */
    function Connected(): (r: bool)
      reads this, players
      requires Valid()
      ensures r <==> serverPresent && localPlayerId != -1
      ensures r ==> ValidPlayerId(localPlayerId) && 0 <= localPlayerId < players.Length
    {
      serverPresent && localPlayerId >= 0
    }

    /** The local player's id, or -1 before acceptance. */
    function GetLocalPlayerId(): (id: int)
      reads this, players
      requires Valid()
      ensures id == -1 || (ValidPlayerId(id) && id < players.Length)
      ensures id == localPlayerId
    {
      localPlayerId
    }

    /** The position of an active player; None for an id outside the table or an inactive slot. */
    function GetPlayerPos(id: int): (pos: Option<Position>)
      reads this, players
      requires Valid()
      ensures pos.Some? <==> 0 <= id < players.Length && players[id].active
      ensures pos.Some? ==> pos.value == players[id].position && IsWirePosition(pos.value)
    {
      if id < 0 || id >= MAX_PLAYERS || !players[id].active then None
      else Some(players[id].position)
    }
  }
}
