// The server process itself: the two-entry `connections` array, updated in
// place by the connection handler and the handlers it registers. Each method
// is one handler run to completion, and is proved to perform exactly the step
// of the same name in Relay.

module Server {
  import opened Registry
  import opened Relay

  class RelayServer<P> {
    /** `connections`: created `[null, null]` and never replaced. */
    const slots: array<SlotState>
    /** The sockets the transport holds open, in connection order. */
    var attached: seq<SocketId>
    /** The `playerIndex` each connection handler computed. */
    var playerIndex: map<SocketId, int>
    /** The sockets whose inactivity timer is still pending. */
    var timers: set<SocketId>
    /** Every message emitted so far. */
    var outbox: seq<Envelope<P>>

    ghost function Abs(): State<P>
      reads this, slots
    {
      State(slots[..], attached, playerIndex, timers, outbox)
    }

    ghost predicate Valid()
      reads this, slots
    {
      WellFormed(Abs())
    }

    constructor ()
      ensures Valid() && Abs() == Init() && fresh(slots)
    {
      slots := new SlotState[SlotCount](_ => Empty);
      attached, playerIndex, timers, outbox := [], map[], {}, [];
    }

    /** `socket.broadcast.emit(m)` from `sender`. */
    method Broadcast(sender: SocketId, m: Message<P>)
      modifies this
      ensures outbox == old(outbox) + Relay.Broadcast(attached, sender, m)
      ensures attached == old(attached) && playerIndex == old(playerIndex) && timers == old(timers)
    {
      outbox := outbox + Relay.Broadcast(attached, sender, m);
    }

    /** The `connection` handler: the new socket is already attached when it
      * runs; it looks for the first free slot, tells the socket its index, and
      * for an accepted socket takes the slot, announces it and arms the timer. */
    method Connect(sid: SocketId) returns (index: int)
      requires Valid() && sid !in playerIndex
      modifies this, slots
      ensures Valid()
      ensures index == FirstFree(old(slots[..]))
      ensures Abs() == ConnectStep(old(Abs()), sid)
    {
      DistinctAppend(attached, sid);
      attached := attached + [sid];
      index := FindFreeSlot(slots);
      outbox := outbox + [Envelope(sid, PlayerNumber(index))];
      if index == -1 {
        playerIndex := playerIndex[sid := -1];
        return;
      }
      slots[index] := NotReady;
      playerIndex := playerIndex[sid := index];
      Broadcast(sid, PlayerConnection(index));
      timers := timers + {sid};
    }

    /** The `disconnect` handler of an accepted socket frees its slot and
      * announces it; a rejected socket has no handler. Either way the
      * transport detaches the socket. The timer is left pending. */
    method Disconnect(sid: SocketId)
      requires Valid()
      modifies this, slots
      ensures Valid()
      ensures Abs() == DisconnectStep(old(Abs()), sid)
    {
      if sid !in attached {
        return;
      }
      OthersMembers(attached, sid);
      var i := playerIndex[sid];
      if i != -1 {
        slots[i] := Empty;
        Broadcast(sid, PlayerConnection(i));
      }
      attached := Others(attached, sid);
    }

    /** The `player-ready` handler: announce, then mark the slot ready. */
    method PlayerReady(sid: SocketId)
      requires Valid()
      modifies this, slots
      ensures Valid()
      ensures Abs() == ReadyStep(old(Abs()), sid)
    {
      if !(sid in attached && sid in playerIndex && playerIndex[sid] != -1) {
        return;
      }
      var i := playerIndex[sid];
      Broadcast(sid, EnemyReady(i));
      slots[i] := Ready;
    }

    /** The `check-players` handler: build the list and send it back. */
    method CheckPlayers(sid: SocketId)
      requires Valid()
      modifies this
      ensures Valid()
      ensures Abs() == CheckPlayersStep(old(Abs()), sid)
    {
      if !(sid in attached && sid in playerIndex && playerIndex[sid] != -1) {
        return;
      }
      var players := BuildSnapshot(slots);
      outbox := outbox + [Envelope(sid, Message.CheckPlayers(players))];
    }

    /** The `fire` handler: relay the target id to the others. */
    method Fire(sid: SocketId, id: P)
      requires Valid()
      modifies this
      ensures Valid()
      ensures Abs() == RelayStep(old(Abs()), sid, Message.Fire(id))
    {
      if !(sid in attached && sid in playerIndex && playerIndex[sid] != -1) {
        return;
      }
      Broadcast(sid, Message.Fire(id));
    }

    /** The `fire-reply` handler: relay the result to the others. */
    method FireReply(sid: SocketId, square: P)
      requires Valid()
      modifies this
      ensures Valid()
      ensures Abs() == RelayStep(old(Abs()), sid, Message.FireReply(square))
    {
      if !(sid in attached && sid in playerIndex && playerIndex[sid] != -1) {
        return;
      }
      Broadcast(sid, Message.FireReply(square));
    }

    /** The inactivity timer of `sid`: free its slot; if the socket is still
      * open, send it `timeout` and close it, which runs its disconnect
      * handler. */
    method TimerFires(sid: SocketId)
      requires Valid()
      modifies this, slots
      ensures Valid()
      ensures Abs() == TimerStep(old(Abs()), sid)
    {
      if sid !in timers {
        return;
      }
      var i := playerIndex[sid];
      slots[i] := Empty;
      timers := timers - {sid};
      if sid in attached {
        outbox := outbox + [Envelope(sid, Timeout)];
        Disconnect(sid);
      }
    }
  }
}
