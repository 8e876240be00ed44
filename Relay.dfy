// The per-connection event relay of the server, stated on values: the whole
// server state, one function per event the connection handler reacts to, and
// the invariants these events keep. The class in Server.dfy is proved to
// perform exactly these steps.

module Relay {
  import opened Registry

  /** Socket identities handed out by the transport. */
  type SocketId = nat

  /** Messages the server emits. `Fire` and `FireReply` carry the client's
    * payload unchanged; the server never looks inside it. */
  datatype Message<P> =
    | PlayerNumber(index: int)
    | PlayerConnection(index: int)
    | EnemyReady(index: int)
    | CheckPlayers(players: seq<SlotView>)
    | Fire(id: P)
    | FireReply(square: P)
    | Timeout

  /** One emitted message and the socket it is delivered to. */
  datatype Envelope<P> = Envelope(to: SocketId, msg: Message<P>)

  /** Everything the server knows:
    * - `slots`: the registry;
    * - `attached`: the sockets the transport holds open, in connection order,
    *   rejected ones included;
    * - `playerIndex`: the index each connection handler computed (-1 for a
    *   rejected socket);
    * - `timers`: the sockets whose inactivity timer has not fired yet;
    * - `outbox`: every message emitted so far, in order. */
  datatype State<P> = State(
    slots: seq<SlotState>,
    attached: seq<SocketId>,
    playerIndex: map<SocketId, int>,
    timers: set<SocketId>,
    outbox: seq<Envelope<P>>)

  /** The events of one connection's life. */
  datatype Event<P> =
    | Connect(sid: SocketId)
    | Disconnect(sid: SocketId)
    | PlayerReady(sid: SocketId)
    | CheckPlayersRequest(sid: SocketId)
    | FireEvent(sid: SocketId, id: P)
    | FireReplyEvent(sid: SocketId, square: P)
    | TimerFires(sid: SocketId)

  ghost predicate Distinct(s: seq<SocketId>) {
    forall j, k :: 0 <= j < k < |s| ==> s[j] != s[k]
  }

  /** No socket is the recipient of two of these messages. */
  ghost predicate DistinctRecipients<P>(es: seq<Envelope<P>>) {
    forall j, k :: 0 <= j < k < |es| ==> es[j].to != es[k].to
  }

  /** Shape facts every step keeps: two slots, no socket attached twice, every
    * attached socket known, every recorded index -1 or a slot, and timers only
    * for sockets that obtained a slot. */
  ghost predicate WellFormed<P>(st: State<P>) {
    && |st.slots| == SlotCount
    && Distinct(st.attached)
    && (forall s :: s in st.attached ==> s in st.playerIndex)
    && (forall s :: s in st.playerIndex ==> -1 <= st.playerIndex[s] < |st.slots|)
    && (forall s :: s in st.timers ==> s in st.playerIndex && st.playerIndex[s] != -1)
  }

  /** A socket with handlers: still attached and not rejected. */
  predicate Active<P>(st: State<P>, sid: SocketId) {
    sid in st.attached && sid in st.playerIndex && st.playerIndex[sid] != -1
  }

  function Init<P>(): (st: State<P>)
    ensures WellFormed(st) && st.attached == [] && st.outbox == []
    ensures forall i :: 0 <= i < |st.slots| ==> st.slots[i] == Empty
  {
    State([Empty, Empty], [], map[], {}, [])
  }

  // ---------------------------------------------------------------------
  // Broadcast to every other socket

  /** The attached sockets other than `sender`, in their order. */
  function Others(att: seq<SocketId>, sender: SocketId): (r: seq<SocketId>)
    ensures |r| <= |att|
    ensures forall x :: x in r ==> x in att && x != sender
  {
    if att == [] then []
    else (if att[0] == sender then [] else [att[0]]) + Others(att[1..], sender)
  }

  /** `socket.broadcast.emit(m)`: one copy of `m` for each attached socket
    * except the sender. */
  function Broadcast<P>(att: seq<SocketId>, sender: SocketId, m: Message<P>): (r: seq<Envelope<P>>)
    ensures |r| <= |att|
    ensures forall e :: e in r ==> e.msg == m && e.to in att && e.to != sender
    ensures Distinct(att) ==> DistinctRecipients(r)
  {
    if att == [] then []
    else (if att[0] == sender then [] else [Envelope(att[0], m)]) + Broadcast(att[1..], sender, m)
  }

  lemma {:induction false} OthersMembers(att: seq<SocketId>, sender: SocketId)
    ensures forall x :: x in Others(att, sender) <==> x in att && x != sender
    ensures Distinct(att) ==> Distinct(Others(att, sender))
  {
    if att != [] {
      OthersMembers(att[1..], sender);
      var rest := Others(att[1..], sender);
      var o := Others(att, sender);
      if Distinct(att) {
        assert Distinct(att[1..]) by {
          forall j, k | 0 <= j < k < |att[1..]| ensures att[1..][j] != att[1..][k] {
            assert att[1..][j] == att[j + 1] && att[1..][k] == att[k + 1];
          }
        }
        assert att[0] !in att[1..] by {
          forall k | 0 <= k < |att[1..]| ensures att[1..][k] != att[0] {
            assert att[1..][k] == att[k + 1];
          }
        }
        if att[0] != sender {
          assert o == [att[0]] + rest;
          forall j, k | 0 <= j < k < |o| ensures o[j] != o[k] {
            if j == 0 {
              assert o[k] == rest[k - 1] && o[k] in rest;
            } else {
              assert o[j] == rest[j - 1] && o[k] == rest[k - 1];
            }
          }
        } else {
          assert o == rest;
        }
      }
    }
  }

  lemma DistinctAppend(att: seq<SocketId>, sid: SocketId)
    requires Distinct(att) && sid !in att
    ensures Distinct(att + [sid])
  {
    var a := att + [sid];
    forall j, k | 0 <= j < k < |a| ensures a[j] != a[k] {
      if k == |a| - 1 {
        assert a[j] == att[j];
      }
    }
  }

  /** A broadcast is, copy for copy, the attached sockets other than the
    * sender in their order; so every one of them gets the message. */
  lemma {:induction false} BroadcastDelivers<P>(att: seq<SocketId>, sender: SocketId, m: Message<P>)
    ensures |Broadcast(att, sender, m)| == |Others(att, sender)|
    ensures forall k :: 0 <= k < |Broadcast(att, sender, m)| ==>
      Broadcast(att, sender, m)[k] == Envelope(Others(att, sender)[k], m)
    ensures forall a :: a in att && a != sender ==> Envelope(a, m) in Broadcast(att, sender, m)
  {
    OthersMembers(att, sender);
    if att != [] {
      BroadcastDelivers(att[1..], sender, m);
      var b := Broadcast(att, sender, m);
      var o := Others(att, sender);
      forall k | 0 <= k < |b| ensures b[k] == Envelope(o[k], m) {
        if att[0] != sender && k > 0 {
          assert b[k] == Broadcast(att[1..], sender, m)[k - 1];
          assert o[k] == Others(att[1..], sender)[k - 1];
        }
      }
      forall a | a in att && a != sender ensures Envelope(a, m) in b {
        assert a in o;
        var k :| 0 <= k < |o| && o[k] == a;
        assert b[k] == Envelope(a, m);
      }
    }
  }

  // ---------------------------------------------------------------------
  // One function per event

  /** A new socket arrives: it is attached, told the first free index (or -1);
    * a rejected socket stops there. Otherwise its slot becomes not-ready, the
    * others are told, and its inactivity timer starts. */
  function ConnectStep<P>(st: State<P>, sid: SocketId): (r: State<P>)
    requires WellFormed(st) && sid !in st.playerIndex
    ensures WellFormed(r)
  {
    DistinctAppend(st.attached, sid);
    var i := FirstFree(st.slots);
    var att := st.attached + [sid];
    var told := st.outbox + [Envelope(sid, PlayerNumber(i))];
    if i == -1 then
      st.(attached := att, playerIndex := st.playerIndex[sid := -1], outbox := told)
    else
      State(st.slots[i := NotReady], att, st.playerIndex[sid := i], st.timers + {sid},
            told + Broadcast(att, sid, PlayerConnection(i)))
  }

  /** The transport drops a socket. An active one frees its slot and the others
    * are told; the timer is not cancelled. */
  function DisconnectStep<P>(st: State<P>, sid: SocketId): (r: State<P>)
    requires WellFormed(st)
    ensures WellFormed(r)
  {
    OthersMembers(st.attached, sid);
    if sid !in st.attached then st
    else
      var att := Others(st.attached, sid);
      var i := st.playerIndex[sid];
      if i == -1 then st.(attached := att)
      else
        st.(slots := st.slots[i := Empty], attached := att,
            outbox := st.outbox + Broadcast(st.attached, sid, PlayerConnection(i)))
  }

  /** `player-ready`: tell the others, then mark the sender's slot ready,
    * whatever the slot held. */
  function ReadyStep<P>(st: State<P>, sid: SocketId): (r: State<P>)
    requires WellFormed(st)
    ensures WellFormed(r)
  {
    if !Active(st, sid) then st
    else
      var i := st.playerIndex[sid];
      st.(outbox := st.outbox + Broadcast(st.attached, sid, EnemyReady(i)),
          slots := st.slots[i := Ready])
  }

  /** `check-players`: the snapshot, to the asking socket only. */
  function CheckPlayersStep<P>(st: State<P>, sid: SocketId): (r: State<P>)
    requires WellFormed(st)
    ensures WellFormed(r)
  {
    if !Active(st, sid) then st
    else st.(outbox := st.outbox + [Envelope(sid, CheckPlayers(Snapshot(st.slots)))])
  }

  /** `fire` and `fire-reply`: the payload, verbatim, to every other socket. */
  function RelayStep<P>(st: State<P>, sid: SocketId, m: Message<P>): (r: State<P>)
    requires WellFormed(st)
    ensures WellFormed(r)
  {
    if !Active(st, sid) then st
    else st.(outbox := st.outbox + Broadcast(st.attached, sid, m))
  }

  /** The inactivity timer: free the slot it was started for, unconditionally;
    * if the socket is still open, send it `timeout` and close it, which runs
    * the disconnect handler. On a socket already closed the message is lost and
    * closing again does nothing. */
  function TimerStep<P>(st: State<P>, sid: SocketId): (r: State<P>)
    requires WellFormed(st)
    ensures WellFormed(r)
  {
    if sid !in st.timers then st
    else
      var i := st.playerIndex[sid];
      var released := st.(slots := st.slots[i := Empty], timers := st.timers - {sid});
      if sid in st.attached then
        DisconnectStep(released.(outbox := released.outbox + [Envelope(sid, Timeout)]), sid)
      else released
  }

  /** A connection whose id the transport has already used cannot arrive. */
  predicate Enabled<P>(st: State<P>, ev: Event<P>) {
    ev.Connect? ==> ev.sid !in st.playerIndex
  }

  function Step<P>(st: State<P>, ev: Event<P>): (r: State<P>)
    requires WellFormed(st)
    ensures WellFormed(r)
  {
    if !Enabled(st, ev) then st
    else
      match ev
      case Connect(sid) => ConnectStep(st, sid)
      case Disconnect(sid) => DisconnectStep(st, sid)
      case PlayerReady(sid) => ReadyStep(st, sid)
      case CheckPlayersRequest(sid) => CheckPlayersStep(st, sid)
      case FireEvent(sid, id) => RelayStep(st, sid, Fire(id))
      case FireReplyEvent(sid, square) => RelayStep(st, sid, FireReply(square))
      case TimerFires(sid) => TimerStep(st, sid)
  }
}
