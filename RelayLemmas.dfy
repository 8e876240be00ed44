// What the relay's events promise, proved about the step functions of Relay.

module RelayLemmas {
  import opened Registry
  import opened Relay

  // ---------------------------------------------------------------------
  // Every event keeps the state well formed; runs of events

  /** The state after a sequence of events, each one run to completion. */
  function Run<P>(st: State<P>, evs: seq<Event<P>>): (r: State<P>)
    requires WellFormed(st)
    ensures WellFormed(r)
    ensures |r.outbox| >= |st.outbox| && r.outbox[..|st.outbox|] == st.outbox
    decreases |evs|
  {
    if evs == [] then st
    else
      assert Step(st, evs[0]).outbox[..|st.outbox|] == st.outbox;
      Run(Step(st, evs[0]), evs[1..])
  }

  // ---------------------------------------------------------------------
  // The invariant of every reachable state

  /** Slot `i` is held by a socket that is still attached. */
  ghost predicate Owned<P>(st: State<P>, i: int) {
    exists s :: s in st.attached && s in st.playerIndex && st.playerIndex[s] == i
  }

  /** A slot that is not empty is held by an attached socket, and every
    * attached socket that obtained a slot still has its timer pending. */
  ghost predicate Inv<P>(st: State<P>) {
    && WellFormed(st)
    && (forall i :: 0 <= i < |st.slots| && st.slots[i] != Empty ==> Owned(st, i))
    && (forall s :: s in st.attached && st.playerIndex[s] != -1 ==> s in st.timers)
  }

  lemma InitInv<P>()
    ensures Inv(Init<P>())
  {
  }

  /** Closing an active socket keeps the invariant, whether the transport or
    * the timer closes it. */
  lemma DisconnectInv<P>(st: State<P>, sid: SocketId)
    requires WellFormed(st)
    requires forall i :: 0 <= i < |st.slots| && st.slots[i] != Empty ==> Owned(st, i)
    requires forall s :: s in st.attached && s != sid && st.playerIndex[s] != -1 ==> s in st.timers
    ensures Inv(DisconnectStep(st, sid))
  {
    OthersMembers(st.attached, sid);
    var r := DisconnectStep(st, sid);
    if sid in st.attached {
      forall i | 0 <= i < |r.slots| && r.slots[i] != Empty ensures Owned(r, i) {
        var s :| s in st.attached && s in st.playerIndex && st.playerIndex[s] == i;
        assert s != sid;
        assert s in r.attached;
      }
    }
  }

  lemma {:induction false} StepInv<P>(st: State<P>, ev: Event<P>)
    requires Inv(st)
    ensures Inv(Step(st, ev))
  {
    var r := Step(st, ev);
    if Enabled(st, ev) {
      match ev
      case Connect(sid) =>
        forall i | 0 <= i < |r.slots| && r.slots[i] != Empty ensures Owned(r, i) {
          if i == FirstFree(st.slots) {
            assert sid in r.attached && r.playerIndex[sid] == i;
          } else {
            var s :| s in st.attached && s in st.playerIndex && st.playerIndex[s] == i;
            assert s in r.attached && r.playerIndex[s] == i;
          }
        }
      case Disconnect(sid) => DisconnectInv(st, sid);
      case PlayerReady(sid) =>
        forall i | 0 <= i < |r.slots| && r.slots[i] != Empty ensures Owned(r, i) {
          if Active(st, sid) && i == st.playerIndex[sid] {
            assert sid in r.attached;
          }
        }
      case TimerFires(sid) =>
        if sid in st.timers {
          var i := st.playerIndex[sid];
          var released := st.(slots := st.slots[i := Empty], timers := st.timers - {sid});
          var told := released.(outbox := released.outbox + [Envelope(sid, Timeout)]);
          if sid in st.attached {
            forall j | 0 <= j < |told.slots| && told.slots[j] != Empty ensures Owned(told, j) {
              assert Owned(st, j);
            }
            DisconnectInv(told, sid);
          } else {
            forall j | 0 <= j < |r.slots| && r.slots[j] != Empty ensures Owned(r, j) {
              assert Owned(st, j);
            }
          }
        }
      case _ =>
    }
  }

  lemma {:induction false} RunInv<P>(st: State<P>, evs: seq<Event<P>>)
    requires Inv(st)
    ensures Inv(Run(st, evs))
    decreases |evs|
  {
    if evs != [] {
      StepInv(st, evs[0]);
      RunInv(Step(st, evs[0]), evs[1..]);
    }
  }

  /** However connections, disconnections, timeouts and game events are
    * interleaved from the initial registry, the registry keeps exactly two
    * entries, `check-players` can report at most two connected slots, and no
    * slot stays occupied by a socket that has gone. */
  lemma Reachable<P>(evs: seq<Event<P>>)
    ensures Inv(Run(Init<P>(), evs))
    ensures |Run(Init<P>(), evs).slots| == 2
    ensures ConnectedCount(Snapshot(Run(Init<P>(), evs).slots)) <= 2
  {
    InitInv<P>();
    RunInv(Init<P>(), evs);
    SnapshotConnectedBound(Run(Init<P>(), evs).slots);
  }

  // ---------------------------------------------------------------------
  // Connecting

  /** A broadcast appended to what was already sent: the new part is the
    * broadcast, and no socket appears twice in it. */
  lemma AppendedBroadcast<P>(pre: seq<Envelope<P>>, att: seq<SocketId>, sender: SocketId, m: Message<P>)
    requires Distinct(att)
    ensures var r := pre + Broadcast(att, sender, m);
      && r[..|pre|] == pre
      && r[|pre|..] == Broadcast(att, sender, m)
      && DistinctRecipients(r[|pre|..])
  {
    var r := pre + Broadcast(att, sender, m);
    assert r[|pre|..] == Broadcast(att, sender, m);
  }

  /** A socket that finds both slots taken is told -1 and attached; nothing
    * else changes. */
  lemma ConnectRejected<P>(st: State<P>, sid: SocketId)
    requires WellFormed(st) && sid !in st.playerIndex && FirstFree(st.slots) == -1
    ensures ConnectStep(st, sid) ==
      st.(attached := st.attached + [sid], playerIndex := st.playerIndex[sid := -1],
          outbox := st.outbox + [Envelope(sid, PlayerNumber(-1))])
  {
  }

  /** A socket that finds a free slot takes the lowest one, not ready, and
    * arms its timer; it alone is told its index, then every other attached
    * socket is told the slot is taken, each exactly once. */
  lemma {:induction false} ConnectAccepted<P>(st: State<P>, sid: SocketId)
    requires WellFormed(st) && sid !in st.playerIndex && FirstFree(st.slots) != -1
    ensures var r, i := ConnectStep(st, sid), FirstFree(st.slots);
      && r.slots == st.slots[i := NotReady]
      && r.attached == st.attached + [sid]
      && r.playerIndex == st.playerIndex[sid := i]
      && r.timers == st.timers + {sid}
      && r.outbox[..|st.outbox| + 1] == st.outbox + [Envelope(sid, PlayerNumber(i))]
      && (forall e :: e in r.outbox[|st.outbox| + 1..] ==>
            e.msg == PlayerConnection(i) && e.to != sid && e.to in st.attached)
      && (forall a :: a in st.attached ==> Envelope(a, PlayerConnection(i)) in r.outbox[|st.outbox| + 1..])
      && DistinctRecipients(r.outbox[|st.outbox| + 1..])
  {
    var r, i := ConnectStep(st, sid), FirstFree(st.slots);
    var att := st.attached + [sid];
    BroadcastDelivers<P>(att, sid, PlayerConnection(i));
    forall a | a in st.attached ensures a != sid && a in att {
      assert a in st.playerIndex;
    }
    DistinctAppend(st.attached, sid);
    AppendedBroadcast(st.outbox + [Envelope(sid, PlayerNumber(i))], att, sid, PlayerConnection(i));
  }

  /** A new socket is given the lowest empty index, or -1 exactly when both
    * slots are taken. Accepted: only that slot changes, to not-ready; the
    * newcomer alone is told its index and every other attached socket (the
    * rejected ones too) is told the slot is occupied. Rejected: it is told -1,
    * stays attached, and nothing else changes. */
  lemma {:induction false} ConnectAssigns<P>(st: State<P>, sid: SocketId)
    requires WellFormed(st) && sid !in st.playerIndex
    ensures var i := FirstFree(st.slots);
      && (i == -1 <==> st.slots[0] != Empty && st.slots[1] != Empty)
      && (i == 0 <==> st.slots[0] == Empty)
      && (i == 1 <==> st.slots[0] != Empty && st.slots[1] == Empty)
    ensures var r, i := ConnectStep(st, sid), FirstFree(st.slots);
      && r.attached == st.attached + [sid]
      && r.playerIndex == st.playerIndex[sid := i]
      && r.outbox[..|st.outbox| + 1] == st.outbox + [Envelope(sid, PlayerNumber(i))]
    ensures var r := ConnectStep(st, sid);
      FirstFree(st.slots) == -1 ==>
        && r.slots == st.slots && r.timers == st.timers
        && r.outbox == st.outbox + [Envelope(sid, PlayerNumber(-1))]
    ensures var r, i := ConnectStep(st, sid), FirstFree(st.slots);
      i != -1 ==>
        && r.slots[i] == NotReady
        && (forall j :: 0 <= j < |st.slots| && j != i ==> r.slots[j] == st.slots[j])
        && r.timers == st.timers + {sid}
        && (forall e :: e in r.outbox[|st.outbox| + 1..] ==>
              e.msg == PlayerConnection(i) && e.to != sid && e.to in st.attached)
        && (forall a :: a in st.attached ==> Envelope(a, PlayerConnection(i)) in r.outbox[|st.outbox| + 1..])
        && DistinctRecipients(r.outbox[|st.outbox| + 1..])
  {
    if FirstFree(st.slots) == -1 {
      ConnectRejected(st, sid);
      assert ConnectStep(st, sid).outbox[..|st.outbox| + 1] == st.outbox + [Envelope(sid, PlayerNumber(-1))];
    } else {
      ConnectAccepted(st, sid);
    }
  }

  // ---------------------------------------------------------------------
  // Disconnecting and the inactivity timer

  /** An active socket that disconnects frees its slot, which `check-players`
    * then reports as neither connected nor ready; the other slot is untouched,
    * the socket is detached, every remaining socket is told the index, and the
    * socket's timer stays pending. */
  lemma {:induction false} DisconnectFrees<P>(st: State<P>, sid: SocketId)
    requires WellFormed(st) && Active(st, sid)
    ensures var r, i := DisconnectStep(st, sid), st.playerIndex[sid];
      && r.slots == st.slots[i := Empty]
      && Snapshot(r.slots)[i] == SlotView(false, false)
      && (forall x :: x in r.attached <==> x in st.attached && x != sid)
      && r.timers == st.timers
      && r.outbox[..|st.outbox|] == st.outbox
      && (forall e :: e in r.outbox[|st.outbox|..] ==> e.msg == PlayerConnection(i) && e.to in r.attached)
      && (forall a :: a in r.attached ==> Envelope(a, PlayerConnection(i)) in r.outbox[|st.outbox|..])
      && DistinctRecipients(r.outbox[|st.outbox|..])
      && r.playerIndex == st.playerIndex
  {
    var r, i := DisconnectStep(st, sid), st.playerIndex[sid];
    OthersMembers(st.attached, sid);
    BroadcastDelivers<P>(st.attached, sid, PlayerConnection(i));
    AppendedBroadcast(st.outbox, st.attached, sid, PlayerConnection(i));
  }

  /** A rejected socket has no handlers: its events change nothing, it has no
    * timer, and when it goes it is merely detached. */
  lemma RejectedInert<P>(st: State<P>, sid: SocketId, payload: P)
    requires WellFormed(st) && sid in st.attached && st.playerIndex[sid] == -1
    ensures ReadyStep(st, sid) == st && CheckPlayersStep(st, sid) == st
    ensures RelayStep(st, sid, Fire(payload)) == st && RelayStep(st, sid, FireReply(payload)) == st
    ensures TimerStep(st, sid) == st
    ensures DisconnectStep(st, sid) == st.(attached := Others(st.attached, sid))
  {
  }

  /** The timer on a still-open socket frees its slot, sends that socket one
    * `timeout` and closes it; the disconnect handler this runs frees the same
    * slot again, with the same result as freeing it once, and tells the rest.
    * A later disconnect event finds the socket gone and does nothing. */
  lemma {:induction false} TimerExpires<P>(st: State<P>, sid: SocketId)
    requires WellFormed(st) && Active(st, sid) && sid in st.timers
    ensures var t, i := TimerStep(st, sid), st.playerIndex[sid];
      && t.slots == st.slots[i := Empty]
      && t.slots == DisconnectStep(st, sid).slots
      && sid !in t.attached && sid !in t.timers
      && t.outbox == st.outbox + [Envelope(sid, Timeout)] + Broadcast(st.attached, sid, PlayerConnection(i))
      && DisconnectStep(t, sid) == t
      && t.attached == Others(st.attached, sid)
      && t.timers == st.timers - {sid}
      && t.playerIndex == st.playerIndex
  {
    OthersMembers(st.attached, sid);
  }

  /** A timer that fires after its socket has gone still frees the slot it
    * was started for, whoever holds that slot now; the `timeout` it sends is
    * lost and closing the socket again does nothing. */
  lemma StaleTimerReleases<P>(st: State<P>, sid: SocketId)
    requires WellFormed(st) && sid in st.timers && sid !in st.attached
    ensures TimerStep(st, sid) == st.(slots := st.slots[st.playerIndex[sid] := Empty], timers := st.timers - {sid})
  {
  }

  /** A disconnect does not cancel the timer. When it fires later and the slot
    * has not been handed out again, freeing it a second time leaves the slot
    * states as one release did, and its `timeout` reaches nobody. */
  lemma {:induction false} ReleaseTwice<P>(st: State<P>, sid: SocketId)
    requires WellFormed(st) && Active(st, sid) && sid in st.timers
    ensures var d := DisconnectStep(st, sid);
      && sid in d.timers
      && TimerStep(d, sid).slots == d.slots
      && TimerStep(d, sid).outbox == d.outbox
      && TimerStep(d, sid).attached == d.attached
  {
    var d := DisconnectStep(st, sid);
    OthersMembers(st.attached, sid);
    assert sid !in d.attached;
  }

  // ---------------------------------------------------------------------
  // Ready, status query, relayed shots

  /** `player-ready` marks the sender's slot ready, whatever it held, leaves
    * the other slot alone, is idempotent on the registry, and tells every
    * other socket (never the sender) the sender's index. */
  lemma {:induction false} ReadyMarks<P>(st: State<P>, sid: SocketId)
    requires WellFormed(st) && Active(st, sid)
    ensures var r, i := ReadyStep(st, sid), st.playerIndex[sid];
      && r.slots[i] == Ready
      && (forall j :: 0 <= j < |st.slots| && j != i ==> r.slots[j] == st.slots[j])
      && ReadyStep(r, sid).slots == r.slots
      && r.attached == st.attached && r.timers == st.timers
      && r.outbox[..|st.outbox|] == st.outbox
      && (forall e :: e in r.outbox[|st.outbox|..] ==> e.msg == EnemyReady(i) && e.to != sid && e.to in st.attached)
      && (forall a :: a in st.attached && a != sid ==> Envelope(a, EnemyReady(i)) in r.outbox[|st.outbox|..])
      && DistinctRecipients(r.outbox[|st.outbox|..])
      && r.playerIndex == st.playerIndex
  {
    var r, i := ReadyStep(st, sid), st.playerIndex[sid];
    BroadcastDelivers<P>(st.attached, sid, EnemyReady(i));
    AppendedBroadcast(st.outbox, st.attached, sid, EnemyReady(i));
  }

  /** `check-players` changes no state and adds one message, for the asker
    * only: two entries in index order, entry i connected exactly when slot i
    * is occupied and ready exactly when it is ready, so ready implies
    * connected. */
  lemma {:induction false} CheckPlayersReplies<P>(st: State<P>, sid: SocketId)
    requires WellFormed(st) && Active(st, sid)
    ensures var r := CheckPlayersStep(st, sid);
      && r.(outbox := st.outbox) == st
      && |r.outbox| == |st.outbox| + 1 && r.outbox[..|st.outbox|] == st.outbox
      && r.outbox[|st.outbox|].to == sid
      && r.outbox[|st.outbox|].msg.CheckPlayers?
      && |r.outbox[|st.outbox|].msg.players| == 2
      && forall k :: 0 <= k < 2 ==>
           var v := r.outbox[|st.outbox|].msg.players[k];
           && (v.connected <==> st.slots[k] != Empty)
           && (v.ready <==> st.slots[k] == Ready)
           && (v.ready ==> v.connected)
  {
    var v := Snapshot(st.slots);
    assert CheckPlayersStep(st, sid).outbox[|st.outbox|] == Envelope(sid, CheckPlayers(v));
  }

  /** `fire` and `fire-reply` change no state; the payload reaches every
    * other attached socket exactly once, unchanged, and never the sender. */
  lemma {:induction false} RelayForwards<P>(st: State<P>, sid: SocketId, m: Message<P>)
    requires WellFormed(st) && Active(st, sid) && (m.Fire? || m.FireReply?)
    ensures var r := RelayStep(st, sid, m);
      && r.(outbox := st.outbox) == st
      && r.outbox[..|st.outbox|] == st.outbox
      && (forall e :: e in r.outbox[|st.outbox|..] ==> e.msg == m && e.to != sid && e.to in st.attached)
      && (forall a :: a in st.attached && a != sid ==> Envelope(a, m) in r.outbox[|st.outbox|..])
      && DistinctRecipients(r.outbox[|st.outbox|..])
  {
    BroadcastDelivers(st.attached, sid, m);
    AppendedBroadcast(st.outbox, st.attached, sid, m);
  }

  // ---------------------------------------------------------------------
  // Slot exclusivity and the stale timer

  /** No two attached sockets hold the same slot, and the slot of every
    * attached socket that holds one is occupied. With `Inv`, a slot is then
    * empty exactly when no attached socket holds it. */
  ghost predicate Exclusive<P>(st: State<P>)
    requires WellFormed(st)
  {
    && (forall s, t :: s in st.attached && t in st.attached && s != t && st.playerIndex[s] != -1 ==>
          st.playerIndex[s] != st.playerIndex[t])
    && (forall s :: s in st.attached && st.playerIndex[s] != -1 ==> st.slots[st.playerIndex[s]] != Empty)
  }

  /** A timer that fires for a socket that has already disconnected. The
    * disconnect handler never cancels the timer, so this event is possible. */
  predicate StaleTimer<P>(st: State<P>, ev: Event<P>) {
    ev.TimerFires? && ev.sid in st.timers && ev.sid !in st.attached
  }

  /** A stale timer whose slot has meanwhile been taken by another attached
    * socket: the one event that can break exclusivity. */
  ghost predicate HarmfulTimer<P>(st: State<P>, ev: Event<P>)
    requires WellFormed(st)
  {
    StaleTimer(st, ev) && Owned(st, st.playerIndex[ev.sid])
  }

  lemma {:induction false} ExclusiveMeansOwnership<P>(st: State<P>)
    requires Inv(st) && Exclusive(st)
    ensures forall i :: 0 <= i < |st.slots| ==> (st.slots[i] == Empty <==> !Owned(st, i))
  {
    forall i | 0 <= i < |st.slots| ensures st.slots[i] == Empty <==> !Owned(st, i) {
      if Owned(st, i) {
        var s :| s in st.attached && s in st.playerIndex && st.playerIndex[s] == i;
        assert st.slots[st.playerIndex[s]] != Empty;
      }
    }
  }

  lemma {:induction false} ConnectExclusive<P>(st: State<P>, sid: SocketId)
    requires Inv(st) && Exclusive(st) && sid !in st.playerIndex
    ensures Exclusive(ConnectStep(st, sid))
  {
    var r, i := ConnectStep(st, sid), FirstFree(st.slots);
    if i != -1 {
      forall s | s in st.attached && st.playerIndex[s] != -1 ensures st.playerIndex[s] != i {
        assert st.slots[st.playerIndex[s]] != Empty;
      }
      forall s | s in r.attached && r.playerIndex[s] != -1 ensures r.slots[r.playerIndex[s]] != Empty {
        if s != sid {
          assert s in st.attached;
        }
      }
      forall s, t | s in r.attached && t in r.attached && s != t && r.playerIndex[s] != -1
        ensures r.playerIndex[s] != r.playerIndex[t]
      {
        if s != sid && t != sid {
          assert s in st.attached && t in st.attached;
        } else if s == sid {
          assert t in st.attached;
        } else {
          assert s in st.attached;
        }
      }
    } else {
      forall s, t | s in r.attached && t in r.attached && s != t && r.playerIndex[s] != -1
        ensures r.playerIndex[s] != r.playerIndex[t]
      {
        assert s in st.attached;
      }
    }
  }

  /** Closing a socket, by the transport or by its own timer, keeps slots
    * exclusive: the slot it frees is held by no other socket. */
  lemma {:induction false} DisconnectExclusive<P>(st: State<P>, sid: SocketId)
    requires WellFormed(st)
    requires forall s, t :: s in st.attached && t in st.attached && s != t && st.playerIndex[s] != -1 ==>
      st.playerIndex[s] != st.playerIndex[t]
    requires forall s :: s in st.attached && s != sid && st.playerIndex[s] != -1 ==>
      st.slots[st.playerIndex[s]] != Empty
    ensures Exclusive(DisconnectStep(st, sid))
  {
    OthersMembers(st.attached, sid);
    var r := DisconnectStep(st, sid);
    if sid in st.attached && st.playerIndex[sid] != -1 {
      forall s | s in r.attached && r.playerIndex[s] != -1 ensures r.slots[r.playerIndex[s]] != Empty {
        assert s in st.attached && s != sid;
      }
    }
  }

  /** A timer keeps slots exclusive unless it is stale and its slot has been
    * handed to another attached socket. */
  lemma {:induction false} TimerExclusive<P>(st: State<P>, sid: SocketId)
    requires WellFormed(st) && Exclusive(st)
    requires sid in st.timers && sid !in st.attached ==> !Owned(st, st.playerIndex[sid])
    ensures Exclusive(TimerStep(st, sid))
  {
    if sid in st.timers && sid !in st.attached {
      var i := st.playerIndex[sid];
      var r := TimerStep(st, sid);
      forall s | s in r.attached && r.playerIndex[s] != -1 ensures r.slots[r.playerIndex[s]] != Empty {
        assert st.playerIndex[s] != i;
      }
    } else if sid in st.timers {
      var i := st.playerIndex[sid];
      var released := st.(slots := st.slots[i := Empty], timers := st.timers - {sid});
      var told := released.(outbox := released.outbox + [Envelope(sid, Timeout)]);
      forall s | s in told.attached && s != sid && told.playerIndex[s] != -1
        ensures told.slots[told.playerIndex[s]] != Empty
      {
        assert st.playerIndex[s] != i;
      }
      DisconnectExclusive(told, sid);
    }
  }

  /** Every event except a stale timer whose slot someone else now holds
    * keeps slots exclusive. */
  lemma {:induction false} StepExclusive<P>(st: State<P>, ev: Event<P>)
    requires Inv(st) && Exclusive(st) && !HarmfulTimer(st, ev)
    ensures Exclusive(Step(st, ev))
  {
    if Enabled(st, ev) {
      match ev
      case Connect(sid) => ConnectExclusive(st, sid);
      case Disconnect(sid) => DisconnectExclusive(st, sid);
      case TimerFires(sid) => TimerExclusive(st, sid);
      case PlayerReady(sid) =>
      case CheckPlayersRequest(sid) =>
      case FireEvent(sid, id) =>
      case FireReplyEvent(sid, square) =>
    }
  }

  /** No event of `evs`, run from `st`, is a harmful timer. */
  ghost predicate NoHarmfulTimer<P>(st: State<P>, evs: seq<Event<P>>)
    requires WellFormed(st)
    decreases |evs|
  {
    evs == [] || (!HarmfulTimer(st, evs[0]) && NoHarmfulTimer(Step(st, evs[0]), evs[1..]))
  }

  /** Slots stay exclusive over a whole run as long as no harmful timer fires. */
  lemma {:induction false} RunExclusive<P>(st: State<P>, evs: seq<Event<P>>)
    requires Inv(st) && Exclusive(st) && NoHarmfulTimer(st, evs)
    ensures Exclusive(Run(st, evs))
    decreases |evs|
  {
    if evs != [] {
      StepInv(st, evs[0]);
      StepExclusive(st, evs[0]);
      RunExclusive(Step(st, evs[0]), evs[1..]);
    }
  }

  /** From the initial registry, every run without a harmful timer ends with
    * no slot held by two attached sockets, and with every held slot occupied. */
  lemma ReachableExclusive<P>(evs: seq<Event<P>>)
    requires NoHarmfulTimer(Init<P>(), evs)
    ensures Exclusive(Run(Init<P>(), evs))
  {
    InitInv<P>();
    RunExclusive(Init<P>(), evs);
  }
}
