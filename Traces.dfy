// Two concrete runs of the relay, event by event: an ordinary session, and
// the interleaving in which an inactivity timer that was never cancelled
// frees a slot that has been handed to somebody else.

module Traces {
  import opened Registry
  import opened Relay
  import opened RelayLemmas

  // ---------------------------------------------------------------------
  // A session: A (socket 1) and B (socket 2) take slots 0 and 1, C (socket 3)
  // is turned away, B signals ready and asks for the status, A fires at "C4",
  // and A leaves.

  const SessionEvents: seq<Event<string>> :=
    [Connect(1), Connect(2), Connect(3), PlayerReady(2), CheckPlayersRequest(2), FireEvent(1, "C4"), Disconnect(1)]

  const AJoined: State<string> :=
    State([NotReady, Empty], [1], map[1 := 0], {1}, [Envelope(1, PlayerNumber(0))])
  const BJoined: State<string> :=
    State([NotReady, NotReady], [1, 2], map[1 := 0, 2 := 1], {1, 2},
          AJoined.outbox + [Envelope(2, PlayerNumber(1)), Envelope(1, PlayerConnection(1))])
  const CRejected: State<string> :=
    BJoined.(attached := [1, 2, 3], playerIndex := BJoined.playerIndex[3 := -1],
             outbox := BJoined.outbox + [Envelope(3, PlayerNumber(-1))])
  const BReady: State<string> :=
    CRejected.(slots := [NotReady, Ready],
               outbox := CRejected.outbox + [Envelope(1, EnemyReady(1)), Envelope(3, EnemyReady(1))])
  const BChecked: State<string> :=
    BReady.(outbox := BReady.outbox + [Envelope(2, CheckPlayers([SlotView(true, false), SlotView(true, true)]))])
  const AFired: State<string> :=
    BChecked.(outbox := BChecked.outbox + [Envelope(2, Fire("C4")), Envelope(3, Fire("C4"))])
  const ALeft: State<string> :=
    AFired.(slots := [Empty, Ready], attached := [2, 3],
            outbox := AFired.outbox + [Envelope(2, PlayerConnection(0)), Envelope(3, PlayerConnection(0))])

  lemma SessionJoinA()
    ensures Step(Init(), SessionEvents[0]) == AJoined
  {
    assert FirstFree([Empty, Empty]) == 0;
    assert Broadcast<string>([1], 1, PlayerConnection(0)) == [];
  }

  lemma SessionJoinB()
    ensures Step(AJoined, SessionEvents[1]) == BJoined
  {
    assert FirstFree([NotReady, Empty]) == 1;
    assert Broadcast<string>([1, 2], 2, PlayerConnection(1)) == [Envelope(1, PlayerConnection(1))];
  }

  lemma SessionRejectC()
    ensures Step(BJoined, SessionEvents[2]) == CRejected
  {
    assert FirstFree([NotReady, NotReady]) == -1;
  }

  lemma SessionReadyB()
    ensures Step(CRejected, SessionEvents[3]) == BReady
  {
    assert Broadcast<string>([1, 2, 3], 2, EnemyReady(1)) == [Envelope(1, EnemyReady(1)), Envelope(3, EnemyReady(1))];
  }

  lemma SessionCheckB()
    ensures Step(BReady, SessionEvents[4]) == BChecked
  {
    assert Snapshot([NotReady, Ready]) == [SlotView(true, false), SlotView(true, true)];
  }

  lemma SessionFireA()
    ensures Step(BChecked, SessionEvents[5]) == AFired
  {
    assert Broadcast<string>([1, 2, 3], 1, Fire("C4")) == [Envelope(2, Fire("C4")), Envelope(3, Fire("C4"))];
  }

  lemma SessionEnds()
    ensures Step(AFired, SessionEvents[6]) == ALeft
  {
    assert Others([1, 2, 3], 1) == [2, 3];
    assert Broadcast<string>([1, 2, 3], 1, PlayerConnection(0)) ==
      [Envelope(2, PlayerConnection(0)), Envelope(3, PlayerConnection(0))];
  }

  lemma SessionOutbox()
    ensures ALeft.outbox == [
      Envelope(1, PlayerNumber(0)),
      Envelope(2, PlayerNumber(1)), Envelope(1, PlayerConnection(1)),
      Envelope(3, PlayerNumber(-1)),
      Envelope(1, EnemyReady(1)), Envelope(3, EnemyReady(1)),
      Envelope(2, CheckPlayers([SlotView(true, false), SlotView(true, true)])),
      Envelope(2, Fire("C4")), Envelope(3, Fire("C4")),
      Envelope(2, PlayerConnection(0)), Envelope(3, PlayerConnection(0))]
  {
  }

  lemma SessionRun()
    ensures Run(Init(), SessionEvents) == ALeft
  {
    SessionJoinA();
    SessionJoinB();
    SessionRejectC();
    SessionReadyB();
    SessionCheckB();
    SessionFireA();
    SessionEnds();
    var evs := SessionEvents;
    assert Run(ALeft, evs[7..]) == ALeft;
    assert Run(AFired, evs[6..]) == ALeft;
    assert Run(BChecked, evs[5..]) == ALeft;
    assert Run(BReady, evs[4..]) == ALeft;
    assert Run(CRejected, evs[3..]) == ALeft;
    assert Run(BJoined, evs[2..]) == ALeft;
    assert Run(AJoined, evs[1..]) == ALeft;
  }

  /** Every message of the session, its recipient, and the final registry: A
    * is told index 0, B index 1 and A hears of B; C is told -1 and changes
    * nothing, yet still hears every later broadcast; B's readiness reaches A
    * and C but not B; B's status query is answered to B alone; A's shot reaches
    * B and C verbatim but not A; A's departure frees slot 0 and is announced.
    * A's inactivity timer is still pending afterwards. */
  lemma Session()
    ensures var r := Run(Init(), SessionEvents);
      && r.slots == [Empty, Ready]
      && Snapshot(r.slots) == [SlotView(false, false), SlotView(true, true)]
      && r.attached == [2, 3]
      && 1 in r.timers
      && r.outbox == [
           Envelope(1, PlayerNumber(0)),
           Envelope(2, PlayerNumber(1)), Envelope(1, PlayerConnection(1)),
           Envelope(3, PlayerNumber(-1)),
           Envelope(1, EnemyReady(1)), Envelope(3, EnemyReady(1)),
           Envelope(2, CheckPlayers([SlotView(true, false), SlotView(true, true)])),
           Envelope(2, Fire("C4")), Envelope(3, Fire("C4")),
           Envelope(2, PlayerConnection(0)), Envelope(3, PlayerConnection(0))]
  {
    SessionRun();
    SessionOutbox();
    assert Snapshot([Empty, Ready]) == [SlotView(false, false), SlotView(true, true)];
  }

  // ---------------------------------------------------------------------
  // The stale timer: socket 0 takes slot 0 and leaves, socket 1 takes slot
  // 0, socket 0's timer fires and frees slot 0 under socket 1, and socket 2
  // is given slot 0 as well.

  const StaleEvents: seq<Event<int>> := [Connect(0), Disconnect(0), Connect(1), TimerFires(0), Connect(2)]

  const FirstHolds: State<int> :=
    State([NotReady, Empty], [0], map[0 := 0], {0}, [Envelope(0, PlayerNumber(0))])
  const FirstLeft: State<int> :=
    FirstHolds.(slots := [Empty, Empty], attached := [])
  const SecondHolds: State<int> :=
    State([NotReady, Empty], [1], map[0 := 0, 1 := 0], {0, 1}, FirstLeft.outbox + [Envelope(1, PlayerNumber(0))])
  const StaleFired: State<int> :=
    SecondHolds.(slots := [Empty, Empty], timers := {1})
  const ThirdHolds: State<int> :=
    State([NotReady, Empty], [1, 2], map[0 := 0, 1 := 0, 2 := 0], {1, 2},
          StaleFired.outbox + [Envelope(2, PlayerNumber(0)), Envelope(1, PlayerConnection(0))])

  lemma StaleFirstVisit()
    ensures Step(Init(), StaleEvents[0]) == FirstHolds
    ensures Step(FirstHolds, StaleEvents[1]) == FirstLeft
  {
    assert FirstFree([Empty, Empty]) == 0;
    assert Broadcast<int>([0], 0, PlayerConnection(0)) == [];
    assert Others([0], 0) == [];
  }

  lemma StaleSecondJoins()
    ensures Step(FirstLeft, StaleEvents[2]) == SecondHolds
  {
    assert FirstFree(FirstLeft.slots) == 0;
    assert Broadcast<int>([1], 1, PlayerConnection(0)) == [];
    var r := ConnectStep(FirstLeft, 1);
    assert r.slots == SecondHolds.slots;
    assert r.attached == SecondHolds.attached;
    assert r.playerIndex == SecondHolds.playerIndex;
    assert r.timers == SecondHolds.timers;
    assert r.outbox == SecondHolds.outbox;
  }

  lemma StaleTimerFires()
    ensures Step(SecondHolds, StaleEvents[3]) == StaleFired
  {
  }

  lemma StaleThirdJoins()
    ensures Step(StaleFired, StaleEvents[4]) == ThirdHolds
  {
    assert FirstFree([Empty, Empty]) == 0;
    assert Broadcast<int>([1, 2], 2, PlayerConnection(0)) == [Envelope(1, PlayerConnection(0))];
  }

  lemma StaleSteps()
    ensures Step(Init(), StaleEvents[0]) == FirstHolds
    ensures Step(FirstHolds, StaleEvents[1]) == FirstLeft
    ensures Step(FirstLeft, StaleEvents[2]) == SecondHolds
    ensures Step(SecondHolds, StaleEvents[3]) == StaleFired
    ensures Step(StaleFired, StaleEvents[4]) == ThirdHolds
  {
    StaleFirstVisit();
    StaleSecondJoins();
    StaleTimerFires();
    StaleThirdJoins();
  }

  lemma StaleRun()
    ensures Run(Init(), StaleEvents) == ThirdHolds
  {
    StaleSteps();
    var evs := StaleEvents;
    assert Run(ThirdHolds, evs[5..]) == ThirdHolds;
    assert Run(StaleFired, evs[4..]) == ThirdHolds;
    assert Run(SecondHolds, evs[3..]) == ThirdHolds;
    assert Run(FirstLeft, evs[2..]) == ThirdHolds;
    assert Run(FirstHolds, evs[1..]) == ThirdHolds;
  }

  lemma StalePrefixRun()
    ensures Run(Init(), StaleEvents[..3]) == SecondHolds
  {
    var pre := StaleEvents[..3];
    assert pre == [Connect(0), Disconnect(0), Connect(1)];
    StaleFirstVisit();
    StaleSecondJoins();
    assert Run(SecondHolds, pre[3..]) == SecondHolds;
    assert Run(FirstLeft, pre[2..]) == SecondHolds;
    assert Run(FirstHolds, pre[1..]) == SecondHolds;
  }

  /** The disconnect handler never cancels the timer, and the timer frees its
    * slot without asking who holds it now. The result: two attached sockets
    * both hold slot 0, slots are no longer exclusive, and the fourth event is
    * the harmful timer `StepExclusive` has to exclude. */
  lemma StaleTimerSharesSlot()
    ensures HarmfulTimer(Run(Init(), StaleEvents[..3]), StaleEvents[3])
    ensures var r := Run(Init(), StaleEvents);
      && 1 in r.attached && 2 in r.attached
      && r.playerIndex[1] == 0 && r.playerIndex[2] == 0
      && r.slots == [NotReady, Empty]
      && !Exclusive(r)
  {
    StaleRun();
    StalePrefixRun();
    assert 1 in SecondHolds.attached && SecondHolds.playerIndex[1] == 0;
    assert 1 in ThirdHolds.attached && 2 in ThirdHolds.attached;
  }
}
