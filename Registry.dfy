// The two-slot player registry of the relay server: the module-level array
// `connections` whose entries are null (empty), false (connected, not ready)
// or true (connected and ready).

module Registry {

  /** One registry entry; `Empty`, `NotReady`, `Ready` stand for null, false, true. */
  datatype SlotState = Empty | NotReady | Ready

  /** One element of the `check-players` reply. */
  datatype SlotView = SlotView(connected: bool, ready: bool)

  /** Number of entries of the registry; it is created as `[null, null]`. */
  const SlotCount: nat := 2

  /** The reply entry for one slot: `{connected:false, ready:false}` for an
    * empty slot, otherwise `{connected:true, ready:<the stored boolean>}`. */
  function View(s: SlotState): (v: SlotView)
    ensures v.connected <==> s != Empty
    ensures v.ready <==> s == Ready
    ensures v.ready ==> v.connected
  {
    if s == Empty then SlotView(false, false) else SlotView(true, s == Ready)
  }

  /** The lowest index whose slot is empty, or -1 when every slot is taken. */
  function FirstFree(slots: seq<SlotState>): (r: int)
    ensures r == -1 <==> forall k :: 0 <= k < |slots| ==> slots[k] != Empty
    ensures r != -1 ==> 0 <= r < |slots| && slots[r] == Empty
    ensures r != -1 ==> forall k :: 0 <= k < r ==> slots[k] != Empty
  {
    if slots == [] then -1
    else if slots[0] == Empty then 0
    else
      var r := FirstFree(slots[1..]);
      if r == -1 then -1 else r + 1
  }

  /** The `check-players` list: one view per slot, in index order. */
  function Snapshot(slots: seq<SlotState>): (r: seq<SlotView>)
    ensures |r| == |slots|
    ensures forall k :: 0 <= k < |slots| ==> r[k] == View(slots[k])
  {
    if slots == [] then []
    else Snapshot(slots[..|slots| - 1]) + [View(slots[|slots| - 1])]
  }

  /** How many entries of a `check-players` list say `connected`. */
  function ConnectedCount(views: seq<SlotView>): (n: nat)
    ensures n <= |views|
    ensures n == 0 <==> forall k :: 0 <= k < |views| ==> !views[k].connected
  {
    if views == [] then 0
    else (if views[0].connected then 1 else 0) + ConnectedCount(views[1..])
  }

  /** The slot search of the connection handler: walk the registry in index
    * order and stop at the first empty entry. */
  method FindFreeSlot(slots: array<SlotState>) returns (playerIndex: int)
    ensures playerIndex == FirstFree(slots[..])
    ensures playerIndex == -1 <==> forall k :: 0 <= k < slots.Length ==> slots[k] != Empty
    ensures playerIndex != -1 ==> 0 <= playerIndex < slots.Length && slots[playerIndex] == Empty
  {
    playerIndex := -1;
    var i := 0;
    while i < slots.Length
      invariant 0 <= i <= slots.Length
      invariant forall k :: 0 <= k < i ==> slots[k] != Empty
    {
      if slots[i] == Empty {
        playerIndex := i;
        break;
      }
      i := i + 1;
    }
  }

  /** The `check-players` loop: push one view per registry entry. */
  method BuildSnapshot(slots: array<SlotState>) returns (players: seq<SlotView>)
    ensures players == Snapshot(slots[..])
  {
    players := [];
    var i := 0;
    while i < slots.Length
      invariant 0 <= i <= slots.Length
      invariant |players| == i
      invariant forall k :: 0 <= k < i ==> players[k] == View(slots[k])
    {
      players := players + [View(slots[i])];
      i := i + 1;
    }
  }

  /** However the registry is filled, a snapshot of it never reports more
    * connected slots than the registry has entries. */
  lemma {:induction false} SnapshotConnectedBound(slots: seq<SlotState>)
    requires |slots| == SlotCount
    ensures ConnectedCount(Snapshot(slots)) <= 2
    ensures ConnectedCount(Snapshot(slots)) == 2 <==> FirstFree(slots) == -1
  {
    var v := Snapshot(slots);
    assert v == [View(slots[0]), View(slots[1])];
    assert v[1..] == [View(slots[1])];
    assert v[1..][1..] == [];
  }
}
