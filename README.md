# Battleship relay server: slot registry and event relay

The server pairs two clients into one match and relays their game events.
It keeps a registry of exactly two player slots, created as `[null, null]`.
Each entry is `null` (empty), `false` (connected, not ready) or `true`
(connected and ready). Every new socket runs the connection handler:

- It looks for the lowest empty slot and tells the socket its index, or -1.
- A rejected socket gets nothing more. It stays attached, so it still hears
  other sockets' broadcasts.
- An accepted socket marks its slot not ready and announces
  `player-connection(index)` to every other socket.
- It then registers handlers for `disconnect`, `player-ready`,
  `check-players`, `fire` and `fire-reply`.
- It starts a 10-minute inactivity timer. When the timer fires, it frees the
  slot, sends `timeout`, and closes the socket.

The model has five modules:

- `Registry` (Registry.dfy): the three slot states `Empty | NotReady | Ready`.
  It holds the first-free search and the `check-players` snapshot, each as a
  function and as the loop the handler runs (`FindFreeSlot`, `BuildSnapshot`).
- `Relay` (Relay.dfy): the whole server state as a value. This is the
  registry, the attached sockets in connection order, each socket's computed
  `playerIndex` (-1 when rejected), the pending timers, and an outbox of
  every emitted `(recipient, message)`. There is one function per event.
  `Broadcast` is `socket.broadcast.emit`: one copy of the message for each
  attached socket except the sender.
- `RelayLemmas` (RelayLemmas.dfy): what each event promises, the invariant
  of every reachable state, and slot exclusivity.
- `Traces` (Traces.dfy): two concrete runs. One is an ordinary session. The
  other shows the stale-timer hazard.
- `Server` (Server.dfy): the class `RelayServer`. It holds the registry as a
  length-2 array updated in place, and has one method per handler. Each
  method is proved to perform exactly the matching `Relay` step.

Fire and fire-reply payloads are an opaque type parameter `P`, relayed
unchanged. Timer expiry is an explicit event `TimerFires(sid)`. Every handler
runs to completion as one atomic step.

In three places the code does less than one would expect, and the model
follows the code:

- One would expect a disconnect to cancel the timer. The code does not
  (server.js:111-115 against 188-192).
- One would expect the timer to check that its socket still holds the slot.
  The code does not: it writes `null` to that slot unconditionally.
- One would expect `player-ready` on an empty slot to be a no-op. The code
  writes `true` without checking (server.js:126).

`Traces.StaleTimerSharesSlot` shows what follows from these. A socket's slot
is handed to a newcomer after the socket leaves. The old timer then frees the
slot under the newcomer, and a third socket is given the same slot.
`RelayLemmas.StepExclusive` proves that every other event keeps slots
exclusive, and `RelayLemmas.ReachableExclusive` extends this to every run from
the start in which no such timer fires.

## Model

| member | source | states |
|---|---|---|
| `Registry.View` | server.js:152-154 | a `check-players` entry is connected exactly when the slot is not null, ready exactly when it holds `true`; ready implies connected |
| `Registry.FirstFree` | server.js:82-88 | the result is the lowest index whose slot is empty; it is -1 exactly when every slot is occupied |
| `Registry.FindFreeSlot` | server.js:82-88 | the handler's scan-and-break loop returns the first-free index (or -1 exactly when none is empty) |
| `Registry.Snapshot` | server.js:150-155 | the status list has one entry per slot, in index order, entry k being the view of slot k |
| `Registry.BuildSnapshot` | server.js:149-156 | the push loop builds exactly that index-ordered list |
| `Registry.SnapshotConnectedBound` | server.js:18 | a two-entry registry never reports more than two connected slots, and reports two exactly when no slot is free |
| `Relay.Init` | server.js:18 | the server starts with both slots empty, no socket attached, nothing sent |
| `Relay.Broadcast` | server.js:97 | `socket.broadcast.emit`: no more copies than attached sockets, each carrying the message unchanged to an attached socket other than the sender; when no socket is attached twice, no socket receives two copies |
| `Relay.BroadcastDelivers` | server.js:97 | a broadcast is, copy for copy, the attached sockets other than the sender in connection order, so every attached socket except the sender gets the message |
| `Relay.ConnectStep` | server.js:81-97 | connecting a new socket keeps the state well formed: two slots, distinct attached sockets, indices -1, 0 or 1, timers only for accepted sockets |
| `Relay.DisconnectStep` | server.js:111-115 | a disconnect keeps the state well formed |
| `Relay.ReadyStep` | server.js:124-127 | `player-ready` keeps the state well formed |
| `Relay.CheckPlayersStep` | server.js:149-157 | `check-players` keeps the state well formed |
| `Relay.RelayStep` | server.js:165-178 | `fire` and `fire-reply` keep the state well formed |
| `Relay.TimerStep` | server.js:188-192 | the timer keeps the state well formed |
| `Relay.Step` | server.js:81-194 | every event keeps the state well formed |
| `RelayLemmas.Run` | server.js:81-194 | a sequence of events run one after another leaves a well-formed state and only appends to what was sent |
| `RelayLemmas.InitInv` | server.js:18 | the initial state satisfies the invariant |
| `RelayLemmas.DisconnectInv` | server.js:111-115 | closing a socket leaves no occupied slot without an attached holder |
| `RelayLemmas.StepInv` | server.js:81-194 | every event preserves the invariant: an occupied slot is held by an attached socket, and every accepted attached socket has its timer pending |
| `RelayLemmas.RunInv` | server.js:81-194 | every sequence of events preserves the invariant |
| `RelayLemmas.Reachable` | server.js:83-88 | however events interleave from the start, the registry has exactly two entries and `check-players` reports at most two connected slots |
| `RelayLemmas.ConnectRejected` | server.js:82-94 | with both slots taken, the newcomer is attached and told -1, and nothing else changes |
| `RelayLemmas.ConnectAccepted` | server.js:82-97 | with a slot free, the lowest free one becomes not-ready and the newcomer's, its timer is armed, it alone is told its index, and every other attached socket is told exactly once |
| `RelayLemmas.ConnectAssigns` | server.js:82-97 | connecting assigns the lowest empty index, or -1 exactly when both are occupied. Accepted: only that slot changes, to not-ready, and every other attached socket is told the index exactly once. Rejected: the socket hears -1, stays attached, and nothing else changes |
| `RelayLemmas.DisconnectFrees` | server.js:111-115 | a disconnect empties the slot (snapshot entry `{false,false}`), leaves the other slot, detaches the socket, tells each remaining socket exactly once, leaves the recorded indices alone, and leaves the timer pending |
| `RelayLemmas.RejectedInert` | server.js:90-94 | a rejected socket's events change nothing, it has no timer, and its disconnect only detaches it |
| `RelayLemmas.TimerExpires` | server.js:188-192 | the timer on an open socket empties its slot, sends one `timeout` then the vacancy broadcast, detaches only that socket and cancels only its timer, leaves the recorded indices alone; release twice equals release once; a later disconnect is a no-op |
| `RelayLemmas.StaleTimerReleases` | server.js:188-192 | a timer firing after its socket has gone still empties the slot it was started for, unconditionally, and changes nothing else but its own pending entry |
| `RelayLemmas.ReleaseTwice` | server.js:188-192 | a timer firing after the disconnect (slot not reused) leaves the registry, sockets and outbox as the disconnect left them |
| `RelayLemmas.ReadyMarks` | server.js:124-127 | `player-ready` sets the sender's slot ready, leaves the other, is idempotent on the registry, leaves sockets, timers and indices alone, and tells every other socket exactly once but never the sender |
| `RelayLemmas.CheckPlayersReplies` | server.js:149-157 | `check-players` changes no state and sends one reply, to the asker only: two entries in index order, connected iff occupied, ready iff ready |
| `RelayLemmas.RelayForwards` | server.js:165-178 | `fire` / `fire-reply` change no state and deliver the payload verbatim to each other attached socket exactly once, never to the sender |
| `RelayLemmas.ExclusiveMeansOwnership` | server.js:82-95 | with exclusivity, a slot is empty exactly when no attached socket holds it |
| `RelayLemmas.ConnectExclusive` | server.js:82-97 | connecting keeps slots exclusive |
| `RelayLemmas.DisconnectExclusive` | server.js:111-115 | a disconnect keeps slots exclusive |
| `RelayLemmas.TimerExclusive` | server.js:188-192 | a timer keeps slots exclusive, unless its socket has gone and its slot is now held by another attached socket |
| `RelayLemmas.StepExclusive` | server.js:81-194 | every event keeps slots exclusive, except a timer firing for an already-closed socket whose slot another attached socket now holds |
| `RelayLemmas.RunExclusive` | server.js:81-194 | from an exclusive reachable state, a whole run in which no such timer fires ends in an exclusive state |
| `RelayLemmas.ReachableExclusive` | server.js:81-194 | every run from the initial registry in which no such timer fires ends with no slot held by two attached sockets and every held slot occupied |
| `Traces.Session` | server.js:81-194 | a concrete session: every message, its recipient and the final registry |
| `Traces.StaleTimerSharesSlot` | server.js:188-192 | the uncancelled timer of a departed socket fires while another attached socket holds its slot, frees it, and afterwards two attached sockets both hold slot 0 |
| `Server.RelayServer.constructor` | server.js:18 | the registry starts as two empty slots |
| `Server.RelayServer.Broadcast` | server.js:97 | appends one copy per other attached socket, nothing else changes |
| `Server.RelayServer.Connect` | server.js:81-97 | returns the first-free index of the registry before the call, and performs exactly `ConnectStep` |
| `Server.RelayServer.Disconnect` | server.js:111-115 | performs exactly `DisconnectStep` |
| `Server.RelayServer.PlayerReady` | server.js:124-127 | performs exactly `ReadyStep` |
| `Server.RelayServer.CheckPlayers` | server.js:149-157 | performs exactly `CheckPlayersStep`, building the list with the loop of `BuildSnapshot` |
| `Server.RelayServer.Fire` | server.js:165-168 | performs exactly `RelayStep` with the `fire` payload |
| `Server.RelayServer.FireReply` | server.js:175-178 | performs exactly `RelayStep` with the `fire-reply` payload |
| `Server.RelayServer.TimerFires` | server.js:188-192 | performs exactly `TimerStep` |

## Left out

- Express static hosting, the HTTP server, `listen` and the `PORT` lookup
  (server.js:1-16): bootstrap and I/O only.
- socket.io itself: framing, heartbeats, reconnection and delivery. An emit
  is modelled as appending to the outbox. An emit to a socket that is
  already closed is modelled as lost.
- The order in which one broadcast reaches its recipients is modelled as
  connection order. The transport does not promise an order.
- All `console.log` calls (server.js:92, 112, 166, 176): diagnostics only.
- The 600000 ms duration and the event loop. Expiry is the explicit event
  `TimerFires`. The model does not constrain when it happens, except that a
  timer fires at most once.
- The index produced by `for…in` is the string key `"0"` or `"1"`, so
  `player-number` and the broadcasts carry that string. The rejection is the
  number -1. The model uses the integers 0, 1 and -1.
- Socket ids are naturals that the transport never reuses. `Connect`
  requires a fresh id, and `Step` ignores a connection event that reuses an
  id.
- The `fire` id and the `fire-reply` square share one opaque payload type.
