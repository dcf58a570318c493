# Turn arbitration of the fishing-game relay server

The server relays between one *display* (the game screen) and any number of
*controllers* (phones). Its state is three module variables in `server.js`:
the display slot `displaySocket`, the `players` map (a JavaScript `Map`
from socket to `{id, name}`, iterated in insertion order) and the active
turn `currentTurnPlayerId`. On each socket it also writes `role` and
`playerName`. Inbound frames are dispatched on their `type`
(REGISTER_DISPLAY, REGISTER_CONTROLLER, SET_ACTIVE_PLAYER, ACTION, PING);
a socket's close event removes a controller from the map and resets the
turn it held. After most changes `broadcastState` pushes the ordered
player list, the active player's name and the active id. The display gets
all three. Every open socket in `players` gets the list and the name.

The model is a Dafny class `Relay.Server` with those variables as fields.
Each socket is a connection id (`ConnId`, the uuid). Its fields live in
`conns: map<ConnId, Conn>`: role, player name and `readyState` (Open,
Closing, Closed; only Open passes `readyState === 1`). The socket-keyed map
is an insertion-ordered sequence of entries (`OrderedMap`). Each handler
is a method that returns the sends it made, in order, as
`(recipient, message)` pairs. ACTION, PING and `broadcastState` change
nothing, so they are methods without a `modifies` clause. The contents of
a broadcast are given by the pure functions `TakeSnapshot` and
`BroadcastSends`. Every handler keeps the invariant `Relay.Consistent`.
For each handler that changes the connections or the map, a
`...Preserves` lemma proves this.

Payloads are JavaScript values (`JsValues.Value`: undefined, null,
booleans, numbers, strings, arrays, objects). This lets the model follow
the source exactly in three places: `payload.name || fallback`,
`if (currentTurnPlayerId)`, and the strict `===` comparisons against ids.

Behaviour kept as written:
- Closing any connection whose role is DISPLAY empties the display slot,
  even when a newer display holds it. `Scenarios.ReplacedDisplayCloseEmptiesSlot`
  derives this from the handlers' contracts for one sequence of events.
- REGISTER_DISPLAY closes the previous display whenever that display is
  open, even when it is the sender itself.
- A controller that re-registers as the display keeps its `players`
  entry. Its close does not remove that entry.
- A display that re-registers as a controller keeps the display slot.
- SET_ACTIVE_PLAYER checks only the sender's role, never that the sender
  holds the slot. It stores any payload as the turn: `null`, a number, an
  unknown id.
- No player is activated when it joins, and there is no turn advance.
- The log lines at server.js:50 and server.js:67 write the name and the
  payload through template literals. A parsed object with its own
  `toString` member cannot be converted to a string, and neither can an
  array holding one (`JsValues.ToStringThrows`). The resulting TypeError
  is caught by the message handler's `catch`. For REGISTER_CONTROLLER it
  comes before any assignment, so nothing changes and nothing is sent.
  For SET_ACTIVE_PLAYER it comes after the turn is assigned but before
  the broadcast, so the new turn is stored silently.
- Because of that, every controller's name converts to a string, and the
  log line of the close handler (server.js:103) never throws.

The design description of this system also calls for several things the
code does not have: a FIFO queue policy, grant orderings, NEXT_TURN,
FEEDBACK relay, reconnection by name, a grace-period close, and a reply
carrying the new session id on controller registration. The model
follows the code and has none of them.

## Model

| member | source | states |
|---|---|---|
| `OrderedMap.IndexOf` | server.js:17 | the position of a key's entry, if any: the first entry with that key; none exactly when the key is absent |
| `OrderedMap.SetShape` | server.js:56 | `players.set`: a present key's entry is overwritten in place; a new key is appended at the end |
| `OrderedMap.SetSpec` | server.js:56 | after `set` there is still one entry per key; the entry for the key carries the new value; all other entries keep value and position; the key set grows by exactly that key |
| `OrderedMap.DeleteShape` | server.js:112 | `players.delete`: the entry for the key is cut out and the rest stay in order; an absent key leaves the map unchanged |
| `OrderedMap.DeleteSpec` | server.js:112 | after `delete` keys stay distinct; the entries are exactly the old ones with a different key; the size drops by one exactly when the key was present |
| `OrderedMap.Values` | server.js:125 | `Array.from(players.values())`: the values, one per entry, in iteration order |
| `JsValues.LastMemberSpec` | server.js:49 | reading a member of a parsed object yields the value of the last field with that name |
| `JsValues.LastMemberAbsent` | server.js:49 | a member no field names reads as `undefined` |
| `JsValues.NameProperty` | server.js:49 | `payload.name` on a string, number, boolean or array is `undefined` |
| `Relay.FallbackName` | server.js:49 | the fallback name is `P-` followed by the first four characters of the id (all of it when shorter) |
| `Relay.RegisteredName` | server.js:49 | the registered name is the payload's `name` when truthy, else the fallback; either way it is truthy |
| `Relay.RegistrationThrowsSpec` | server.js:49-50 | REGISTER_CONTROLLER throws before any assignment exactly when the payload is nullish or its declared `name` cannot be converted to a string; the fallback name never throws |
| `Relay.CloseIfOpen` | server.js:37-39 | the previous display starts closing only if it was open; every other connection is untouched |
| `Broadcast.FindById` | server.js:135 | `find` by id: the first element whose id strictly equals the turn; none exactly when no element matches |
| `Broadcast.SnapshotSpec` | server.js:125-139 | the list is the map's values in order; the active id is the turn; the active name is the name of the first listed player with that id, and `null` when the turn is falsy or matches nobody |
| `Relay.Server.SendToPlayers` | server.js:165-170 | the `forEach` loop performs exactly the sends of `ControllerSends`, entry by entry in iteration order, and changes nothing |
| `Broadcast.ControllerDelivery` | server.js:165-170 | the controller loop sends queue then name exactly once to each open connection in `players`, and nothing to any other connection |
| `Broadcast.BroadcastDelivery` | server.js:157-170 | one broadcast sends queue, name and id to the display only if it is open; it sends queue and name to each open listed connection; closed and unlisted connections get nothing |
| `Relay.ConnectionPreserves` | server.js:22-24 | accepting a socket with a fresh id keeps the invariant |
| `Relay.RegisterDisplayPreserves` | server.js:34-45 | REGISTER_DISPLAY keeps the invariant, the sender's `players` entry included |
| `Relay.RegisterControllerPreserves` | server.js:48-60 | REGISTER_CONTROLLER keeps the invariant: one entry per connection, each carrying the connection's current name, and every controller's name converts to a string |
| `Relay.ClosePreserves` | server.js:98-120 | the close of a connection keeps the invariant for every role; a closed controller is no longer listed |
| `Relay.ActiveNameOfListed` | server.js:130-139 | when the turn is a listed connection's id, the broadcast name is that connection's current name, never `null` for a controller |
| `Relay.Server.constructor` | server.js:15-18 | the start state: no display, an empty map, turn `null` |
| `Relay.Server.OnConnection` | server.js:22-24 | a new connection has no role and no name, is open, and joins no table |
| `Relay.Server.Broadcast` | server.js:123-171 | `broadcastState` performs exactly the sends of `BroadcastSends` for the current state and changes nothing |
| `Relay.Server.OnRegisterDisplay` | server.js:34-45 | the sender takes the slot with role DISPLAY; an open previous display starts closing; `players` and the turn are unchanged; the new state is broadcast |
| `Relay.Server.OnRegisterController` | server.js:48-60 | a nullish payload, or a chosen name the log line at line 50 cannot convert, changes nothing and sends nothing; otherwise the sender becomes a controller under its registered name, its entry is set in `players`, and the new state is broadcast |
| `Relay.Server.OnSetActivePlayer` | server.js:63-70 | a DISPLAY-role sender sets the turn to the payload, unvalidated; the state is broadcast unless the log line at line 67 cannot convert the payload, in which case nothing is sent; any other sender changes nothing and sends nothing |
| `Relay.Server.OnAction` | server.js:73-86 | changes nothing; sends at most one message; it sends one exactly when the sender is a controller, holds the turn, and the display exists and is open; that message goes to the display with the action and the sender's name |
| `Relay.Server.OnPing` | server.js:89-91 | a single PONG to the sender and nothing else |
| `Relay.Server.OnMessage` | server.js:28-96 | an unparseable frame or unknown type changes nothing and sends nothing; only REGISTER_DISPLAY moves the slot; only REGISTER_CONTROLLER changes `players`; only SET_ACTIVE_PLAYER changes the turn; for each message type, the new state and the sends are exactly those of its handler, the throwing cases included |
| `Relay.Server.OnClose` | server.js:98-120 | the connection becomes closed. For DISPLAY role: the slot empties and nothing is sent. For CONTROLLER role: exactly its entry is removed, the turn becomes `null` exactly when it held it, and the state is broadcast. With no role: nothing else changes |

## Left out

- The HTTP server and the port binding (server.js:7-11, 186) are not modelled: they are platform plumbing.
- Heartbeat liveness is not modelled: `isAlive`, the pong handler and the 30-second `setInterval` that terminates sockets (server.js:23, 26, 174-184). The close a termination causes is covered, because `OnClose` may be delivered at any point.
- The `ws` socket objects are not modelled. Sockets are connection ids, and the uuid generator (server.js:4, 24) is replaced by a fresh id passed to `OnConnection`. A socket stored both in the display slot and in `players` is the same id in both places.
- `readyState` leaving OPEN before the close event is not modelled as transport behaviour. `OnTransportClosing` only marks that change, so that broadcasts can skip a listed connection that is closing.
- `JSON.parse` and `JSON.stringify` (server.js:30, 78, 141-155) are not modelled. Inbound frames arrive already decoded as `Inbound`, outbound messages are the `Outbound` datatype, and a field that `JSON.stringify` drops is `Undefined`. Numbers are exact reals, without double-precision rounding.
- Strings are sequences of characters, so `substr(0, 4)` takes four characters rather than four UTF-16 code units.
- Whether a send reaches its peer is not modelled. A send is recorded when the code calls `send`; PONG is recorded even to a socket that is closing.
- Logging with `console.log` and `console.error` is not modelled.
- `handlePlayerDisconnect` (server.js:110-120) is part of `Relay.Server.OnClose`, its only caller, rather than a separate method.
