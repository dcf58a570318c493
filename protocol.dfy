/**
 * The relay's vocabulary: connections and their per-connection fields, the
 * player records kept in the `players` map, the inbound messages after
 * decoding, and the outbound messages as sent.
 */
module Protocol {
  import opened JsValues

  /** The connection's unique id (a fresh uuid per accepted socket). */
  type ConnId = string

  /** `ws.role`: unset until the connection registers. */
  datatype Role = Unassigned | Display | Controller

  /** `ws.readyState`: OPEN (1) is the only state in which the server sends. */
  datatype ReadyState = Open | Closing | Closed

  /** The fields the server writes on a socket object. */
  datatype Conn = Conn(role: Role, playerName: Value, state: ReadyState)

  /** A value of the `players` map, also an element of the broadcast list. */
  datatype PlayerInfo = PlayerInfo(id: ConnId, name: Value)

  /** An inbound frame after `JSON.parse`, by its `type` discriminator.
      `Unparseable` stands for text that `JSON.parse` rejects and for a
      parsed `null`, whose `type` read throws; `UnknownType` for any other
      discriminator, a missing one, or a parsed primitive. */
  datatype Inbound =
    | Unparseable
    | RegisterDisplay
    | RegisterController(payload: Value)
    | SetActivePlayer(payload: Value)
    | Action(action: Value)
    | Ping
    | UnknownType

  /** Outbound messages; a `Value` that is `Undefined` stands for a field
      that `JSON.stringify` leaves out. */
  datatype Outbound =
    | QueueUpdate(players: seq<PlayerInfo>)
    | CurrentPlayer(name: Value)
    | CurrentPlayerId(id: Value)
    | ActionRelay(action: Value, player: Value)
    | Pong

  /** One `socket.send(...)` call. */
  datatype Send = Send(to: ConnId, msg: Outbound)

  /** `socket.readyState === 1` for a known connection. */
  predicate IsOpen(conns: map<ConnId, Conn>, c: ConnId) {
    c in conns && conns[c].state == Open
  }
}
