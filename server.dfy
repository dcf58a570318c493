/**
 * The relay's turn-arbitration state and its event handlers: the display
 * slot (`displaySocket`), the `players` map, the active-turn cell
 * (`currentTurnPlayerId`) and the fields written on each socket. Every
 * handler returns the sends it performs, in order.
 */
module Relay {
  import opened Wrappers
  import opened JsValues
  import opened OrderedMap
  import opened Protocol
  import opened Broadcast

  /** `'P-' + id.substr(0, 4)`: the name given to a controller that declares none. */
  function FallbackName(id: ConnId): (r: string)
    ensures |r| == 2 + (if |id| < 4 then |id| else 4)
    ensures r[..2] == "P-" && r[2..] <= id
  {
    "P-" + id[..if |id| < 4 then |id| else 4]
  }

  /** `payload.name || fallback` for a payload that is not nullish (on a
      nullish payload the property read throws). The name chosen is always
      truthy: the declared one when it is truthy, the fallback otherwise. */
  function RegisteredName(payload: Value, id: ConnId): (name: Value)
    requires !Nullish(payload)
    ensures Truthy(name)
    ensures Truthy(NameProperty(payload)) ==> name == NameProperty(payload)
    ensures !Truthy(NameProperty(payload)) ==> name == Str(FallbackName(id))
  {
    var declared := NameProperty(payload);
    if Truthy(declared) then declared else Str(FallbackName(id))
  }

  /** REGISTER_CONTROLLER throws before its first assignment: the `name`
      read on a nullish payload, or the log line's template literal on a
      chosen name that does not convert to a string. */
  predicate RegistrationThrows(payload: Value, id: ConnId) {
    Nullish(payload) || ToStringThrows(RegisteredName(payload, id))
  }

  /** The fallback name always converts, so a registration that gets past
      the property read throws exactly when the declared name does not
      convert (such a name is an object or array, hence truthy, hence
      chosen). */
  lemma RegistrationThrowsSpec(payload: Value, id: ConnId)
    ensures RegistrationThrows(payload, id) <==>
              Nullish(payload) || ToStringThrows(NameProperty(payload))
  {
    if !Nullish(payload) && ToStringThrows(NameProperty(payload)) {
      assert Truthy(NameProperty(payload));
    }
  }

  /** `if (displaySocket && displaySocket.readyState === 1) displaySocket.close()`:
      an open display starts its closing handshake; anything else is left alone. */
  function CloseIfOpen(conns: map<ConnId, Conn>, display: Option<ConnId>): (r: map<ConnId, Conn>)
    ensures r.Keys == conns.Keys
    ensures forall c :: c in conns && (display != Some(c) || !IsOpen(conns, c)) ==> r[c] == conns[c]
    ensures display.Some? && IsOpen(conns, display.value) ==>
              r[display.value] == conns[display.value].(state := Closing)
  {
    if display.Some? && IsOpen(conns, display.value) then
      conns[display.value := conns[display.value].(state := Closing)]
    else conns
  }

  /** The invariant every handler keeps:
      - `players` has one entry per connection, keyed by the connection,
        whose value carries that connection's id and current name;
      - a listed connection has registered; a closed one stays listed only
        if it re-registered as the display;
      - a controller always has a truthy name that converts to a string,
        and is listed exactly while its connection is not closed;
      - the display slot names a registered connection, and a closed
        connection whose role is still DISPLAY never holds it. */
  predicate Consistent(conns: map<ConnId, Conn>, display: Option<ConnId>, players: OMap<ConnId, PlayerInfo>) {
    && DistinctKeys(players)
    && (forall i :: 0 <= i < |players| ==> EntryConsistent(conns, players[i]))
    && (forall c :: c in conns && conns[c].role == Controller ==>
          && Truthy(conns[c].playerName) && !ToStringThrows(conns[c].playerName)
          && (conns[c].state != Closed <==> Has(players, c)))
    && (display.Some? ==>
          && display.value in conns
          && conns[display.value].role != Unassigned
          && (conns[display.value].role == Display ==> conns[display.value].state != Closed))
  }

  predicate EntryConsistent(conns: map<ConnId, Conn>, e: Entry<ConnId, PlayerInfo>) {
    && e.key == e.value.id
    && e.key in conns
    && conns[e.key].playerName == e.value.name
    && conns[e.key].role != Unassigned
    && (conns[e.key].state == Closed ==> conns[e.key].role == Display)
  }

  /** A fresh connection joins no table. */
  lemma ConnectionPreserves(conns: map<ConnId, Conn>, display: Option<ConnId>,
                            players: OMap<ConnId, PlayerInfo>, id: ConnId)
    requires Consistent(conns, display, players) && id !in conns
    ensures Consistent(conns[id := Conn(Unassigned, Undefined, Open)], display, players)
  {
    var conns' := conns[id := Conn(Unassigned, Undefined, Open)];
    forall i | 0 <= i < |players| ensures EntryConsistent(conns', players[i]) {
      assert EntryConsistent(conns, players[i]);
    }
  }

  /** REGISTER_DISPLAY keeps the invariant. */
  lemma RegisterDisplayPreserves(conns: map<ConnId, Conn>, display: Option<ConnId>,
                                 players: OMap<ConnId, PlayerInfo>, sender: ConnId)
    requires Consistent(conns, display, players)
    requires sender in conns && conns[sender].state != Closed
    ensures var revoked := CloseIfOpen(conns, display);
            Consistent(revoked[sender := revoked[sender].(role := Display)], Some(sender), players)
  {
    var revoked := CloseIfOpen(conns, display);
    var conns' := revoked[sender := revoked[sender].(role := Display)];
    forall i | 0 <= i < |players| ensures EntryConsistent(conns', players[i]) {
      assert EntryConsistent(conns, players[i]);
    }
    forall c | c in conns' && conns'[c].role == Controller
      ensures && Truthy(conns'[c].playerName) && !ToStringThrows(conns'[c].playerName)
              && (conns'[c].state != Closed <==> Has(players, c))
    {
      assert c != sender && conns[c].role == Controller;
    }
  }

  /** REGISTER_CONTROLLER keeps the invariant. */
  lemma RegisterControllerPreserves(conns: map<ConnId, Conn>, display: Option<ConnId>,
                                    players: OMap<ConnId, PlayerInfo>, sender: ConnId, name: Value)
    requires Consistent(conns, display, players)
    requires sender in conns && conns[sender].state != Closed
    requires Truthy(name) && !ToStringThrows(name)
    ensures Consistent(conns[sender := conns[sender].(role := Controller, playerName := name)],
                       display, Set(players, sender, PlayerInfo(sender, name)))
  {
    var conns' := conns[sender := conns[sender].(role := Controller, playerName := name)];
    var players' := Set(players, sender, PlayerInfo(sender, name));
    SetSpec(players, sender, PlayerInfo(sender, name));
    forall i | 0 <= i < |players'| ensures EntryConsistent(conns', players'[i]) {
      if players'[i].key != sender {
        assert i < |players| && players'[i] == players[i];
        assert EntryConsistent(conns, players[i]);
      }
    }
  }

  /** The close of a connection keeps the invariant, whatever its role. */
  lemma ClosePreserves(conns: map<ConnId, Conn>, display: Option<ConnId>,
                       players: OMap<ConnId, PlayerInfo>, c: ConnId)
    requires Consistent(conns, display, players)
    requires c in conns && conns[c].state != Closed
    ensures var conns' := conns[c := conns[c].(state := Closed)];
      match conns[c].role
      case Display => Consistent(conns', None, players)
      case Controller => Consistent(conns', display, Delete(players, c))
      case Unassigned => Consistent(conns', display, players)
  {
    var conns' := conns[c := conns[c].(state := Closed)];
    if conns[c].role == Controller {
      var players' := Delete(players, c);
      DeleteSpec(players, c);
      forall i | 0 <= i < |players'| ensures EntryConsistent(conns', players'[i]) {
        assert players'[i] in players;
        var j :| 0 <= j < |players| && players[j] == players'[i];
        assert EntryConsistent(conns, players[j]);
      }
      assert Consistent(conns', display, players');
    } else {
      forall i | 0 <= i < |players| ensures EntryConsistent(conns', players[i]) {
        assert EntryConsistent(conns, players[i]);
      }
      if conns[c].role == Unassigned {
        assert !Has(players, c) by {
          forall i | 0 <= i < |players| ensures players[i].key != c {
            assert EntryConsistent(conns, players[i]);
          }
        }
      }
    }
  }

  /** While the invariant holds, a turn that is a listed connection's
      (non-empty) id makes the snapshot name that connection's current name,
      which for a controller is never `null`. */
  lemma ActiveNameOfListed(conns: map<ConnId, Conn>, display: Option<ConnId>,
                           players: OMap<ConnId, PlayerInfo>, c: ConnId)
    requires Consistent(conns, display, players)
    requires Has(players, c) && c != ""
    ensures TakeSnapshot(players, Str(c)).activeName == conns[c].playerName
    ensures conns[c].role == Controller ==> Truthy(TakeSnapshot(players, Str(c)).activeName)
  {
    var s := TakeSnapshot(players, Str(c));
    SnapshotSpec(players, Str(c));
    var i :| 0 <= i < |players| && players[i].key == c;
    assert EntryConsistent(conns, players[i]);
    forall j | 0 <= j < i ensures !IdMatches(s.list[j], Str(c)) {
      assert EntryConsistent(conns, players[j]);
    }
  }

  class Server {
    var conns: map<ConnId, Conn>
    var display: Option<ConnId>
    var players: OMap<ConnId, PlayerInfo>
    var turn: Value

    ghost predicate Valid()
      reads this
    {
      Consistent(conns, display, players)
    }

    /** The module state at start-up: no display, no players, turn `null`. */
    constructor ()
      ensures Valid()
      ensures conns == map[] && display == None && players == [] && turn == Null
    {
      conns := map[];
      display := None;
      players := [];
      turn := Null;
    }

    /** A socket is accepted and given a fresh id. */
    method OnConnection(id: ConnId)
      requires Valid() && id !in conns
      modifies this`conns
      ensures Valid()
      ensures conns == old(conns)[id := Conn(Unassigned, Undefined, Open)]
    {
      ConnectionPreserves(conns, display, players, id);
      conns := conns[id := Conn(Unassigned, Undefined, Open)];
    }

    /** The transport leaves the OPEN state (the peer or the network starts
        closing) before its 'close' event is delivered. */
    method OnTransportClosing(c: ConnId)
      requires Valid() && IsOpen(conns, c)
      modifies this`conns
      ensures Valid()
      ensures conns == old(conns)[c := old(conns)[c].(state := Closing)]
    {
      conns := conns[c := conns[c].(state := Closing)];
    }

    /** `broadcastState()`: the snapshot to the open display (queue, name,
        id), then queue and name to each open connection of `players`, in
        iteration order. Changes nothing. */
    method Broadcast() returns (out: seq<Send>)
      ensures out == BroadcastSends(display, conns, players, turn)
    {
      var snap := TakeSnapshot(players, turn);
      out := [];
      if display.Some? && IsOpen(conns, display.value) {
        var d := display.value;
        out := out + [Send(d, QueueUpdate(snap.list))];
        out := out + [Send(d, CurrentPlayer(snap.activeName))];
        out := out + [Send(d, CurrentPlayerId(snap.activeId))];
      }
      var toPlayers := SendToPlayers(snap);
      out := out + toPlayers;
    }

    /** The `players.forEach` loop of `broadcastState`: queue and name to
        each connection of the map whose socket is open, in iteration order. */
    method SendToPlayers(snap: Snapshot) returns (out: seq<Send>)
      ensures out == ControllerSends(players, conns, snap)
    {
      out := [];
      var i := 0;
      while i < |players|
        invariant 0 <= i <= |players|
        invariant out == ControllerSends(players[..i], conns, snap)
      {
        var socket := players[i].key;
        ghost var before := out;
        if IsOpen(conns, socket) {
          out := out + [Send(socket, QueueUpdate(snap.list))];
          out := out + [Send(socket, CurrentPlayer(snap.activeName))];
        }
        assert out == before + EntrySends(socket, conns, snap);
        ControllerSendsStep(players, i, conns, snap);
        i := i + 1;
      }
      assert players[..i] == players;
    }

    /** REGISTER_DISPLAY: an open previous display (the sender itself
        included) starts closing, the sender takes the slot with role
        DISPLAY, and the state is broadcast. The sender's `players` entry,
        if it has one, stays. */
    method OnRegisterDisplay(sender: ConnId) returns (out: seq<Send>)
      requires Valid() && sender in conns && conns[sender].state != Closed
      modifies this`conns, this`display
      ensures Valid()
      ensures display == Some(sender)
      ensures var revoked := CloseIfOpen(old(conns), old(display));
              conns == revoked[sender := revoked[sender].(role := Display)]
      ensures out == BroadcastSends(display, conns, players, turn)
    {
      RegisterDisplayPreserves(conns, display, players, sender);
      conns := CloseIfOpen(conns, display);
      display := Some(sender);
      conns := conns[sender := conns[sender].(role := Display)];
      out := Broadcast();
    }

    /** REGISTER_CONTROLLER: on a nullish payload the read of `payload.name`
        throws before anything changes; otherwise the sender becomes a
        controller under its registered name, its `players` entry is set
        (overwritten in place if present, appended if not), and the state is
        broadcast. The display slot and the turn are untouched. */
    method OnRegisterController(sender: ConnId, payload: Value) returns (out: seq<Send>)
      requires Valid() && sender in conns && conns[sender].state != Closed
      modifies this`conns, this`players
      ensures Valid()
      ensures RegistrationThrows(payload, sender) ==>
                conns == old(conns) && players == old(players) && out == []
      ensures !RegistrationThrows(payload, sender) ==>
                var name := RegisteredName(payload, sender);
                && conns == old(conns)[sender := old(conns)[sender].(role := Controller, playerName := name)]
                && players == Set(old(players), sender, PlayerInfo(sender, name))
                && out == BroadcastSends(display, conns, players, turn)
    {
      if Nullish(payload) {
        return [];
      }
      var playerName := RegisteredName(payload, sender);
      if ToStringThrows(playerName) {
        return [];
      }
      RegisterControllerPreserves(conns, display, players, sender, playerName);
      conns := conns[sender := conns[sender].(role := Controller, playerName := playerName)];
      players := Set(players, sender, PlayerInfo(sender, playerName));
      out := Broadcast();
    }

    /** SET_ACTIVE_PLAYER: from a sender whose role is DISPLAY the payload,
        whatever it is, becomes the turn and the state is broadcast; from any
        other sender nothing happens and nothing is sent. */
    method OnSetActivePlayer(sender: ConnId, payload: Value) returns (out: seq<Send>)
      requires Valid() && sender in conns && conns[sender].state != Closed
      modifies this`turn
      ensures Valid()
      ensures conns[sender].role == Display ==> turn == payload
      ensures conns[sender].role == Display && !ToStringThrows(payload) ==>
                out == BroadcastSends(display, conns, players, turn)
      ensures conns[sender].role == Display && ToStringThrows(payload) ==> out == []
      ensures conns[sender].role != Display ==> turn == old(turn) && out == []
    {
      if conns[sender].role == Display {
        turn := payload;
        if ToStringThrows(payload) {
          out := [];
        } else {
          out := Broadcast();
        }
      } else {
        out := [];
      }
    }

    /** ACTION: changes nothing. Exactly one message goes to the display,
        carrying the action and the sender's name, when the sender is a
        controller, holds the turn, and the display exists and is open;
        otherwise nothing is sent. */
    method OnAction(sender: ConnId, action: Value) returns (out: seq<Send>)
      requires sender in conns
      ensures |out| <= 1
      ensures out != [] <==>
                && conns[sender].role == Controller
                && turn == Str(sender)
                && display.Some? && IsOpen(conns, display.value)
      ensures out != [] ==> out[0] == Send(display.value, ActionRelay(action, conns[sender].playerName))
    {
      out := [];
      if conns[sender].role == Controller {
        if turn == Str(sender) {
          if display.Some? && IsOpen(conns, display.value) {
            out := [Send(display.value, ActionRelay(action, conns[sender].playerName))];
          }
        }
      }
    }

    /** PING: a PONG back to the sender; nothing else. */
    method OnPing(sender: ConnId) returns (out: seq<Send>)
      ensures out == [Send(sender, Pong)]
    {
      out := [Send(sender, Pong)];
    }

    /** One inbound frame, dispatched on its type. An unparseable frame and
        an unknown type change nothing and send nothing; only
        REGISTER_DISPLAY moves the display slot, only REGISTER_CONTROLLER
        changes `players`, and only SET_ACTIVE_PLAYER changes the turn. */
    method OnMessage(sender: ConnId, msg: Inbound) returns (out: seq<Send>)
      requires Valid() && sender in conns && conns[sender].state != Closed
      modifies this`conns, this`display, this`players, this`turn
      ensures Valid()
      ensures msg.Unparseable? || msg.UnknownType? ==>
                conns == old(conns) && display == old(display) && players == old(players) &&
                turn == old(turn) && out == []
      ensures !msg.RegisterDisplay? ==> display == old(display)
      ensures !msg.RegisterController? ==> players == old(players)
      ensures !msg.SetActivePlayer? ==> turn == old(turn)
      ensures !msg.RegisterDisplay? && !msg.RegisterController? ==> conns == old(conns)
      ensures msg.RegisterDisplay? ==>
                && display == Some(sender)
                && (var revoked := CloseIfOpen(old(conns), old(display));
                    conns == revoked[sender := revoked[sender].(role := Display)])
                && out == BroadcastSends(display, conns, players, turn)
      ensures msg.RegisterController? && RegistrationThrows(msg.payload, sender) ==>
                conns == old(conns) && players == old(players) && out == []
      ensures msg.RegisterController? && !RegistrationThrows(msg.payload, sender) ==>
                var name := RegisteredName(msg.payload, sender);
                && conns == old(conns)[sender := old(conns)[sender].(role := Controller, playerName := name)]
                && players == Set(old(players), sender, PlayerInfo(sender, name))
                && out == BroadcastSends(display, conns, players, turn)
      ensures msg.SetActivePlayer? && conns[sender].role == Display ==>
                && turn == msg.payload
                && out == (if ToStringThrows(msg.payload) then []
                           else BroadcastSends(display, conns, players, turn))
      ensures msg.SetActivePlayer? && conns[sender].role != Display ==> turn == old(turn) && out == []
      ensures msg.Action? ==>
                && |out| <= 1
                && (out != [] <==>
                      && conns[sender].role == Controller
                      && turn == Str(sender)
                      && display.Some? && IsOpen(conns, display.value))
                && (out != [] ==>
                      out[0] == Send(display.value, ActionRelay(msg.action, conns[sender].playerName)))
      ensures msg.Ping? ==> out == [Send(sender, Pong)]
    {
      match msg
      case Unparseable =>
        out := [];
      case RegisterDisplay =>
        out := OnRegisterDisplay(sender);
      case RegisterController(payload) =>
        out := OnRegisterController(sender, payload);
      case SetActivePlayer(payload) =>
        out := OnSetActivePlayer(sender, payload);
      case Action(action) =>
        out := OnAction(sender, action);
      case Ping =>
        out := OnPing(sender);
      case UnknownType =>
        out := [];
    }

    /** The 'close' event, with `handlePlayerDisconnect` for a controller.
        The connection is CLOSED. A connection whose role is DISPLAY empties
        the display slot, whether or not it still holds it. A controller
        loses exactly its own `players` entry, the turn is reset to `null`
        exactly when it held it, and the state is broadcast. A connection
        that never registered changes nothing else. */
    method OnClose(c: ConnId) returns (out: seq<Send>)
      requires Valid() && c in conns && conns[c].state != Closed
      modifies this`conns, this`display, this`players, this`turn
      ensures Valid()
      ensures conns == old(conns)[c := old(conns)[c].(state := Closed)]
      ensures old(conns)[c].role == Display ==>
                display == None && players == old(players) && turn == old(turn) && out == []
      ensures old(conns)[c].role == Controller ==>
                && display == old(display)
                && players == Delete(old(players), c)
                && !Has(players, c)
                && (old(turn) == Str(c) ==> turn == Null)
                && (old(turn) != Str(c) ==> turn == old(turn))
                && out == BroadcastSends(display, conns, players, turn)
      ensures old(conns)[c].role == Unassigned ==>
                display == old(display) && players == old(players) && turn == old(turn) && out == []
    {
      var role := conns[c].role;
      ClosePreserves(conns, display, players, c);
      conns := conns[c := conns[c].(state := Closed)];
      if role == Display {
        display := None;
        out := [];
      } else if role == Controller {
        DeleteSpec(players, c);
        players := Delete(players, c);
        if turn == Str(c) {
          turn := Null;
        }
        out := Broadcast();
      } else {
        out := [];
      }
    }
  }
}
