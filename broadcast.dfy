/**
 * `broadcastState`: the snapshot of the turn state (the ordered player list,
 * the active player's name and id) and the sends that deliver it to the
 * display and to every listed connection that is open.
 */
module Broadcast {
  import opened Wrappers
  import opened JsValues
  import opened OrderedMap
  import opened Protocol

  datatype Snapshot = Snapshot(list: seq<PlayerInfo>, activeName: Value, activeId: Value)

  /** `p.id === turn`: a string id is strictly equal only to the same string. */
  predicate IdMatches(p: PlayerInfo, turn: Value) {
    turn == Str(p.id)
  }

  /** `list.find(p => p.id === turn)`, as the index of the element found. */
  function FindById(list: seq<PlayerInfo>, turn: Value): (r: Option<nat>)
    ensures r.None? <==> forall i :: 0 <= i < |list| ==> !IdMatches(list[i], turn)
    ensures r.Some? ==> r.value < |list| && IdMatches(list[r.value], turn) &&
                        forall j :: 0 <= j < r.value ==> !IdMatches(list[j], turn)
  {
    if list == [] then None
    else if IdMatches(list[0], turn) then Some(0)
    else
      match FindById(list[1..], turn)
      case None => None
      case Some(i) => Some(i + 1)
  }

  /** The state every broadcast carries: the map's values, the name found
      for the turn (only when the turn is truthy), and the turn itself. */
  function TakeSnapshot(players: OMap<ConnId, PlayerInfo>, turn: Value): Snapshot {
    var list := Values(players);
    var name :=
      if Truthy(turn) then
        match FindById(list, turn)
        case Some(i) => list[i].name
        case None => Null
      else Null;
    Snapshot(list, name, turn)
  }

  /** The list is the map's values in iteration order; the active id is the
      turn unchanged; the active name is that of the first listed player
      whose id is the turn, and `null` when the turn is falsy or no listed
      player has it. */
  lemma SnapshotSpec(players: OMap<ConnId, PlayerInfo>, turn: Value)
    ensures var s := TakeSnapshot(players, turn);
      && |s.list| == |players|
      && (forall i :: 0 <= i < |players| ==> s.list[i] == players[i].value)
      && s.activeId == turn
      && (!Truthy(turn) ==> s.activeName == Null)
      && ((forall i :: 0 <= i < |s.list| ==> !IdMatches(s.list[i], turn)) ==> s.activeName == Null)
      && (forall i :: 0 <= i < |s.list| && Truthy(turn) && IdMatches(s.list[i], turn) &&
                      (forall j :: 0 <= j < i ==> !IdMatches(s.list[j], turn)) ==>
                      s.activeName == s.list[i].name)
  {
    var s := TakeSnapshot(players, turn);
    var found := FindById(s.list, turn);
    if Truthy(turn) && found.Some? {
      assert s.activeName == s.list[found.value].name;
    }
  }

  /** Queue, name and id to the display, when there is one and it is open. */
  function DisplaySends(display: Option<ConnId>, conns: map<ConnId, Conn>, snap: Snapshot): seq<Send> {
    if display.Some? && IsOpen(conns, display.value) then
      [ Send(display.value, QueueUpdate(snap.list)),
        Send(display.value, CurrentPlayer(snap.activeName)),
        Send(display.value, CurrentPlayerId(snap.activeId)) ]
    else []
  }

  /** Queue and name to one listed connection, when it is open. */
  function EntrySends(key: ConnId, conns: map<ConnId, Conn>, snap: Snapshot): seq<Send> {
    if IsOpen(conns, key) then
      [Send(key, QueueUpdate(snap.list)), Send(key, CurrentPlayer(snap.activeName))]
    else []
  }

  /** `players.forEach(...)`: the entry sends in iteration order. */
  function ControllerSends(entries: OMap<ConnId, PlayerInfo>, conns: map<ConnId, Conn>, snap: Snapshot): seq<Send> {
    if entries == [] then []
    else ControllerSends(entries[..|entries| - 1], conns, snap) + EntrySends(entries[|entries| - 1].key, conns, snap)
  }

  /** One more iteration of the controller loop adds that entry's sends. */
  lemma ControllerSendsStep(entries: OMap<ConnId, PlayerInfo>, i: nat, conns: map<ConnId, Conn>, snap: Snapshot)
    requires i < |entries|
    ensures ControllerSends(entries[..i + 1], conns, snap) ==
            ControllerSends(entries[..i], conns, snap) + EntrySends(entries[i].key, conns, snap)
  {
    assert entries[..i + 1][..i] == entries[..i];
  }

  /** Every send of one `broadcastState` call, in order. */
  function BroadcastSends(display: Option<ConnId>, conns: map<ConnId, Conn>,
                          players: OMap<ConnId, PlayerInfo>, turn: Value): seq<Send> {
    var snap := TakeSnapshot(players, turn);
    DisplaySends(display, conns, snap) + ControllerSends(players, conns, snap)
  }

  /** The messages one recipient gets from a sequence of sends, in order. */
  function MessagesTo(sends: seq<Send>, r: ConnId): seq<Outbound> {
    if sends == [] then []
    else MessagesTo(sends[..|sends| - 1], r) +
         (if sends[|sends| - 1].to == r then [sends[|sends| - 1].msg] else [])
  }

  lemma {:induction false} MessagesToAppend(a: seq<Send>, b: seq<Send>, r: ConnId)
    ensures MessagesTo(a + b, r) == MessagesTo(a, r) + MessagesTo(b, r)
  {
    if b == [] {
      assert a + b == a;
    } else {
      var b' := b[..|b| - 1];
      assert (a + b)[..|a + b| - 1] == a + b';
      MessagesToAppend(a, b', r);
    }
  }

  /** A recipient gets nothing from the sends addressed to someone else. */
  lemma {:induction false} MessagesToNone(sends: seq<Send>, r: ConnId)
    requires forall i :: 0 <= i < |sends| ==> sends[i].to != r
    ensures MessagesTo(sends, r) == []
  {
    if sends != [] {
      MessagesToNone(sends[..|sends| - 1], r);
    }
  }

  /** A recipient of a block of sends addressed to it gets their messages in order. */
  lemma {:induction false} MessagesToAll(sends: seq<Send>, r: ConnId)
    requires forall i :: 0 <= i < |sends| ==> sends[i].to == r
    ensures |MessagesTo(sends, r)| == |sends|
    ensures forall i :: 0 <= i < |sends| ==> MessagesTo(sends, r)[i] == sends[i].msg
  {
    if sends != [] {
      MessagesToAll(sends[..|sends| - 1], r);
    }
  }

  /** Each listed connection that is open gets the queue and then the name,
      once; every other connection gets nothing from the controller loop. */
  lemma {:induction false} ControllerDelivery(entries: OMap<ConnId, PlayerInfo>, conns: map<ConnId, Conn>,
                                              snap: Snapshot, r: ConnId)
    requires DistinctKeys(entries)
    ensures MessagesTo(ControllerSends(entries, conns, snap), r) ==
            if Has(entries, r) && IsOpen(conns, r)
            then [QueueUpdate(snap.list), CurrentPlayer(snap.activeName)]
            else []
  {
    if entries != [] {
      var n := |entries| - 1;
      var init := entries[..n];
      var tail := EntrySends(entries[n].key, conns, snap);
      SplitLast(entries, r);
      ControllerDelivery(init, conns, snap, r);
      MessagesToAppend(ControllerSends(init, conns, snap), tail, r);
      EntryDelivery(entries[n].key, conns, snap, r);
    }
  }

  lemma EntryDelivery(key: ConnId, conns: map<ConnId, Conn>, snap: Snapshot, r: ConnId)
    ensures MessagesTo(EntrySends(key, conns, snap), r) ==
            if key == r && IsOpen(conns, r)
            then [QueueUpdate(snap.list), CurrentPlayer(snap.activeName)]
            else []
  {
    var tail := EntrySends(key, conns, snap);
    if key == r {
      MessagesToAll(tail, r);
    } else {
      MessagesToNone(tail, r);
    }
  }

  /** Who receives what from one broadcast: the display, if open, gets queue,
      name and id; every open listed connection gets queue and name; a
      connection that is both gets both, display messages first; a closed or
      unlisted connection gets nothing. */
  lemma BroadcastDelivery(display: Option<ConnId>, conns: map<ConnId, Conn>,
                          players: OMap<ConnId, PlayerInfo>, turn: Value, r: ConnId)
    requires DistinctKeys(players)
    ensures var snap := TakeSnapshot(players, turn);
      MessagesTo(BroadcastSends(display, conns, players, turn), r) ==
        (if display == Some(r) && IsOpen(conns, r)
         then [QueueUpdate(snap.list), CurrentPlayer(snap.activeName), CurrentPlayerId(turn)]
         else [])
        + (if Has(players, r) && IsOpen(conns, r)
           then [QueueUpdate(snap.list), CurrentPlayer(snap.activeName)]
           else [])
  {
    var snap := TakeSnapshot(players, turn);
    SnapshotDelivery(display, conns, players, snap, r);
  }

  lemma SnapshotDelivery(display: Option<ConnId>, conns: map<ConnId, Conn>,
                         players: OMap<ConnId, PlayerInfo>, snap: Snapshot, r: ConnId)
    requires DistinctKeys(players)
    ensures MessagesTo(DisplaySends(display, conns, snap) + ControllerSends(players, conns, snap), r) ==
        (if display == Some(r) && IsOpen(conns, r)
         then [QueueUpdate(snap.list), CurrentPlayer(snap.activeName), CurrentPlayerId(snap.activeId)]
         else [])
        + (if Has(players, r) && IsOpen(conns, r)
           then [QueueUpdate(snap.list), CurrentPlayer(snap.activeName)]
           else [])
  {
    var ds := DisplaySends(display, conns, snap);
    var cs := ControllerSends(players, conns, snap);
    MessagesToAppend(ds, cs, r);
    ControllerDelivery(players, conns, snap, r);
    if display == Some(r) && IsOpen(conns, r) {
      MessagesToAll(ds, r);
    } else if ds != [] {
      MessagesToNone(ds, r);
    }
  }
}
