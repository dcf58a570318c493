/**
 * Event sequences that show the relay's behaviour as written, derived from
 * the handlers' contracts alone.
 */
module Scenarios {
  import opened Wrappers
  import opened JsValues
  import opened OrderedMap
  import opened Protocol
  import opened Relay

  /** A second display takes over; the first one's close event, arriving
      later, empties the slot although the new display is still open. */
  method ReplacedDisplayCloseEmptiesSlot() {
    var s := new Server();
    s.OnConnection("screen-a");
    s.OnConnection("screen-b");
    var out := s.OnRegisterDisplay("screen-a");
    out := s.OnRegisterDisplay("screen-b");
    assert s.conns["screen-a"].state == Closing;
    out := s.OnClose("screen-a");
    assert out == [];
    assert s.display == None;
    assert IsOpen(s.conns, "screen-b") && s.conns["screen-b"].role == Display;
  }
}
