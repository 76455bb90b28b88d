/**
 The life of a server connection (connection_runtime.cpp): how windows of bytes move it
 from COTP connect to an established association, into a fault or to the end, and when
 the end of an association is reported.
 */
module ConnectionLifecycle {

  datatype Phase = AwaitingCotpConnect | AwaitingAssociation | Established | Closed | Fault

  /** How far the handling of a well-formed TPDU gets. */
  datatype Handling =
    | Ready(first: nat, second: nat)   // the sizes or identifiers it settles
    | LacksRoom                        // response or workspace buffer too small; nothing changes
    | Unusable                         // protocol violation or backend failure

  /** What a TCP window turns out to hold. */
  datatype Window =
    | Incomplete
    | NotTpkt
    | NotCotp
    | DisconnectRequest
    | ConnectionRequest(handling: Handling)
    | Data(usable: bool, handling: Handling)   // usable: end mark present, or not asked for
    | OtherTpdu

  datatype Connection = Connection(
    phase: Phase, contextId: nat, tpduSize: nat, pduSize: nat, active: bool, closeNotified: bool)

  const FRESH: Connection := Connection(AwaitingCotpConnect, 0, 0, 0, false, false)

  datatype Event = TcpWindow(window: Window) | CloseTransport | Reset

  /** A connection after an event, and whether the event reported an association's end to the callback. */
  datatype Step = Step(next: Connection, told: bool)

  /** `configured`: there is a callback and the association has a number. */
  function Notify(c: Connection, configured: bool): Step {
    if !c.active || c.closeNotified then Step(c, false)
    else Step(c.(closeNotified := true, active := false), configured)
  }

  function Close(c: Connection, configured: bool): Step {
    var s := Notify(c, configured);
    s.(next := s.next.(phase := Closed, contextId := 0, tpduSize := 0, pduSize := 0))
  }

  function Faulted(c: Connection): Step {
    Step(c.(phase := Fault), false)
  }

  function Process(c: Connection, w: Window, configured: bool): Step {
    if c.phase == Closed || c.phase == Fault || w.Incomplete? then Step(c, false)
    else if w.NotTpkt? || w.NotCotp? then Faulted(c)
    else if w.DisconnectRequest? then Close(c, configured)
    else if c.phase == AwaitingCotpConnect then
      if !w.ConnectionRequest? || w.handling.Unusable? then Faulted(c)
      else if w.handling.LacksRoom? then Step(c, false)
      else Step(c.(tpduSize := w.handling.first, phase := AwaitingAssociation), false)
    else if !w.Data? || !w.usable || w.handling.Unusable? then Faulted(c)
    else if w.handling.LacksRoom? || c.phase == Established then Step(c, false)
    else if w.handling.first == 0 then Faulted(c)
    else
      Step(c.(contextId := w.handling.first, pduSize := w.handling.second, phase := Established,
              active := true, closeNotified := false), false)
  }

  function React(c: Connection, e: Event, configured: bool): Step {
    match e
    case TcpWindow(w) => Process(c, w, configured)
    case CloseTransport => Close(c, configured)
    case Reset =>
      var s := Notify(c, configured);
      Step(FRESH, s.told)
  }

  function After(events: seq<Event>, configured: bool): Connection {
    if events == [] then FRESH
    else React(After(events[..|events| - 1], configured), events[|events| - 1], configured).next
  }

  predicate Ends(c: Connection, e: Event) {
    e.CloseTransport? || e.Reset? || (e == TcpWindow(DisconnectRequest) && c.phase != Closed && c.phase != Fault)
  }

  /** Event `i` establishes an association. */
  ghost predicate Establishes(events: seq<Event>, configured: bool, i: nat) {
    && i < |events|
    && !After(events[..i], configured).phase.Established?
    && After(events[..i + 1], configured).phase.Established?
  }

  predicate Sound(c: Connection) {
    && (c.active ==> !c.closeNotified && (c.phase == Established || c.phase == Fault))
    && (c.phase == Established ==> c.active && c.contextId != 0)
    && (c.phase == AwaitingCotpConnect ==> c == FRESH)
    && (c.phase == Closed ==> c.contextId == 0 && c.tpduSize == 0 && c.pduSize == 0)
  }

  lemma {:induction false} AlwaysSound(events: seq<Event>, configured: bool)
    ensures Sound(After(events, configured))
  {
    if events != [] {
      AlwaysSound(events[..|events| - 1], configured);
    }
  }

  /** The association established last is still open: established at `i`, and nothing has ended it since. */
  ghost predicate OpenSince(events: seq<Event>, configured: bool, i: nat) {
    && Establishes(events, configured, i)
    && forall k :: i < k < |events| ==>
         !Ends(After(events[..k], configured), events[k]) && !Establishes(events, configured, k)
  }

  lemma {:induction false} ActiveIsOpen(events: seq<Event>, configured: bool) returns (i: nat)
    requires After(events, configured).active
    ensures OpenSince(events, configured, i)
  {
    var n := |events| - 1;
    var before := events[..n];
    AlwaysSound(before, configured);
    AlwaysSound(events, configured);
    assert events[..n + 1] == events;
    if Establishes(events, configured, n) {
      i := n;
    } else {
      i := ActiveIsOpen(before, configured);
      OpenLonger(events, configured, i);
    }
  }

  lemma OpenLonger(events: seq<Event>, configured: bool, i: nat)
    requires events != [] && OpenSince(events[..|events| - 1], configured, i)
    requires var n := |events| - 1;
      !Ends(After(events[..n], configured), events[n]) && !Establishes(events, configured, n)
    ensures OpenSince(events, configured, i)
  {
    hide After, React, Ends;
    var n := |events| - 1;
    var before := events[..n];
    assert forall k :: 0 <= k <= n ==> before[..k] == events[..k];
    forall k | i < k < n ensures !Establishes(events, configured, k) {
      assert !Establishes(before, configured, k);
    }
  }

  /**
   The end of an association is reported at the first close, reset or disconnect after it
   was established, and only there. A fault alone reports nothing: it leaves the report
   to whatever closes or resets the connection.
   */
  lemma ToldExactlyAtItsEnd(events: seq<Event>, e: Event) returns (i: nat)
    ensures var c := After(events, true);
      React(c, e, true).told <==> Ends(c, e) && c.active
    ensures After(events, true).active ==> OpenSince(events, true, i)
    ensures React(After(events, true), e, true).told ==> !React(After(events, true), e, true).next.active
  {
    AlwaysSound(events, true);
    i := 0;
    if After(events, true).active {
      i := ActiveIsOpen(events, true);
    }
  }

  /** How many associations a run has established, and how many ends it has reported. */
  function Counts(events: seq<Event>, configured: bool): (nat, nat) {
    if events == [] then (0, 0)
    else
      var n := |events| - 1;
      var (made, told) := Counts(events[..n], configured);
      var c := After(events[..n], configured);
      var s := React(c, events[n], configured);
      (if !c.phase.Established? && s.next.phase.Established? then made + 1 else made, if s.told then told + 1 else told)
  }

  /** Each established association is reported once, except one that is still open; without a callback, never. */
  lemma {:induction false} EveryEndToldOnce(events: seq<Event>)
    ensures var (made, told) := Counts(events, true);
      made == told + if After(events, true).active then 1 else 0
    ensures Counts(events, false).1 == 0
  {
    if events != [] {
      var n := |events| - 1;
      EveryEndToldOnce(events[..n]);
      AlwaysSound(events[..n], true);
      ReactCounts(After(events[..n], true), events[n], true);
      ReactCounts(After(events[..n], false), events[n], false);
      hide React;
    }
  }

  function One(b: bool): nat {
    if b then 1 else 0
  }

  lemma ReactCounts(c: Connection, e: Event, configured: bool)
    ensures var s := React(c, e, configured);
      && (s.told ==> configured)
      && (Sound(c) && configured ==>
            var made := !c.phase.Established? && s.next.phase.Established?;
            One(made) + One(c.active) == One(s.told) + One(s.next.active))
  {
  }

  /** Once the connection is closed, reset or disconnected, nothing is left to report. */
  lemma NothingOwedAfterTheEnd(events: seq<Event>, e: Event)
    requires Ends(After(events, true), e)
    ensures var (made, told) := Counts(events + [e], true);
      made == told
  {
    assert (events + [e])[..|events|] == events;
    EveryEndToldOnce(events + [e]);
    AlwaysSound(events, true);
  }

  // ----- The phase, told from the windows

  /** Windows that leave a connection in its phase: not all there yet, or without room for the answer. */
  predicate Waits(w: Window) {
    w == Incomplete || (w.ConnectionRequest? && w.handling == LacksRoom)
  }

  predicate Stalls(w: Window) {
    w == Incomplete || w == Data(true, LacksRoom)
  }

  predicate Serves(w: Window) {
    w == Incomplete || (w.Data? && w.usable && w.handling != Unusable)
  }

  /** Since the start or the reset before event `k` nothing has come of the windows. */
  ghost predicate Quiet(events: seq<Event>, k: nat) {
    && k <= |events| && (k == 0 || events[k - 1] == Reset)
    && forall n :: k <= n < |events| ==> events[n].TcpWindow? && Waits(events[n].window)
  }

  /** Event `i` is the first connection request that was answered, with TPDU size `t`. */
  ghost predicate Connected(events: seq<Event>, i: nat, t: nat) {
    && i < |events| && (exists k :: Quiet(events[..i], k))
    && events[i].TcpWindow? && events[i].window.ConnectionRequest?
    && events[i].window.handling.Ready? && events[i].window.handling.first == t
    && forall n :: i < n < |events| ==> events[n].TcpWindow? && Stalls(events[n].window)
  }

  /** Event `j` is the data that associated, with context `x` and PDU size `y`, over a connection with TPDU size `t`. */
  ghost predicate Associated(events: seq<Event>, j: nat, t: nat, x: nat, y: nat) {
    && j < |events| && x != 0 && (exists i :: Connected(events[..j], i, t))
    && events[j] == TcpWindow(Data(true, Ready(x, y)))
    && forall n :: j < n < |events| ==> events[n].TcpWindow? && Serves(events[n].window)
  }

  /** Event `m` closed the connection and no reset came since. */
  ghost predicate ClosedAt(events: seq<Event>, configured: bool, m: nat) {
    && m < |events|
    && (events[m] == CloseTransport ||
        (events[m] == TcpWindow(DisconnectRequest) && !After(events[..m], configured).phase.Fault?))
    && forall n :: m < n < |events| ==> events[n] != Reset
  }

  lemma QuietNext(front: seq<Event>, e: Event)
    ensures (exists k :: Quiet(front + [e], k)) <==>
            e == Reset || (e.TcpWindow? && Waits(e.window) && exists k :: Quiet(front, k))
  {
    var events := front + [e];
    assert forall n :: 0 <= n < |front| ==> events[n] == front[n];
    assert events[|front|] == e;
    forall k: nat
      ensures Quiet(events, k) <==>
        (Quiet(front, k) && e.TcpWindow? && Waits(e.window)) || (k == |events| && e == Reset)
    {
    }
    assert Quiet(events, |events|) <==> e == Reset;
  }

  lemma ConnectedNext(front: seq<Event>, e: Event, t: nat)
    ensures (exists i :: Connected(front + [e], i, t)) <==>
      || (e.TcpWindow? && Stalls(e.window) && exists i :: Connected(front, i, t))
      || (&& (exists k :: Quiet(front, k)) && e.TcpWindow? && e.window.ConnectionRequest?
          && e.window.handling.Ready? && e.window.handling.first == t)
  {
    hide Quiet;
    var events := front + [e];
    assert forall n :: 0 <= n < |front| ==> events[n] == front[n] && events[..n] == front[..n];
    assert events[|front|] == e && events[..|front|] == front;
    forall i: nat | i < |front|
      ensures Connected(events, i, t) <==> Connected(front, i, t) && e.TcpWindow? && Stalls(e.window)
    {
    }
    assert Connected(events, |front|, t) <==>
      && (exists k :: Quiet(front, k)) && e.TcpWindow? && e.window.ConnectionRequest?
      && e.window.handling.Ready? && e.window.handling.first == t;
  }

  lemma AssociatedNext(front: seq<Event>, e: Event, t: nat, x: nat, y: nat)
    ensures (exists j :: Associated(front + [e], j, t, x, y)) <==>
      || (e.TcpWindow? && Serves(e.window) && exists j :: Associated(front, j, t, x, y))
      || (x != 0 && e == TcpWindow(Data(true, Ready(x, y))) && exists i :: Connected(front, i, t))
  {
    hide Connected;
    var events := front + [e];
    assert forall n :: 0 <= n < |front| ==> events[n] == front[n] && events[..n] == front[..n];
    assert events[|front|] == e && events[..|front|] == front;
    forall j: nat | j < |front|
      ensures Associated(events, j, t, x, y) <==> Associated(front, j, t, x, y) && e.TcpWindow? && Serves(e.window)
    {
    }
    assert Associated(events, |front|, t, x, y) <==>
      x != 0 && e == TcpWindow(Data(true, Ready(x, y))) && exists i :: Connected(front, i, t);
  }

  /** Waiting for a connection request exactly if nothing has come of the windows since the start or a reset. */
  lemma {:induction false} FreshExactly(events: seq<Event>, configured: bool)
    ensures After(events, configured).phase == AwaitingCotpConnect <==> exists k :: Quiet(events, k)
  {
    if events == [] {
      assert Quiet(events, 0);
    } else {
      var front, e := events[..|events| - 1], events[|events| - 1];
      assert events == front + [e];
      FreshExactly(front, configured);
      QuietNext(front, e);
      hide Quiet;
    }
  }

  /** Waiting for an association exactly if a connection request was answered and nothing has come since. */
  lemma {:induction false} ConnectedExactly(events: seq<Event>, configured: bool, t: nat)
    ensures var c := After(events, configured);
      c.phase == AwaitingAssociation && c.tpduSize == t <==> exists i :: Connected(events, i, t)
  {
    if events != [] {
      var front, e := events[..|events| - 1], events[|events| - 1];
      assert events == front + [e];
      ConnectedExactly(front, configured, t);
      FreshExactly(front, configured);
      ConnectedNext(front, e, t);
      hide Connected, Quiet;
    }
  }

  /** Established exactly if data then associated and only served or incomplete windows came since. */
  lemma {:induction false} EstablishedExactly(events: seq<Event>, configured: bool, t: nat, x: nat, y: nat)
    ensures var c := After(events, configured);
      c.phase == Established && c.tpduSize == t && c.contextId == x && c.pduSize == y <==>
      exists j :: Associated(events, j, t, x, y)
  {
    if events != [] {
      var front, e := events[..|events| - 1], events[|events| - 1];
      assert events == front + [e];
      EstablishedExactly(front, configured, t, x, y);
      AlwaysSound(front, configured);
      ConnectedExactly(front, configured, t);
      AssociatedNext(front, e, t, x, y);
      hide Associated, Connected;
    }
  }

  /** Closed exactly if the transport was closed, or a peer disconnected without a fault, and no reset came since. */
  lemma {:induction false} ClosedExactly(events: seq<Event>, configured: bool)
    ensures After(events, configured).phase == Closed <==> exists m :: ClosedAt(events, configured, m)
  {
    if events != [] {
      var front, e := events[..|events| - 1], events[|events| - 1];
      assert events == front + [e];
      ClosedExactly(front, configured);
      ClosedNext(front, e, configured);
      hide ClosedAt;
    }
  }

  lemma ClosedNext(front: seq<Event>, e: Event, configured: bool)
    ensures (exists m :: ClosedAt(front + [e], configured, m)) <==>
      || (e != Reset && exists m :: ClosedAt(front, configured, m))
      || e == CloseTransport
      || (e == TcpWindow(DisconnectRequest) && !After(front, configured).phase.Fault?)
  {
    hide After;
    var events := front + [e];
    assert forall n :: 0 <= n < |front| ==> events[n] == front[n] && events[..n] == front[..n];
    assert events[|front|] == e && events[..|front|] == front;
    forall m: nat | m < |front|
      ensures ClosedAt(events, configured, m) <==> ClosedAt(front, configured, m) && e != Reset
    {
    }
    assert ClosedAt(events, configured, |front|) <==>
      e == CloseTransport || (e == TcpWindow(DisconnectRequest) && !After(front, configured).phase.Fault?);
  }

  class ConnectionRuntime {
    const configured: bool
    var phase: Phase
    var contextId: nat
    var tpduSize: nat
    var pduSize: nat
    var active: bool
    var closeNotified: bool
    var notices: nat

    constructor (configured: bool)
      ensures this.configured == configured && View() == FRESH && notices == 0
    {
      this.configured := configured;
      phase, contextId, tpduSize, pduSize := AwaitingCotpConnect, 0, 0, 0;
      active, closeNotified, notices := false, false, 0;
    }

    ghost function View(): Connection
      reads this
    {
      Connection(phase, contextId, tpduSize, pduSize, active, closeNotified)
    }

    method NotifyAssociationClosed()
      modifies this
      ensures View() == Notify(old(View()), configured).next
      ensures notices == old(notices) + if Notify(old(View()), configured).told then 1 else 0
    {
      if !active || closeNotified {
        return;
      }
      closeNotified := true;
      active := false;
      if !configured {
        return;
      }
      notices := notices + 1;
    }

    method ShutTransport()
      modifies this
      ensures View() == React(old(View()), CloseTransport, configured).next
      ensures notices == old(notices) + if React(old(View()), CloseTransport, configured).told then 1 else 0
    {
      NotifyAssociationClosed();
      phase, contextId, tpduSize, pduSize := Closed, 0, 0, 0;
    }

    method StartOver()
      modifies this
      ensures View() == React(old(View()), Reset, configured).next
      ensures notices == old(notices) + if React(old(View()), Reset, configured).told then 1 else 0
    {
      NotifyAssociationClosed();
      phase, contextId, tpduSize, pduSize := AwaitingCotpConnect, 0, 0, 0;
      active, closeNotified := false, false;
    }

    method ProcessTcpWindow(w: Window)
      modifies this
      ensures View() == React(old(View()), TcpWindow(w), configured).next
      ensures notices == old(notices) + if React(old(View()), TcpWindow(w), configured).told then 1 else 0
    {
      if phase == Closed || phase == Fault || w.Incomplete? {
        return;
      }
      if w.NotTpkt? || w.NotCotp? {
        phase := Fault;
        return;
      }
      if w.DisconnectRequest? {
        ShutTransport();
        return;
      }
      if phase == AwaitingCotpConnect {
        if !w.ConnectionRequest? || w.handling.Unusable? {
          phase := Fault;
        } else if w.handling.Ready? {
          tpduSize, phase := w.handling.first, AwaitingAssociation;
        }
        return;
      }
      if !w.Data? || !w.usable {
        phase := Fault;
        return;
      }
      if phase == AwaitingAssociation {
        match w.handling
        case Unusable => phase := Fault;
        case LacksRoom =>
        case Ready(context, size) =>
          if context == 0 {
            phase := Fault;
            return;
          }
          contextId, pduSize, phase := context, size, Established;
          active, closeNotified := true, false;
        return;
      }
      if w.handling.Unusable? {
        phase := Fault;
      }
    }
  }
}
