/**
 Connections and the reservation of a report control block together: requests reach the
 block over established connections, and the report of a connection's end is what frees it.
 */
module ServedReports {
  import opened Octets
  import opened BrcbLog
  import opened BrcbHistory
  import opened Reservation
  import Life = ConnectionLifecycle

  datatype Joint = Joint(connections: map<u64, Life.Connection>, world: World)

  function ConnectionOf(j: Joint, a: u64): Life.Connection {
    if a in j.connections then j.connections[a] else Life.FRESH
  }

  datatype Happening =
    | Network(a: u64, event: Life.Event)
    | Served(a: u64, act: Act)
    | Internal(op: Op)

  /** The act is a request or a delivery of association `a`. */
  predicate OnBehalf(a: u64, act: Act) {
    match act
    case ReserveAct(client, _) => client.association == a
    case ReleaseAct(client) => client.association == a
    case ExecuteAct(client, _) => client.association == a
    case PollAct(connection) => connection.association == a
    case CommitSentAct(connection, _) => connection.association == a
    case ClosedAct(_) => false
    case ProcessAct(_) => false
  }

  function Happen(c: Config, j: Joint, h: Happening, now: u64): Joint
    requires c.capacity > 0
  {
    match h
    case Network(a, event) =>
      var s := Life.React(ConnectionOf(j, a), event, a != 0);
      Joint(j.connections[a := s.next], if s.told then Closed(j.world, a, now) else j.world)
    case Served(a, act) =>
      if OnBehalf(a, act) && ConnectionOf(j, a).phase == Life.Established
      then j.(world := Do(c, j.world, act, now))
      else j
    case Internal(op) => j.(world := Do(c, j.world, ProcessAct(op), now))
  }

  datatype Dated = Dated(happening: Happening, now: u64)

  function HappenAll(c: Config, j: Joint, hs: seq<Dated>): Joint
    requires c.capacity > 0
  {
    if hs == [] then j
    else
      var k := |hs| - 1;
      Happen(c, HappenAll(c, j, hs[..k]), hs[k].happening, hs[k].now)
  }

  /** The connected owner of the block is an association whose end has not been reported. */
  ghost predicate Linked(j: Joint) {
    && Guarded(j.world)
    && (forall a :: Life.Sound(ConnectionOf(j, a)))
    && (j.world.holder.connected ==> ConnectionOf(j, j.world.holder.association).active)
  }

  /** Whom an act can leave connected: the owner it found, or the association it came from. */
  lemma DoConnects(c: Config, w: World, act: Act, now: u64)
    requires c.capacity > 0
    ensures var h := Do(c, w, act, now).holder;
      h.connected ==>
        || (w.holder.connected && h.association == w.holder.association)
        || (act.ReserveAct? && h.association == act.client.association)
  {
    hide Step, Perform, SetEnabled, Commit;
  }

  lemma NetworkStep(j: Joint, a: u64, event: Life.Event, now: u64)
    requires Linked(j)
    ensures var s := Life.React(ConnectionOf(j, a), event, a != 0);
      && Life.Sound(s.next)
      && (s.told <==> a != 0 && ConnectionOf(j, a).active && !s.next.active)
  {
    hide Guarded;
    assert Life.Sound(ConnectionOf(j, a));
  }

  lemma LinkedStep(c: Config, j: Joint, h: Happening, now: u64)
    requires c.capacity > 0 && Linked(j)
    ensures Linked(Happen(c, j, h, now))
  {
    hide Life.React, Life.Sound, Do, Closed;
    var j' := Happen(c, j, h, now);
    match h
    case Network(a, event) =>
      NetworkStep(j, a, event, now);
      GuardedStep(c, j.world, ClosedAct(a), now);
      DoIsClosed(c, j.world, a, now);
      ClosedConnects(j.world, a, now);
      forall b ensures Life.Sound(ConnectionOf(j', b)) {
        assert Life.Sound(ConnectionOf(j, b));
      }
    case Served(a, act) =>
      GuardedStep(c, j.world, act, now);
      DoConnects(c, j.world, act, now);
      EstablishedIsActive(ConnectionOf(j, a));
      forall b ensures Life.Sound(ConnectionOf(j', b)) {
        assert ConnectionOf(j', b) == ConnectionOf(j, b);
      }
    case Internal(op) =>
      GuardedStep(c, j.world, ProcessAct(op), now);
      DoConnects(c, j.world, ProcessAct(op), now);
      forall b ensures Life.Sound(ConnectionOf(j', b)) {
        assert ConnectionOf(j', b) == ConnectionOf(j, b);
      }
  }

  lemma EstablishedIsActive(connection: Life.Connection)
    ensures Life.Sound(connection) && connection.phase == Life.Established ==> connection.active
  {
  }

  lemma DoIsClosed(c: Config, w: World, a: u64, now: u64)
    requires c.capacity > 0
    ensures Do(c, w, ClosedAct(a), now) == Closed(w, a, now)
  {
  }

  /** Once its end is reported, an association is nobody's connected owner, and reporting that depended on it is off. */
  lemma ClosedConnects(w: World, a: u64, now: u64)
    requires Guarded(w)
    ensures var w' := Closed(w, a, now);
      && (w'.holder.connected ==> w.holder.connected && w'.holder.association == w.holder.association)
      && (a != 0 ==> !(w'.holder.connected && w'.holder.association == a))
      && (w.holder.connected && w.holder.association == a && a != 0 ==> !w'.brcb.schedule.enabled)
  {
  }

  /** In every run of networks, clients and process, reporting is on only for an owner whose connection still stands. */
  lemma {:induction false} AlwaysLinked(c: Config, j: Joint, hs: seq<Dated>)
    requires c.capacity > 0 && Linked(j)
    ensures Linked(HappenAll(c, j, hs))
    ensures var r := HappenAll(c, j, hs);
      r.world.brcb.schedule.enabled ==>
        ConnectionOf(r, r.world.holder.association).phase in {Life.Established, Life.Fault}
  {
    hide Happen, Guarded;
    if hs != [] {
      var k := |hs| - 1;
      AlwaysLinked(c, j, hs[..k]);
      LinkedStep(c, HappenAll(c, j, hs[..k]), hs[k].happening, hs[k].now);
    }
    EnabledHasOwner(HappenAll(c, j, hs));
  }

  lemma EnabledHasOwner(j: Joint)
    requires Linked(j)
    ensures j.world.brcb.schedule.enabled ==>
      ConnectionOf(j, j.world.holder.association).phase in {Life.Established, Life.Fault}
  {
    assert Life.Sound(ConnectionOf(j, j.world.holder.association));
  }

  /** The end of the owner's connection, however it comes, switches reporting off at once. */
  lemma EndDisables(c: Config, j: Joint, event: Life.Event, now: u64)
    requires c.capacity > 0 && Linked(j) && j.world.holder.connected
    requires Life.Ends(ConnectionOf(j, j.world.holder.association), event)
    ensures !Happen(c, j, Network(j.world.holder.association, event), now).world.brcb.schedule.enabled
  {
    hide Closed;
    var a := j.world.holder.association;
    assert Life.Sound(ConnectionOf(j, a));
    NetworkStep(j, a, event, now);
    ClosedConnects(j.world, a, now);
  }

  /** A fault does not: the block stays enabled for an owner that can no longer be served, until a close or reset. */
  lemma FaultKeepsReporting(c: Config, j: Joint, a: u64, now: u64)
    requires c.capacity > 0 && Linked(j) && j.world.brcb.schedule.enabled && j.world.holder.association == a
    requires ConnectionOf(j, a).phase == Life.Established
    ensures var r := Happen(c, j, Network(a, Life.TcpWindow(Life.NotTpkt)), now);
      ConnectionOf(r, a).phase == Life.Fault && r.world == j.world
  {
  }
}
