/**
 The control object of one BRCB: its reservation fields, updated in place around the
 runtime it guards, and the two-phase delivery of reports to a connection.
 */
module ReservationControl {
  import opened Octets
  import opened BrcbLog
  import opened BrcbRuntime
  import opened Reservation

  class Control {
    const reports: Runtime

    var owner: seq<byte>
    var associationId: u64
    var reservationExpiresAt: u64
    var resvTms: u32
    var reserved: bool
    var ownerConnected: bool

    ghost function View(): World
      requires reports.Valid()
      reads this, reports, reports.slots, reports.masks
    {
      World(Holder(reserved, ownerConnected, owner, associationId, reservationExpiresAt, resvTms), reports.View())
    }

    constructor (reports: Runtime)
      requires reports.Valid()
      ensures this.reports == reports && View() == World(NOBODY, reports.View())
    {
      this.reports := reports;
      owner, associationId, reservationExpiresAt, resvTms, reserved, ownerConnected := [], 0, 0, 0, false, false;
    }

    method ClearReservation()
      requires reports.Valid()
      modifies this
      ensures View() == old(View()).(holder := NOBODY)
    {
      owner, associationId, reservationExpiresAt, resvTms := [], 0, 0, 0;
      reserved, ownerConnected := false, false;
    }

    method Tick(now: u64)
      requires reports.Valid()
      modifies this, reports, reports.masks
      ensures reports.Valid() && View() == Ticked(old(View()), now)
    {
      if !reserved || ownerConnected || resvTms == 0 {
        return;
      }
      if now < reservationExpiresAt {
        return;
      }
      hide Ring, Unrolled, Restarted;
      reports.SetEnabled(false);
      ClearReservation();
    }

    method Reserve(client: Client, seconds: u32, now: u64) returns (status: ControlStatus)
      requires reports.Valid()
      modifies this, reports, reports.masks
      ensures reports.Valid() && (View(), status) == Reservation.Reserve(old(View()), client, seconds, now)
    {
      hide Ring, Unrolled, Ticked;
      if !client.Valid() {
        return InvalidIdentity;
      }
      Tick(now);
      if reserved {
        if owner != client.owner {
          return AccessDenied;
        }
        if ownerConnected && associationId != client.association {
          return AccessDenied;
        }
      }
      owner, associationId, resvTms, reservationExpiresAt := client.owner, client.association, seconds, 0;
      reserved, ownerConnected := true, true;
      return Granted;
    }

    method RequireAccess(client: Client, now: u64) returns (status: ControlStatus)
      requires reports.Valid()
      modifies this, reports, reports.masks
      ensures reports.Valid() && (View(), status) == Access(old(View()), client, now)
    {
      hide Ring, Unrolled, Ticked;
      if !client.Valid() {
        return InvalidIdentity;
      }
      Tick(now);
      return if reserved && owner == client.owner && ownerConnected && associationId == client.association
             then Granted else AccessDenied;
    }

    method Release(client: Client, now: u64) returns (status: ControlStatus)
      requires reports.Valid()
      modifies this, reports, reports.masks
      ensures reports.Valid() && (View(), status) == Reservation.Release(old(View()), client, now)
    {
      hide Ring, Unrolled, Access;
      status := RequireAccess(client, now);
      if status != Granted {
        return status;
      }
      if reports.enabled {
        return Unavailable;
      }
      ClearReservation();
    }

    /** The guarded services: set_report_enabled, replay_from, resume_after, rewind, purge, GI and reconfiguration. */
    method Execute(client: Client, command: Command, now: u64) returns (status: ControlStatus)
      requires reports.Valid()
      modifies this, reports, reports.slots, reports.masks
      ensures reports.Valid() && (View(), status) == Reservation.Execute(old(View()), client, command, now)
    {
      hide Ring, Unrolled, Access, Perform;
      status := RequireAccess(client, now);
      if status == Granted {
        status := PerformOn(command);
      }
    }

    method PerformOn(command: Command) returns (status: ControlStatus)
      requires reports.Valid()
      modifies reports, reports.slots, reports.masks
      ensures reports.Valid() && (reports.View(), status) == Perform(old(reports.View()), command)
    {
      hide Ring, Unrolled, Restarted, Find, QueueMoved;
      if command.Enable? {
        reports.SetEnabled(command.enabled);
        return Granted;
      }
      if command.Interrogate? != reports.enabled {
        return Unavailable;
      }
      var result := Ok;
      match command {
        case Replay(id) => result := reports.ReplayFrom(id);
        case Resume(id) => result := reports.ResumeAfter(id);
        case RewindBuffer => reports.RewindToOldest();
        case PurgeBuffer => reports.PurgeBuffer();
        case Interrogate => result := reports.RequestGeneralInterrogation();
        case ChangeTriggers(t) => result := reports.SetTriggers(t);
        case ChangePeriod(p) => result := reports.SetIntegrityPeriod(p);
        case ChangeOptional(f) => result := reports.SetOptionalFields(f);
      }
      return Mapped(result);
    }

    method OnAssociationClosed(association: u64, now: u64)
      requires reports.Valid()
      modifies this, reports, reports.masks
      ensures reports.Valid() && View() == Closed(old(View()), association, now)
    {
      hide Ring, Unrolled, Ticked, Restarted;
      Tick(now);
      if !reserved || !ownerConnected || association == 0 || association != associationId {
        return;
      }
      reports.SetEnabled(false);
      associationId, ownerConnected := 0, false;
      if resvTms == 0 {
        ClearReservation();
        return;
      }
      reservationExpiresAt := Deadline(now, resvTms);
    }

    /** Stage the report at the cursor for the live owner; the cursor does not move. */
    method Poll(connection: Connection, now: u64) returns (result: PollResult)
      requires reports.Valid()
      modifies this, reports, reports.masks
      ensures reports.Valid() && (View(), result) == Reservation.Poll(old(View()), connection, now)
    {
      hide Ring, Unrolled, Ticked;
      if !connection.established {
        return NotEstablished;
      }
      Tick(now);
      if !reports.enabled {
        return ReportingDisabled;
      }
      if !reserved || !ownerConnected || associationId == 0 || connection.association != associationId ||
         connection.owner != owner || owner == [] {
        return PollDenied;
      }
      var entry := reports.Front();
      if entry.None? {
        return NoReportAvailable;
      }
      var framing := connection.frame(entry.value.pdu);
      if framing != Framed {
        return Unframed(entry.value.entryId, framing);
      }
      return Ready(entry.value.entryId, entry.value.sequenceNumber, entry.value.bufferOverflow);
    }

    /** The staged report was sent in full: check the ownership again and advance the cursor. */
    method CommitSent(connection: Connection, now: u64, staged: PollResult) returns (sent: bool)
      requires reports.Valid()
      modifies this, reports, reports.masks
      ensures reports.Valid() && (View(), sent) == Reservation.CommitSent(old(View()), connection, now, staged)
    {
      hide Ring, Unrolled, Ticked, Commit;
      if !staged.Ready? || !connection.established {
        return false;
      }
      Tick(now);
      if !reports.enabled || !reserved || !ownerConnected || associationId == 0 {
        return false;
      }
      if connection.association != associationId || connection.owner != owner || owner == [] {
        return false;
      }
      var status := reports.CommitDelivery(staged.entryId);
      return status == Ok;
    }
  }
}
