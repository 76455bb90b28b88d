/**
 The other end of the dynamic control block trial: a server with report control blocks
 and DataSets, the requests it is sent, and every way in which an exchange can end.
 */
module RcbServer {
  import opened Octets

  datatype Writer = Nobody | Us | Others

  /** The truth about one control block: who bound, enabled and reserved it last. */
  datatype Block = Block(binding: Writer, enabled: Writer, reserved: Writer)

  const UNTOUCHED: Block := Block(Nobody, Nobody, Nobody)

  /** A free block that someone else has left bound. */
  const LEFT_BOUND: Block := Block(Others, Nobody, Nobody)

  datatype Remote = Remote(blocks: map<nat, Block>, defined: bool)

  function BlockOf(r: Remote, rcb: nat): Block {
    if rcb in r.blocks then r.blocks[rcb] else UNTOUCHED
  }

  datatype Request =
    | ReadModel
    | Define | ReadDirectory | Delete
    | ReadRcb(rcb: nat) | ConfirmationRead(rcb: nat)
    | BindDatSet(rcb: nat) | ClearDatSet(rcb: nat)
    | WriteRptEna(rcb: nat, on: bool) | WriteResv(rcb: nat, on: bool) | WriteGi(rcb: nat)

  /** Write, Define and Delete; everything else only reads. */
  predicate Mutates(q: Request) {
    !q.ReadModel? && !q.ReadDirectory? && !q.ReadRcb? && !q.ConfirmationRead?
  }

  /** The control block a request is about. */
  function Target(q: Request): Option<nat> {
    match q
    case ReadModel => None
    case Define => None
    case ReadDirectory => None
    case Delete => None
    case ReadRcb(rcb) => Some(rcb)
    case ConfirmationRead(rcb) => Some(rcb)
    case BindDatSet(rcb) => Some(rcb)
    case ClearDatSet(rcb) => Some(rcb)
    case WriteRptEna(rcb, _) => Some(rcb)
    case WriteResv(rcb, _) => Some(rcb)
    case WriteGi(rcb) => Some(rcb)
  }

  function WithBlock(r: Remote, rcb: nat, b: Block): Remote {
    r.(blocks := r.blocks[rcb := b])
  }

  function Effect(r: Remote, q: Request): Remote {
    match q
    case Define => r.(defined := true)
    case Delete => r.(defined := false)
    case BindDatSet(rcb) => WithBlock(r, rcb, BlockOf(r, rcb).(binding := Us))
    case ClearDatSet(rcb) => WithBlock(r, rcb, BlockOf(r, rcb).(binding := Nobody))
    case WriteRptEna(rcb, on) => WithBlock(r, rcb, BlockOf(r, rcb).(enabled := if on then Us else Nobody))
    case WriteResv(rcb, on) => WithBlock(r, rcb, BlockOf(r, rcb).(reserved := if on then Us else Nobody))
    case _ => r
  }

  /** A DataSet name as a block shows it: none, this run's, or another. */
  type Name = nat
  const NONE: Name := 0
  const OURS: Name := 1

  /** What a read of a control block tells; in a partial one DatSet or RptEna could not be read. */
  datatype Seen = Seen(
    enabled: Option<bool>, reserved: Option<bool>, reservationTime: Option<nat>, dataSet: Name,
    revision: Option<nat>, inUse: bool, partial: bool)

  const NOTHING_SEEN: Seen := Seen(None, None, None, NONE, None, false, false)

  /**
   How an exchange can end. A lost reply faults the association; a reply that arrives but
   does not read as success may hide that the request was carried out.
   */
  datatype Reply = Confirmed(seen: Seen) | Refused | Garbled | Lost(applied: bool) | Unsent

  datatype Sent = Sent(request: Request, before: Remote)

  /** The n-th reply, to this request, by a server in this state. */
  type Replies = (nat, Request, Remote) -> Reply

  class Association {
    const replies: Replies
    var associated: bool
    var asked: nat
    var remote: Remote
    ghost var log: seq<Sent>
    ghost var garbled: set<Request>

    constructor (replies: Replies, remote: Remote)
      ensures this.replies == replies && associated && asked == 0
      ensures this.remote == remote && log == [] && garbled == {}
    {
      this.replies, associated, asked, this.remote, log, garbled := replies, true, 0, remote, [], {};
    }

    method Exchange(q: Request) returns (ok: bool, seen: Seen)
      modifies this
      ensures ok ==>
        && old(associated) && associated && remote == Effect(old(remote), q)
        && log == old(log) + [Sent(q, old(remote))] && garbled == old(garbled)
      ensures !ok ==>
        && (log == old(log) || log == old(log) + [Sent(q, old(remote))])
        && (remote == old(remote) || remote == Effect(old(remote), q))
        && old(garbled) <= garbled <= old(garbled) + {q}
        && (associated ==> old(associated) && (remote == old(remote) || q in garbled))
      ensures !old(associated) ==> !ok && log == old(log) && remote == old(remote)
      ensures old(asked) <= asked && (old(associated) ==> old(asked) < asked)
      ensures old(associated) ==>
        log == if replies(old(asked), q, old(remote)) == Unsent then old(log) else old(log) + [Sent(q, old(remote))]
      ensures old(associated) ==>
        match replies(old(asked), q, old(remote))
        case Confirmed(s) => ok && seen == s
        case Refused => !ok && associated && remote == old(remote) && garbled == old(garbled)
        case Garbled => !ok && associated && remote == Effect(old(remote), q) && garbled == old(garbled) + {q}
        case _ => !ok
    {
      seen := NOTHING_SEEN;
      if !associated {
        return false, seen;
      }
      var reply := replies(asked, q, remote);
      asked := asked + 1;
      if reply == Unsent {
        return false, seen;
      }
      log := log + [Sent(q, remote)];
      match reply
      case Confirmed(s) =>
        remote := Effect(remote, q);
        return true, s;
      case Garbled =>
        remote := Effect(remote, q);
        garbled := garbled + {q};
        return false, seen;
      case Lost(applied) =>
        remote := if applied then Effect(remote, q) else remote;
        associated := false;
        return false, seen;
      case _ =>
        return false, seen;
    }
  }

  // ----- What servers show

  /** The n-th reply, to a read of this block by a server in this state, shows this DataSet name. */
  ghost predicate Shows(association: Association, i: nat, r: Remote, rcb: nat, name: Name) {
    var reply := association.replies(i, ReadRcb(rcb), r);
    reply.Confirmed? && reply.seen.dataSet == name
  }

  /** While the blocks are as in `r`, reads of this one show a DatSet exactly if it is bound. */
  ghost predicate HonestReads(association: Association, r: Remote, rcb: nat) {
    forall i, s: Remote, name :: s.blocks == r.blocks && Shows(association, i, s, rcb, name) ==>
      (name == NONE <==> BlockOf(r, rcb).binding == Nobody)
  }

  /** One read shows no DatSet in state `r`, and a later one this run's, with every block as it was. */
  ghost predicate Appears(association: Association, r: Remote, rcb: nat) {
    exists i: nat, j: nat, s: Remote ::
      i < j && s.blocks == r.blocks && Shows(association, i, r, rcb, NONE) && Shows(association, j, s, rcb, OURS)
  }

  lemma HonestNeverAppears(association: Association, r: Remote, rcb: nat)
    requires HonestReads(association, r, rcb)
    ensures !Appears(association, r, rcb)
  {
    hide Shows;
  }

  // ----- Servers that say what there is

  /**
   What there is to read of a block. Every binding names the DataSet that this run defines,
   one of others included, as an earlier run can leave it; the name shows while the
   DataSet exists.
   */
  function Display(r: Remote, q: Request): Seen {
    match Target(q)
    case None => NOTHING_SEEN
    case Some(rcb) =>
      var b := BlockOf(r, rcb);
      Seen(Some(b.enabled != Nobody), Some(b.reserved != Nobody), None,
           if b.binding != Nobody && r.defined then OURS else NONE, Some(1), false, false)
  }

  /** The server answers this request, in this state, by what there is. */
  ghost predicate Displays(association: Association, q: Request, r: Remote) {
    forall i :: association.replies(i, q, r) == Confirmed(Display(r, q))
  }

  /** A perfect server and two ways of not being one. */
  datatype Fault = Flawless | RefusesUnbind | GarblesBind

  function Scripted(fault: Fault, q: Request, r: Remote): Reply {
    if fault == RefusesUnbind && q.ClearDatSet? then Refused
    else if fault == GarblesBind && q.BindDatSet? then Garbled
    else Confirmed(Display(r, q))
  }

  ghost predicate Behaves(association: Association, fault: Fault) {
    forall i, q, r :: association.replies(i, q, r) == Scripted(fault, q, r)
  }

  // ----- Stretches of a log

  /** Nothing but reads. */
  ghost predicate OnlyReads(log: seq<Sent>) {
    forall s <- log :: !Mutates(s.request)
  }

  /** The request does not switch off or release what others have set. */
  predicate Spares(s: Sent, rcb: nat) {
    var b := BlockOf(s.before, rcb);
    && (s.request == WriteRptEna(rcb, false) ==> b.enabled != Others)
    && (s.request == WriteResv(rcb, false) ==> b.reserved != Others)
  }

  /**
   A stretch in which only block `rcb` is written, no DataSet is defined or deleted, no
   binding cleared, and nothing of others switched off.
   */
  ghost predicate Quiet(before: seq<Sent>, after: seq<Sent>, rcb: nat) {
    && before <= after
    && forall i :: |before| <= i < |after| ==>
         var q := after[i].request;
         && !q.Define? && !q.Delete? && !q.ClearDatSet? && (Mutates(q) ==> Target(q) == Some(rcb))
         && Spares(after[i], rcb)
  }
}
