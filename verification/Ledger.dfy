/** The shared database of the payment service and the atomic steps its actors
    take on it. One action is one committed (or rolled back) database
    transaction; whatever an actor read beforehand, from the primary, a replica,
    a cache or its own memory, is an argument of the action and may be stale. */
module Ledger {
  import opened Basics
  import opened TransactionDomain
  import opened RefundDomain

  /** One successful claim of a refund: the claimed row and the parent as the
      claimer holds them, and the gateway's answer once there is one. */
  datatype Claim = Claim(refund: nat, rf: RefundRow, parent: TxnRow, reply: Option<RefundReply>)

  datatype RefundEventKind = RefundInitiated | RefundSucceeded | RefundRejected

  /** Outbox events: those that announce a transaction's new status with its version
      (created, captured, settled, ..., dispute resolved), and events of a refund. */
  datatype Event =
    | StatusEvent(txn: nat, version: nat, status: Status)
    | RefundEvent(refund: nat, kind: RefundEventKind, version: nat)

  /** The tables, together with everything an actor may still remember of them. */
  datatype World = World(
    txns: map<nat, TxnRow>,
    seenTxns: set<TxnRow>,            // every row ever committed, and the copies writers kept
    refunds: seq<RefundRow>,          // a refund's id is its position
    seenRefunds: set<(nat, RefundRow)>,
    claims: seq<Claim>,
    outbox: seq<Event>
  )

  const EMPTY_WORLD := World(map[], {}, [], {}, [], [])

  // ------------------------------------------------------------ repositories

  /** TransactionRepository.UpdateStatus: compare-and-swap on the version.
      cancel_intent and amount are not written. */
  function SaveTxn(w: World, mem: TxnRow): Option<World> {
    if mem.id in w.txns && w.txns[mem.id].version == mem.version then
      var row := w.txns[mem.id].(
        status := mem.status, version := mem.version + 1, gatewayRef := mem.gatewayRef,
        lease := mem.lease, gatewayAmount := mem.gatewayAmount);
      Some(w.(txns := w.txns[mem.id := row],
              seenTxns := w.seenTxns + {row, mem.(version := mem.version + 1)}))
    else
      None
  }

  /** RefundRepository.UpdateStatus: compare-and-swap on the version. */
  function SaveRefund(w: World, id: nat, mem: RefundRow): Option<World> {
    if id < |w.refunds| && w.refunds[id].version == mem.version then
      var row := w.refunds[id].(
        status := mem.status, version := mem.version + 1, attempts := mem.attempts, resolved := mem.resolved);
      Some(w.(refunds := w.refunds[id := row], seenRefunds := w.seenRefunds + {(id, row)}))
    else
      None
  }

  /** What a refund contributes to a sum or count over one transaction's rows. */
  datatype Measure = Rows | Open | OpenAmount | DoneAmount

  function Weight(r: RefundRow, m: Measure): int {
    match m
    case Rows => 1
    case Open => if IsOpen(r.status) then 1 else 0
    case OpenAmount => if IsOpen(r.status) then r.amount else 0
    case DoneAmount => if r.status == Done then r.amount else 0
  }

  function Tally(rs: seq<RefundRow>, txn: nat, m: Measure): int {
    if rs == [] then 0
    else Tally(rs[..|rs| - 1], txn, m)
         + (if rs[|rs| - 1].txn == txn then Weight(rs[|rs| - 1], m) else 0)
  }

  /** SumActiveRefunds: initiated, in process and done refunds of a transaction. */
  function SumActive(rs: seq<RefundRow>, txn: nat): int {
    Tally(rs, txn, OpenAmount) + Tally(rs, txn, DoneAmount)
  }

  // ------------------------------------------------------------ gateway answers to payments

  datatype GatewayPaymentStatus =
    | GpPending | GpProcessing | GpAuthorized | GpSucceeded | GpFailed | GpCancelled | GpRefunded | GpAmbiguous

  datatype PaymentReply = PaymentError(category: ErrorCategory) | PaymentStatus(status: GatewayPaymentStatus)

  /** The drivers that end in finalize: ProcessPayment, RecoverExpiredLease, Authorize and Capture. */
  datatype Flow = ChargeFlow | RecoverFlow | AuthorizeFlow | CaptureFlow

  /** resolveOutcome, resolveAuthorizeOutcome and resolveCaptureOutcome:
      the status a definite answer leads to, or None when it stays open. */
  function ResolveOutcome(flow: Flow, reply: PaymentReply): (o: Option<Status>)
    ensures o.Some? ==> o.value in {Captured, Authorized, Failed, Cancelled}
    ensures o == Some(Captured) <==> reply == PaymentStatus(GpSucceeded) && flow != AuthorizeFlow
    ensures o == Some(Cancelled) <==> reply == PaymentStatus(GpCancelled)
    ensures o == Some(Failed) <==>
      reply == PaymentStatus(GpFailed) || (reply.PaymentError? && reply.category !in {Ambiguous, NetworkTimeout})
    ensures o == Some(Authorized) <==>
      || (reply == PaymentStatus(GpAuthorized) && flow != CaptureFlow)
      || (flow == AuthorizeFlow && reply.PaymentStatus? && reply.status in {GpSucceeded, GpPending})
  {
    match reply
    case PaymentError(c) => if c in {Ambiguous, NetworkTimeout} then None else Some(Failed)
    case PaymentStatus(GpFailed) => Some(Failed)
    case PaymentStatus(GpCancelled) => Some(Cancelled)
    case PaymentStatus(GpSucceeded) => if flow == AuthorizeFlow then Some(Authorized) else Some(Captured)
    case PaymentStatus(GpAuthorized) => if flow == CaptureFlow then None else Some(Authorized)
    case PaymentStatus(GpPending) => if flow == AuthorizeFlow then Some(Authorized) else None
    case PaymentStatus(_) => None
  }

  /** EventTypeForTransactionStatus: the statuses that are published downstream. */
  predicate HasEvent(s: Status) {
    s in {Captured, Cancelled, Authorized, Failed, Settled, Refunded}
  }

  /** mapWebhookStatus: the statuses a gateway callback can ask for. */
  predicate WebhookStatus(s: Status) {
    s in {Captured, Authorized, Failed, Cancelled, Refunded}
  }

  /** mapWebhookStatus: the words gateways use. */
  function MapWebhookStatus(word: string): (o: Option<Status>)
    ensures o.Some? ==> WebhookStatus(o.value)
  {
    if word == "succeeded" || word == "success" || word == "captured" || word == "paid" then Some(Captured)
    else if word == "authorized" then Some(Authorized)
    else if word == "failed" || word == "failure" then Some(Failed)
    else if word == "cancelled" || word == "canceled" then Some(Cancelled)
    else if word == "refunded" then Some(Refunded)
    else None
  }

  /** Exactly these statuses have a word, and each word asks for the one it names. */
  lemma WebhookWords(s: Status)
    ensures WebhookStatus(s) <==> exists word :: MapWebhookStatus(word) == Some(s)
    ensures MapWebhookStatus("succeeded") == MapWebhookStatus("success") == MapWebhookStatus("captured")
            == MapWebhookStatus("paid") == Some(Captured)
    ensures MapWebhookStatus("authorized") == Some(Authorized) && MapWebhookStatus("refunded") == Some(Refunded)
    ensures MapWebhookStatus("failed") == MapWebhookStatus("failure") == Some(Failed)
    ensures MapWebhookStatus("cancelled") == MapWebhookStatus("canceled") == Some(Cancelled)
  {
    WordsDiffer();
    var word := match s case Captured => "paid" case Authorized => "authorized" case Failed => "failed"
                        case Cancelled => "canceled" case _ => "refunded";
    assert WebhookStatus(s) ==> MapWebhookStatus(word) == Some(s);
  }

  /** First letters and lengths tell the words apart. */
  lemma WordsDiffer()
    ensures "authorized"[0] == 'a' && "failed"[0] == 'f' && "failure"[0] == 'f' && "refunded"[0] == 'r'
    ensures "succeeded"[0] == 's' && "success"[0] == 's' && "captured"[1] == 'a' && "paid"[0] == 'p'
    ensures "cancelled"[0] == 'c' && "canceled"[0] == 'c' && |"captured"| == |"canceled"| == 8 && "captured"[2] == 'p' && "canceled"[2] == 'n'
  {
  }

  predicate IsRefundable(s: Status) {
    s in {Captured, Settled, PartiallyRefunded, RefundFailed}
  }

  // ------------------------------------------------------------ actions

  datatype Driver = Relay | Reaper

  datatype Action =
    | Create(id: nat, amount: int, manualCapture: bool)
    | StartPayment(mem: TxnRow, lease: Lease)                       // ProcessPayment, first transaction
    | StartAuthorize(mem: TxnRow, lease: Lease)
    | StartCapture(mem: TxnRow, lease: Lease)
    | GatewayInitiate(mem: TxnRow, ref: string, gatewayAmount: Option<int>)
    | Finalize(mem: TxnRow, flow: Flow, answer: PaymentReply, ref: string)
    | Webhook(mem: TxnRow, to: Status)
    | Settle(mem: TxnRow)
    | DisputeOpened(mem: TxnRow)
    | DisputeWon(mem: TxnRow)
    | DisputeLost(mem: TxnRow)
    | RequestCancel(id: nat)
    | InitiateRefund(mem: TxnRow, amount: int, reason: string, initiator: string)
    | ClaimRefund(id: nat, rf: RefundRow, parent: TxnRow, driver: Driver)
    | GatewayAnswers(claim: nat, reply: RefundReply)
    | FinishRefund(claim: nat)

  /** What the code checks on the values it read, before its database transaction;
      a value may be read only if it was committed at some time. */
  ghost predicate Enabled(w: World, a: Action) {
    match a
    case Create(id, amount, _) => id !in w.txns && amount > 0
    case StartPayment(mem, _) => mem in w.seenTxns && mem.status == Pending
    case StartAuthorize(mem, _) => mem in w.seenTxns && mem.manualCapture
    case StartCapture(mem, _) => mem in w.seenTxns && mem.status == Authorized
    case GatewayInitiate(mem, _, g) =>
      mem in w.seenTxns && mem.status == Pending && mem.gatewayRef == "" && (g.Some? ==> g.value >= 0)
    case Finalize(mem, flow, _, _) =>
      mem in w.seenTxns && mem.status == Processing && (flow == RecoverFlow ==> mem.lease.Some?)
    case Webhook(mem, to) => mem in w.seenTxns && WebhookStatus(to)
    case Settle(mem) => mem in w.seenTxns
    case DisputeOpened(mem) => mem in w.seenTxns
    case DisputeWon(mem) => mem in w.seenTxns && mem.status == Disputed
    case DisputeLost(mem) => mem in w.seenTxns && mem.status == Disputed
    case RequestCancel(_) => true
    case InitiateRefund(mem, amount, _, _) =>
      mem in w.seenTxns && IsRefundable(mem.status)
      && FitsInt64(SumActive(w.refunds, mem.id) + amount)
    case ClaimRefund(id, rf, parent, driver) =>
      (id, rf) in w.seenRefunds && parent in w.seenTxns && parent.id == rf.txn
      && rf.status == (match driver case Relay => Initiated case Reaper => InProcess)
    case GatewayAnswers(k, _) => k < |w.claims| && w.claims[k].reply == None
    case FinishRefund(k) => k < |w.claims| && w.claims[k].reply.Some?
  }

  /** TransitionState then UpdateStatus then the status event, or nothing at all. */
  function Move(w: World, mem: TxnRow, to: Status): World {
    match Transitioned(mem, to)
    case Err(_) => w
    case Ok(moved) => Commit(w, moved)
  }

  /** UpdateStatus, and the status event when the status has one. */
  function Commit(w: World, moved: TxnRow): World {
    match SaveTxn(w, moved)
    case None => w
    case Some(w') =>
      if HasEvent(moved.status) then
        w'.(outbox := w'.outbox + [StatusEvent(moved.id, moved.version + 1, moved.status)])
      else w'
  }

  /** TransitionState then UpdateStatus, with no event of the transaction. */
  function MoveQuietly(w: World, mem: TxnRow, to: Status): World {
    match Transitioned(mem, to)
    case Err(_) => w
    case Ok(moved) => SaveTxn(w, moved).GetOr(w)
  }

  function ApplyCreate(w: World, id: nat, amount: int, manual: bool): World {
    var row := TxnRow(id, amount, manual, Pending, 1, "", false, None, None);
    w.(txns := w.txns[id := row], seenTxns := w.seenTxns + {row},
       outbox := w.outbox + [StatusEvent(id, 1, Pending)])
  }

  function ApplyStart(w: World, mem: TxnRow, lease: Lease): World {
    match Transitioned(mem, Processing)
    case Err(_) => w
    case Ok(moved) => SaveTxn(w, moved.(lease := Some(lease))).GetOr(w)
  }

  /** UpdateGatewayReference and the move to PROCESSING share one transaction, so the
      unversioned write of the reference is only ever visible with its version bump.
      No lease fields are set here. */
  function ApplyGatewayInitiate(w: World, mem: TxnRow, ref: string, g: Option<int>): World {
    var charged := if g.Some? then g else mem.gatewayAmount;
    match Transitioned(mem.(gatewayRef := ref, gatewayAmount := charged), Processing)
    case Err(_) => w
    case Ok(moved) => SaveTxn(w, moved).GetOr(w)
  }

  /** The memory finalize saves: a non-empty reference from the gateway replaces the held one. */
  function WithReference(mem: TxnRow, ref: string): TxnRow {
    if ref != "" then mem.(gatewayRef := ref) else mem
  }

  function ApplyFinalize(w: World, mem: TxnRow, flow: Flow, reply: PaymentReply, ref: string): World {
    var mem1 := if reply.PaymentStatus? then WithReference(mem, ref) else mem;
    match ResolveOutcome(flow, reply)
    case Some(to) => Move(w, mem1, to)
    case None => if flow == ChargeFlow then SaveTxn(w, mem1).GetOr(w) else w
  }

  /** SetCancelIntent: sets the flag and leaves the version alone. */
  function ApplyRequestCancel(w: World, id: nat): World {
    if id in w.txns then
      var row := w.txns[id].(cancelIntent := true);
      w.(txns := w.txns[id := row], seenTxns := w.seenTxns + {row})
    else w
  }

  /** Move the parent to REFUND_PENDING and insert the refund, or roll both back. */
  function ApplyInitiateRefund(w: World, mem: TxnRow, amount: int, reason: string, initiator: string): World {
    match Transitioned(mem, RefundPending)
    case Err(_) => w
    case Ok(moved) =>
      match SaveTxn(w, moved)
      case None => w
      case Some(w1) =>
        match NewRefund(mem.id, amount, mem.amount, SumActive(w1.refunds, mem.id), reason, initiator)
        case Err(_) => w
        case Ok(rf) =>
          w1.(refunds := w1.refunds + [rf],
              seenRefunds := w1.seenRefunds + {(|w1.refunds|, rf)},
              outbox := w1.outbox + [RefundEvent(|w1.refunds|, RefundInitiated, rf.version)])
  }

  /** ClaimProcessing: a guarded single-row update; only the winner goes on to call the gateway. */
  function ApplyClaim(w: World, id: nat, rf: RefundRow, parent: TxnRow): World {
    if id < |w.refunds| && IsOpen(w.refunds[id].status) && w.refunds[id].version == rf.version then
      var row := w.refunds[id].(
        status := InProcess, version := rf.version + 1, attempts := w.refunds[id].attempts + 1);
      var held := rf.(status := InProcess, version := rf.version + 1, attempts := rf.attempts + 1);
      w.(refunds := w.refunds[id := row],
         seenRefunds := w.seenRefunds + {(id, row)},
         claims := w.claims + [Claim(id, held, parent, None)])
    else w
  }

  function ApplyAnswer(w: World, k: nat, reply: RefundReply): World
    requires k < |w.claims|
  {
    w.(claims := w.claims[k := w.claims[k].(reply := Some(reply))])
  }

  /** transitionParentOnRefundResult: the parent after a terminal outcome, read against
      the refund rows as they stand inside the transaction. */
  function ParentAfter(rs: seq<RefundRow>, parent: TxnRow, outcome: RefundStatus): Result<TxnRow, TransitionError> {
    var active := SumActive(rs, parent.id);
    if outcome == Done then
      if active >= parent.amount then Transitioned(parent, Refunded) else Transitioned(parent, PartiallyRefunded)
    else if active > 0 then Ok(parent)
    else Transitioned(parent, RefundFailed)
  }

  /** Refund row, parent row and event change together, or not at all. */
  function ApplyFinish(w: World, c: Claim, outcome: RefundOutcome): World {
    match outcome
    case InFlight => SaveRefund(w, c.refund, c.rf).GetOr(w)
    case Terminal(to) =>
      match RefundTransitioned(c.rf, to)
      case None => w
      case Some(rf) =>
        match SaveRefund(w, c.refund, rf)
        case None => w
        case Some(w1) =>
          match ParentAfter(w1.refunds, c.parent, to)
          case Err(_) => w
          case Ok(parent) =>
            match SaveTxn(w1, parent)
            case None => w
            case Some(w2) =>
              w2.(outbox := w2.outbox
                + [RefundEvent(c.refund, if to == Done then RefundSucceeded else RefundRejected, rf.version + 1)])
  }

  /** The database after an action. */
  function Apply(w: World, a: Action): World
    requires a.GatewayAnswers? || a.FinishRefund? ==> a.claim < |w.claims|
    requires a.FinishRefund? ==> w.claims[a.claim].reply.Some?
  {
    match a
    case Create(id, amount, manual) => ApplyCreate(w, id, amount, manual)
    case StartPayment(mem, lease) => ApplyStart(w, mem, lease)
    case StartAuthorize(mem, lease) => ApplyStart(w, mem, lease)
    case StartCapture(mem, lease) => ApplyStart(w, mem, lease)
    case GatewayInitiate(mem, ref, g) => ApplyGatewayInitiate(w, mem, ref, g)
    case Finalize(mem, flow, reply, ref) => ApplyFinalize(w, mem, flow, reply, ref)
    case Webhook(mem, to) => if to == mem.status then w else Move(w, mem, to)
    case Settle(mem) => Move(w, mem, Settled)
    case DisputeOpened(mem) => MoveQuietly(w, mem, Disputed)
    case DisputeWon(mem) => Move(w, mem, Captured)
    case DisputeLost(mem) => Move(w, mem, Refunded)
    case RequestCancel(id) => ApplyRequestCancel(w, id)
    case InitiateRefund(mem, amount, reason, initiator) => ApplyInitiateRefund(w, mem, amount, reason, initiator)
    case ClaimRefund(id, rf, parent, _) => ApplyClaim(w, id, rf, parent)
    case GatewayAnswers(k, reply) => ApplyAnswer(w, k, reply)
    case FinishRefund(k) => ApplyFinish(w, w.claims[k], ResolveRefundOutcome(w.claims[k].reply.value))
  }

  ghost predicate Step(w: World, a: Action, w': World) {
    Enabled(w, a) && w' == Apply(w, a)
  }
}
