/** The payment transaction: its statuses, the transition table, and the
    in-memory object that services load, change and save. */
module TransactionDomain {
  import opened Basics

  datatype Status =
    | Pending | Processing | Authorized | Captured | Settled | Failed | Cancelled
    | RefundPending | PartiallyRefunded | Refunded | RefundFailed | Disputed

  /** The statuses the table allows next. */
  function Allowed(s: Status): set<Status> {
    match s
    case Pending => {Processing, Authorized, Captured, Failed, Cancelled}
    case Processing => {Captured, Authorized, Failed, Cancelled}
    case Authorized => {Processing, Captured, Failed, Cancelled}
    case Captured => {Settled, RefundPending, Refunded, RefundFailed, Disputed}
    case Settled => {RefundPending, Refunded, RefundFailed, Disputed}
    case Failed => {Cancelled}
    case RefundPending => {Refunded, RefundFailed, PartiallyRefunded}
    case PartiallyRefunded => {RefundPending, Refunded, RefundFailed}
    case Refunded => {}
    case RefundFailed => {RefundPending}
    case Disputed => {Captured, Refunded}
    case Cancelled => {}
  }

  /** The processing lease: processing_started_at and processing_timeout, which
      are always set and cleared together. */
  datatype Lease = Lease(startedAt: int, timeout: int)

  /** One committed row of the transactions table (the columns the protocol uses). */
  datatype TxnRow = TxnRow(
    id: nat,
    amount: int,
    manualCapture: bool,
    status: Status,
    version: nat,
    gatewayRef: string,
    cancelIntent: bool,
    lease: Option<Lease>,
    gatewayAmount: Option<int>
  )

  datatype TransitionError = InvalidTransition(from: Status, to: Status) | CancelIntentRequired

  /** Leaving PROCESSING for a resting status releases the lease. */
  predicate ReleasesLease(from: Status, to: Status) {
    from == Processing && to in {Failed, Cancelled, Captured, Settled, Authorized}
  }

  /** What TransitionState does to a transaction, as a function of its value. */
  function Transitioned(t: TxnRow, to: Status): (r: Result<TxnRow, TransitionError>)
    ensures r.Ok? ==> r.value.status == to && to in Allowed(t.status)
  {
    if to !in Allowed(t.status) then Err(InvalidTransition(t.status, to))
    else if t.status == Failed && to == Cancelled && !t.cancelIntent then Err(CancelIntentRequired)
    else Ok(t.(status := to, lease := if ReleasesLease(t.status, to) then None else t.lease))
  }

  /** The same table read by its columns: the statuses from which one is reached. */
  function Sources(to: Status): set<Status> {
    match to
    case Pending => {}
    case Processing => {Pending, Authorized}
    case Authorized => {Pending, Processing}
    case Captured => {Pending, Processing, Authorized, Disputed}
    case Settled => {Captured}
    case Failed => {Pending, Processing, Authorized}
    case Cancelled => {Pending, Processing, Authorized, Failed}
    case RefundPending => {Captured, Settled, PartiallyRefunded, RefundFailed}
    case PartiallyRefunded => {RefundPending}
    case Refunded => {Captured, Settled, RefundPending, PartiallyRefunded, Disputed}
    case RefundFailed => {Captured, Settled, RefundPending, PartiallyRefunded}
    case Disputed => {Captured, Settled}
  }

  lemma TableByTarget(from: Status, to: Status)
    ensures to in Allowed(from) <==> from in Sources(to)
    ensures from == Processing && to in Allowed(from) ==> ReleasesLease(from, to)
  {
  }

  /** The object a service holds between loading and saving a transaction. */
  class Txn {
    const id: nat
    const amount: int
    const manualCapture: bool
    const cancelIntent: bool
    var status: Status
    var version: nat
    var gatewayRef: string
    var lease: Option<Lease>
    var gatewayAmount: Option<int>

    constructor (row: TxnRow)
      ensures Row() == row
    {
      id, amount, manualCapture, cancelIntent := row.id, row.amount, row.manualCapture, row.cancelIntent;
      status, version, gatewayRef := row.status, row.version, row.gatewayRef;
      lease, gatewayAmount := row.lease, row.gatewayAmount;
    }

    /** The value of the object. */
    function Row(): TxnRow
      reads this
    {
      TxnRow(id, amount, manualCapture, status, version, gatewayRef, cancelIntent, lease, gatewayAmount)
    }

    method TransitionState(to: Status) returns (err: Option<TransitionError>)
      modifies this
      ensures match Transitioned(old(Row()), to)
              case Ok(row) => err == None && Row() == row
              case Err(e) => err == Some(e) && Row() == old(Row())
      ensures err == None <==> old(status) in Sources(to) && (old(status) == Failed && to == Cancelled ==> cancelIntent)
      ensures err == None ==> Row() == old(Row()).(status := to, lease := if old(status) == Processing then None else old(lease))
    {
      TableByTarget(status, to);
      hide Allowed, Sources;
      if to !in Allowed(status) {
        return Some(InvalidTransition(status, to));
      }
      if status == Failed && to == Cancelled && !cancelIntent {
        return Some(CancelIntentRequired);
      }
      var previous := status;
      status := to;
      if previous == Processing && to in {Failed, Cancelled, Captured, Settled, Authorized} {
        lease := None;
      }
      return None;
    }
  }
}
