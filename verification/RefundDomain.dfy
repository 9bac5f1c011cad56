/** The refund: its statuses, the over-refund guard that every new refund
    passes, and the reading of a gateway's answer. */
module RefundDomain {
  import opened Basics

  datatype RefundStatus = Initiated | InProcess | Done | Rejected

  predicate IsOpen(s: RefundStatus) {
    s == Initiated || s == InProcess
  }

  /** Counted by SumActiveRefunds. */
  predicate IsActive(s: RefundStatus) {
    s != Rejected
  }

  function RefundAllowed(s: RefundStatus): set<RefundStatus> {
    match s
    case Initiated => {InProcess, Rejected}
    case InProcess => {Done, Rejected}
    case Rejected => {InProcess}
    case Done => {}
  }

  /** The same table read by its columns. */
  function RefundSources(to: RefundStatus): set<RefundStatus> {
    match to
    case Initiated => {}
    case InProcess => {Initiated, Rejected}
    case Done => {InProcess}
    case Rejected => {Initiated, InProcess}
  }

  lemma RefundTableByTarget(from: RefundStatus, to: RefundStatus)
    ensures to in RefundAllowed(from) <==> from in RefundSources(to)
  {
  }

  /** One committed row of the refunds table. */
  datatype RefundRow = RefundRow(
    txn: nat,
    amount: int,
    reason: string,
    initiator: string,
    status: RefundStatus,
    attempts: nat,
    version: nat,
    resolved: bool
  )

  datatype RefundError =
    | InvalidArgument
    | OverRefund(original: int, already: int, requested: int)

  /** The checks and the row of refund.New. The sum is computed in a 64-bit register. */
  function NewRefund(txn: nat, amount: int, original: int, already: int, reason: string, initiator: string)
    : (r: Result<RefundRow, RefundError>)
    ensures r.Ok? ==> r.value.amount == amount > 0 && r.value.txn == txn && r.value.initiator == initiator
    ensures r.Ok? ==> IsOpen(r.value.status) && r.value.attempts == 0 && !r.value.resolved
    ensures r.Ok? ==> reason != "" && initiator != "" && 0 <= already <= original
    ensures r == Err(OverRefund(original, already, amount)) ==> FitsInt64(already + amount) ==> already + amount > original
    ensures r.Ok? && FitsInt64(already + amount) ==> 0 <= already && already + amount <= original
  {
    if amount <= 0 || reason == "" || initiator == "" || original <= 0 || already < 0 || already > original then
      Err(InvalidArgument)
    else if Wrap64(already + amount) > original then
      Err(OverRefund(original, already, amount))
    else
      Ok(RefundRow(txn, amount, reason, initiator, Initiated, 0, 1, false))
  }

  /** On 64-bit inputs that pass the argument checks, the guard accepts exactly the
      refunds that stay within the original amount if and only if the sum fits in
      64 bits: when it does not, an over-refund is let through. */
  lemma OverRefundGuardIsExactIffSumFits(txn: nat, amount: int, original: int, already: int, reason: string, initiator: string)
    requires 0 < amount <= INT64_MAX && 0 < original <= INT64_MAX && 0 <= already <= original
    requires reason != "" && initiator != ""
    ensures (NewRefund(txn, amount, original, already, reason, initiator).Ok? <==> already + amount <= original)
            <==> already + amount <= INT64_MAX
  {
    if already + amount > INT64_MAX {
      assert Wrap64(already + amount) < 0;
    }
  }

  /** A refund of the largest 64-bit amount against an already half-refunded
      transaction of 2 units passes the guard. */
  lemma OverRefundSlipsThroughOnOverflow()
    ensures NewRefund(7, INT64_MAX, 2, 1, "r", "u").Ok? && 1 + INT64_MAX > 2
  {
    assert Wrap64(1 + INT64_MAX) == INT64_MIN;
  }

  datatype ErrorCategory =
    | HardDecline | SoftDecline | NetworkTimeout | GatewayFault | IdempotencyConflict | Ambiguous

  datatype GatewayRefundStatus = GwInitiated | GwProcessing | GwCompleted | GwFailed

  /** What the gateway answered to a refund call. */
  datatype RefundReply = ReplyError(category: ErrorCategory) | ReplyStatus(status: GatewayRefundStatus)

  datatype RefundOutcome = InFlight | Terminal(status: RefundStatus)

  /** Only a definite answer resolves a refund. */
  function ResolveRefundOutcome(reply: RefundReply): (o: RefundOutcome)
    ensures o.Terminal? ==> o.status in {Done, Rejected}
    ensures o == Terminal(Done) <==> reply == ReplyStatus(GwCompleted)
    ensures o == Terminal(Rejected) <==>
      reply == ReplyStatus(GwFailed) || (reply.ReplyError? && reply.category !in {Ambiguous, NetworkTimeout, GatewayFault})
  {
    match reply
    case ReplyError(c) =>
      if c in {Ambiguous, NetworkTimeout, GatewayFault} then InFlight else Terminal(Rejected)
    case ReplyStatus(GwCompleted) => Terminal(Done)
    case ReplyStatus(GwFailed) => Terminal(Rejected)
    case ReplyStatus(_) => InFlight
  }

  /** What Refund.Transition does to a refund, as a function of its value. */
  function RefundTransitioned(r: RefundRow, to: RefundStatus): Option<RefundRow> {
    if to in RefundAllowed(r.status) then Some(r.(status := to, resolved := !IsOpen(to))) else None
  }

  /** The object the refund service holds between loading and saving a refund. */
  class Refund {
    const txn: nat
    const amount: int
    const reason: string
    const initiator: string
    var status: RefundStatus
    var attempts: nat
    var version: nat
    var resolved: bool

    constructor (row: RefundRow)
      ensures Row() == row
    {
      txn, amount, reason, initiator := row.txn, row.amount, row.reason, row.initiator;
      status, attempts, version, resolved := row.status, row.attempts, row.version, row.resolved;
    }

    function Row(): RefundRow
      reads this
    {
      RefundRow(txn, amount, reason, initiator, status, attempts, version, resolved)
    }

    method Transition(to: RefundStatus) returns (ok: bool)
      modifies this
      ensures match RefundTransitioned(old(Row()), to)
              case Some(row) => ok && Row() == row
              case None => !ok && Row() == old(Row())
      ensures ok <==> old(status) in RefundSources(to)
      ensures ok ==> Row() == old(Row()).(status := to, resolved := to == Done || to == Rejected)
    {
      RefundTableByTarget(status, to);
      if to !in RefundAllowed(status) {
        return false;
      }
      status := to;
      if to == Done || to == Rejected {
        resolved := true;
      } else {
        resolved := false;
      }
      return true;
    }
  }
}
