/** Whole runs of the ledger: every interleaving of actors that act on rows they
    read at any earlier time. */
module LedgerRuns {
  import opened Basics
  import opened TransactionDomain
  import opened RefundDomain
  import opened Ledger
  import opened LedgerInvariant
  import opened LedgerSteps
  import opened Proration

  ghost predicate IsRun(ws: seq<World>, acts: seq<Action>) {
    |ws| == |acts| + 1 && ws[0] == EMPTY_WORLD
    && forall i :: 0 <= i < |acts| ==> Step(ws[i], acts[i], ws[i + 1])
  }

  /** Every reachable state satisfies the invariant, and every step keeps what Kept says. */
  lemma {:induction false} RunKeeps(ws: seq<World>, acts: seq<Action>, n: nat)
    requires IsRun(ws, acts) && n < |ws|
    ensures Inv(ws[n])
    ensures n > 0 ==> Kept(ws[n - 1], ws[n])
  {
    hide Inv, Apply, Enabled, TxnsMove, RefundsMove;
    if n == 0 {
      EmptyInv();
    } else {
      RunKeeps(ws, acts, n - 1);
      StepKeeps(ws[n - 1], acts[n - 1], ws[n]);
    }
  }

  lemma EmptyInv()
    ensures Inv(EMPTY_WORLD)
  {
    forall id: nat ensures RefundEventsOk([], [], id) {}
  }

  // ------------------------------------------------------------ transactions

  /** The committed statuses of a transaction are a stuttering path in the transition
      table, whatever copies the actors worked from. */
  lemma StatusesFormPath(ws: seq<World>, acts: seq<Action>, n: nat, id: nat)
    requires IsRun(ws, acts) && n < |acts| && id in ws[n].txns
    ensures id in ws[n + 1].txns
    ensures var s, s' := ws[n].txns[id].status, ws[n + 1].txns[id].status; s' == s || s' in Allowed(s)
    ensures RowMoves(ws[n].txns[id], ws[n + 1].txns[id])
  {
    RunKeeps(ws, acts, n + 1);
  }

  /** What a path in the table can no longer undo. */
  ghost predicate Onward(r: TxnRow, r': TxnRow) {
    && r'.amount == r.amount && r.version <= r'.version
    && (r.status !in {Pending, Processing, Authorized, Failed, Cancelled} ==>
          r'.status !in {Pending, Processing, Authorized, Failed, Cancelled})
    && (r.status in {Refunded, Cancelled} ==> r'.status == r.status)
    && (r.status != Pending ==> r'.status != Pending)
    && (r.cancelIntent ==> r'.cancelIntent)
    && (r.gatewayRef != "" ==> r'.gatewayRef != "")
    && (r.status != Pending ==> r'.gatewayAmount == r.gatewayAmount)
  }

  /** A captured payment never returns to a status before capture; REFUNDED and CANCELLED
      are final; a cancel request and a gateway reference are never lost. */
  lemma {:induction false} NoLostUpdates(ws: seq<World>, acts: seq<Action>, i: nat, j: nat, id: nat)
    requires IsRun(ws, acts) && i <= j < |ws| && id in ws[i].txns
    ensures id in ws[j].txns && Onward(ws[i].txns[id], ws[j].txns[id])
    decreases j
  {
    if i < j {
      NoLostUpdates(ws, acts, i, j - 1, id);
      StatusesFormPath(ws, acts, j - 1, id);
    }
  }

  /** Lease fields are set only while PROCESSING, and a failed payment becomes cancelled
      only if its row carries a cancel request. */
  lemma LeaseAndCancelDiscipline(ws: seq<World>, acts: seq<Action>, n: nat, id: nat)
    requires IsRun(ws, acts) && n < |acts| && id in ws[n].txns
    ensures ws[n].txns[id].lease.Some? ==> ws[n].txns[id].status == Processing
    ensures id in ws[n + 1].txns
    ensures ws[n].txns[id].status == Failed && ws[n + 1].txns[id].status == Cancelled ==> ws[n].txns[id].cancelIntent
  {
    hide Step, RefundsOk, ClaimsOk, EventsOk, ParentsAgree, RefundsMove;
    RunKeeps(ws, acts, n + 1);
    RunKeeps(ws, acts, n);
    assert RowOk(id, ws[n].txns[id]);
  }

  /** Status events of a transaction carry strictly increasing versions in commit order. */
  lemma StatusEventVersionsIncrease(ws: seq<World>, acts: seq<Action>, n: nat, i: nat, j: nat)
    requires IsRun(ws, acts) && n < |ws| && i < j < |ws[n].outbox|
    requires ws[n].outbox[i].StatusEvent? && ws[n].outbox[j].StatusEvent?
    requires ws[n].outbox[i].txn == ws[n].outbox[j].txn
    ensures ws[n].outbox[i].version < ws[n].outbox[j].version
  {
    RunKeeps(ws, acts, n);
  }

  // ------------------------------------------------------------ refunds

  /** In every reachable state the parent's status says what its refund rows are. */
  lemma ParentAgreesWithRefunds(ws: seq<World>, acts: seq<Action>, n: nat, id: nat)
    requires IsRun(ws, acts) && n < |ws| && id in ws[n].txns
    ensures var row, rs := ws[n].txns[id], ws[n].refunds;
      var open, done := Tally(rs, id, Open), Tally(rs, id, DoneAmount);
      && (row.status in {Pending, Processing, Authorized, Captured, Settled, Failed, Cancelled, Disputed} ==>
            forall i :: 0 <= i < |rs| ==> rs[i].txn != id)
      && (row.status == RefundPending ==> open == 1 || (open == 0 && 0 < done < row.amount))
      && (row.status == PartiallyRefunded ==> open == 0 && 0 < done < row.amount)
      && (row.status == RefundFailed ==> open == 0 && done == 0)
  {
    RunKeeps(ws, acts, n);
    var row, rs := ws[n].txns[id], ws[n].refunds;
    assert RowOk(id, row) && Agrees(row, rs);
    forall i | 0 <= i < |rs| && rs[i].txn == id ensures Tally(rs, id, Rows) >= 1 {
      TallyCounts(rs, i);
    }
  }

  /** Active refunds never sum above the amount, and two are never open together. */
  lemma NeverOverRefunded(ws: seq<World>, acts: seq<Action>, n: nat, id: nat)
    requires IsRun(ws, acts) && n < |ws| && id in ws[n].txns
    ensures SumActive(ws[n].refunds, id) <= ws[n].txns[id].amount
    ensures forall i, j :: 0 <= i < j < |ws[n].refunds| && ws[n].refunds[i].txn == id && ws[n].refunds[j].txn == id ==>
              !(IsOpen(ws[n].refunds[i].status) && IsOpen(ws[n].refunds[j].status))
  {
    RunKeeps(ws, acts, n);
    var rs := ws[n].refunds;
    assert RowOk(id, ws[n].txns[id]) && Agrees(ws[n].txns[id], rs);
    forall i, j | 0 <= i < j < |rs| && rs[i].txn == id && rs[j].txn == id
      ensures !(IsOpen(rs[i].status) && IsOpen(rs[j].status))
    {
      if IsOpen(rs[i].status) && IsOpen(rs[j].status) { TallyCountsTwice(rs, i, j); }
    }
  }

  /** The step that finishes a refund sets the parent to REFUNDED exactly when the done
      refunds add up to its amount. */
  lemma RefundedExactlyWhenAllRefunded(ws: seq<World>, acts: seq<Action>, n: nat, k: nat)
    requires IsRun(ws, acts) && n < |acts| && acts[n] == FinishRefund(k) && k < |ws[n].claims|
    requires ws[n].claims[k].reply == Some(ReplyStatus(GwCompleted)) && ws[n + 1] != ws[n]
    ensures var t := ws[n].claims[k].rf.txn;
      t in ws[n + 1].txns
      && (ws[n + 1].txns[t].status == Refunded
          <==> Tally(ws[n + 1].refunds, t, DoneAmount) == ws[n + 1].txns[t].amount)
  {
    hide RefundsOk, ClaimsOk, EventsOk, ParentsAgree, ApplyFinish, RefundsMove, Tally;
    RunKeeps(ws, acts, n);
    RunKeeps(ws, acts, n + 1);
    ClaimIsOk(ws[n], k);
    FinishTerminalKeeps(ws[n], ws[n].claims[k], Done);
    assert RowMoves(ws[n].txns[ws[n].claims[k].rf.txn], ws[n + 1].txns[ws[n].claims[k].rf.txn]);
  }

  /** A resolved refund never changes again: in particular a failed one never becomes
      active, although the domain's table would allow FAILED to PROCESSING. */
  lemma {:induction false} ResolvedRefundsAreFrozen(ws: seq<World>, acts: seq<Action>, i: nat, j: nat, r: nat)
    requires IsRun(ws, acts) && i <= j < |ws| && r < |ws[i].refunds|
    ensures r < |ws[j].refunds|
    ensures !IsOpen(ws[i].refunds[r].status) ==> ws[j].refunds[r] == ws[i].refunds[r]
    decreases j
  {
    hide Inv, Step, TxnsMove;
    if i < j {
      ResolvedRefundsAreFrozen(ws, acts, i, j - 1, r);
      RunKeeps(ws, acts, j);
      assert RefundMoves(ws[j - 1].refunds[r], ws[j].refunds[r]);
    }
  }

  /** Every refund has exactly one terminal event once it is resolved, of the right kind,
      and none before. */
  lemma ExactlyOneTerminalEvent(ws: seq<World>, acts: seq<Action>, n: nat, r: nat)
    requires IsRun(ws, acts) && n < |ws| && r < |ws[n].refunds|
    ensures CountEvents(ws[n].outbox, r, RefundSucceeded) == (if ws[n].refunds[r].status == Done then 1 else 0)
    ensures CountEvents(ws[n].outbox, r, RefundRejected) == (if ws[n].refunds[r].status == Rejected then 1 else 0)
    ensures CountEvents(ws[n].outbox, r, RefundInitiated) == 1
  {
    RunKeeps(ws, acts, n);
    assert RefundEventsOk(ws[n].outbox, ws[n].refunds, r);
  }

  /** An outcome obtained under a claim that has been superseded is never persisted. */
  lemma OlderClaimNeverPersists(ws: seq<World>, acts: seq<Action>, n: nat, k: nat, l: nat)
    requires IsRun(ws, acts) && n < |acts| && acts[n] == FinishRefund(k)
    requires k < l < |ws[n].claims| && ws[n].claims[l].refund == ws[n].claims[k].refund
    ensures ws[n + 1] == ws[n]
  {
    RunKeeps(ws, acts, n);
    ClaimIsOk(ws[n], k);
    ClaimIsOk(ws[n], l);
  }

  lemma {:induction false} AnsweredClaimsAreClaims(cs: seq<Claim>, id: nat)
    ensures CountClaims(cs, id, true) <= CountClaims(cs, id, false)
  {
    if cs != [] {
      AnsweredClaimsAreClaims(cs[..|cs| - 1], id);
    }
  }

  /** Attempts count exactly the claims, each of which makes one gateway call at most, answered
      or not. */
  lemma GatewayCallsWithinAttempts(ws: seq<World>, acts: seq<Action>, n: nat, r: nat)
    requires IsRun(ws, acts) && n < |ws| && r < |ws[n].refunds|
    ensures CountClaims(ws[n].claims, r, false) == ws[n].refunds[r].attempts
    ensures CountClaims(ws[n].claims, r, true) <= ws[n].refunds[r].attempts
  {
    RunKeeps(ws, acts, n);
    AnsweredClaimsAreClaims(ws[n].claims, r);
  }

  // ------------------------------------------------------------ proration

  function DoneAmounts(rs: seq<RefundRow>, id: nat): seq<int> {
    if rs == [] then []
    else DoneAmounts(rs[..|rs| - 1], id)
         + (var r := rs[|rs| - 1]; if r.txn == id && r.status == Done then [r.amount] else [])
  }

  lemma {:induction false} DoneAmountsSum(rs: seq<RefundRow>, id: nat, limit: int)
    requires AmountsPositive(rs) && Tally(rs, id, DoneAmount) <= limit
    ensures Sum(DoneAmounts(rs, id)) == Tally(rs, id, DoneAmount)
    ensures forall i :: 0 <= i < |DoneAmounts(rs, id)| ==> 0 < DoneAmounts(rs, id)[i] <= limit
  {
    if rs != [] {
      var front := rs[..|rs| - 1];
      TallyFacts(front, id);
      DoneAmountsSum(front, id, limit);
      var r := rs[|rs| - 1];
      if r.txn == id && r.status == Done {
        assert DoneAmounts(rs, id)[..|DoneAmounts(rs, id)| - 1] == DoneAmounts(front, id);
      } else {
        assert DoneAmounts(rs, id) == DoneAmounts(front, id);
      }
    }
  }

  /** In every reachable state, the shares of a payment's done refunds in its committed charge
      add up to no more than the charge. */
  lemma ProratedRefundsWithinCharge(ws: seq<World>, acts: seq<Action>, n: nat, id: nat)
    requires IsRun(ws, acts) && n < |ws| && id in ws[n].txns && ws[n].txns[id].gatewayAmount.Some?
    requires ws[n].txns[id].gatewayAmount.value * ws[n].txns[id].amount <= INT64_MAX
    ensures ws[n].txns[id].amount > 0
    ensures Sum(Shares(ws[n].txns[id].gatewayAmount.value, DoneAmounts(ws[n].refunds, id), ws[n].txns[id].amount))
            <= ws[n].txns[id].gatewayAmount.value
  {
    RunKeeps(ws, acts, n);
    var row, rs := ws[n].txns[id], ws[n].refunds;
    var g := row.gatewayAmount.value;
    assert RowOk(id, row) && Agrees(row, rs);
    TallyFacts(rs, id);
    DoneAmountsSum(rs, id, row.amount);
    var xs := DoneAmounts(rs, id);
    forall i | 0 <= i < |xs| ensures xs[i] >= 0 && g * xs[i] <= INT64_MAX {
      AtMost(g, xs[i], row.amount);
    }
    SharesWithinCharge(g, xs, row.amount);
  }
}
