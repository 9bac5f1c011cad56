/** What exactly the ledger's actions do: which action gives a row its status, when an action
    commits, and what it then writes. */
module LedgerExact {
  import opened Basics
  import opened TransactionDomain
  import opened RefundDomain
  import opened Ledger
  import opened LedgerInvariant
  import opened LedgerSteps
  import opened LedgerRuns
  import opened RefundAsks

  // ------------------------------------------------------------ where a status comes from

  /** The actions that can give the row of a transaction a status. */
  ghost predicate CanMake(a: Action, id: nat, s: Status) {
    match s
    case Pending => false
    case Processing => (a.StartPayment? || a.StartAuthorize? || a.StartCapture? || a.GatewayInitiate?) && a.mem.id == id
    case Authorized =>
      || (a.Finalize? && a.mem.id == id && a.answer == PaymentStatus(GpAuthorized) && a.flow != CaptureFlow)
      || (a.Finalize? && a.mem.id == id && a.flow == AuthorizeFlow
          && (a.answer == PaymentStatus(GpSucceeded) || a.answer == PaymentStatus(GpPending)))
      || (a.Webhook? && a.mem.id == id && a.to == Authorized)
    case Captured =>
      || (a.Finalize? && a.mem.id == id && a.answer == PaymentStatus(GpSucceeded) && a.flow != AuthorizeFlow)
      || (a.Webhook? && a.mem.id == id && a.to == Captured)
      || (a.DisputeWon? && a.mem.id == id)
    case Failed =>
      || (a.Finalize? && a.mem.id == id && a.answer == PaymentStatus(GpFailed))
      || (a.Finalize? && a.mem.id == id && a.answer.PaymentError?
          && a.answer.category != Ambiguous && a.answer.category != NetworkTimeout)
      || (a.Webhook? && a.mem.id == id && a.to == Failed)
    case Cancelled =>
      || (a.Finalize? && a.mem.id == id && a.answer == PaymentStatus(GpCancelled))
      || (a.Webhook? && a.mem.id == id && a.to == Cancelled)
    case Settled => a.Settle? && a.mem.id == id
    case Disputed => a.DisputeOpened? && a.mem.id == id
    case RefundPending => a.InitiateRefund? && a.mem.id == id
    case Refunded =>
      (a.Webhook? && a.mem.id == id && a.to == Refunded) || (a.DisputeLost? && a.mem.id == id) || a.FinishRefund?
    case PartiallyRefunded => a.FinishRefund?
    case RefundFailed => a.FinishRefund?
  }

  /** The row of a transaction keeps its status, or an action that can make it gave it a new one. */
  ghost predicate Made(w: World, a: Action, w': World, id: nat) {
    id in w.txns ==> id in w'.txns && (w'.txns[id].status != w.txns[id].status ==> CanMake(a, id, w'.txns[id].status))
  }

  /** A save changes the status of no other row. */
  lemma SaveMoves(w: World, mem: TxnRow, id: nat)
    ensures var w' := SaveTxn(w, mem).GetOr(w);
      id in w.txns ==> id in w'.txns && (w'.txns[id].status == w.txns[id].status || (id == mem.id && w'.txns[id].status == mem.status))
  {
  }

  lemma MoveMoves(w: World, mem: TxnRow, to: Status, id: nat)
    ensures forall w' :: w' == Move(w, mem, to) || w' == MoveQuietly(w, mem, to) ==>
      (id in w.txns ==> id in w'.txns && (w'.txns[id].status == w.txns[id].status || (id == mem.id && w'.txns[id].status == to)))
  {
    hide Allowed, SaveTxn;
    if Transitioned(mem, to).Ok? {
      SaveMoves(w, Transitioned(mem, to).value, id);
    }
  }

  lemma StatusComesFrom(w: World, a: Action, w': World, id: nat)
    requires Inv(w) && Step(w, a, w')
    ensures Made(w, a, w', id)
  {
    hide Inv, Made, Move, MoveQuietly, ApplyFinish, ApplyInitiateRefund, ApplyClaim, ApplyFinalize, ApplyStart, ApplyGatewayInitiate;
    if a.Webhook? || a.Settle? || a.DisputeOpened? || a.DisputeWon? || a.DisputeLost? {
      DirectMoveMakes(w, a, id);
    } else if a.Finalize? {
      FinalizeMakes(w, a.mem, a.flow, a.answer, a.ref, id);
    } else if a.FinishRefund? {
      FinishMakes(w, a.claim, id);
    } else {
      OtherMakes(w, a, id);
    }
  }

  lemma DirectMoveMakes(w: World, a: Action, id: nat)
    requires Enabled(w, a) && (a.Webhook? || a.Settle? || a.DisputeOpened? || a.DisputeWon? || a.DisputeLost?)
    ensures Made(w, a, Apply(w, a), id)
  {
    hide Move, MoveQuietly;
    match a
    case Webhook(mem, to) => MoveMoves(w, mem, to, id);
    case Settle(mem) => MoveMoves(w, mem, Settled, id);
    case DisputeOpened(mem) => MoveMoves(w, mem, Disputed, id);
    case DisputeWon(mem) => MoveMoves(w, mem, Captured, id);
    case DisputeLost(mem) => MoveMoves(w, mem, Refunded, id);
  }

  lemma OtherMakes(w: World, a: Action, id: nat)
    requires Enabled(w, a) && !(a.Webhook? || a.Settle? || a.DisputeOpened? || a.DisputeWon? || a.DisputeLost? || a.Finalize? || a.FinishRefund?)
    ensures Made(w, a, Apply(w, a), id)
  {
    hide SaveTxn, ApplyClaim, ApplyInitiateRefund, Allowed;
    match a
    case StartPayment(mem, lease) => StartMoves(w, mem, lease, id);
    case StartAuthorize(mem, lease) => StartMoves(w, mem, lease, id);
    case StartCapture(mem, lease) => StartMoves(w, mem, lease, id);
    case GatewayInitiate(mem, ref, g) =>
      var charged := if g.Some? then g else mem.gatewayAmount;
      var t := Transitioned(mem.(gatewayRef := ref, gatewayAmount := charged), Processing);
      if t.Ok? { SaveMoves(w, t.value, id); }
    case InitiateRefund(mem, amount, reason, initiator) => InitiateMoves(w, mem, amount, reason, initiator, id);
    case ClaimRefund(r, rf, parent, _) => ClaimMovesNone(w, r, rf, parent);
    case _ =>
  }

  lemma StartMoves(w: World, mem: TxnRow, lease: Lease, id: nat)
    ensures var w' := ApplyStart(w, mem, lease);
      id in w.txns ==> id in w'.txns && (w'.txns[id].status == w.txns[id].status || (id == mem.id && w'.txns[id].status == Processing))
  {
    hide SaveTxn, Allowed;
    if Transitioned(mem, Processing).Ok? {
      SaveMoves(w, Transitioned(mem, Processing).value.(lease := Some(lease)), id);
    }
  }

  lemma ClaimMovesNone(w: World, r: nat, rf: RefundRow, parent: TxnRow)
    ensures ApplyClaim(w, r, rf, parent).txns == w.txns && ApplyClaim(w, r, rf, parent).outbox == w.outbox
  {
  }

  lemma InitiateMoves(w: World, mem: TxnRow, amount: int, reason: string, initiator: string, id: nat)
    ensures var w' := ApplyInitiateRefund(w, mem, amount, reason, initiator);
      id in w.txns ==> id in w'.txns && (w'.txns[id].status == w.txns[id].status || (id == mem.id && w'.txns[id].status == RefundPending))
  {
    hide SumActive, SaveTxn, Allowed, NewRefund;
    if Transitioned(mem, RefundPending).Ok? {
      SaveMoves(w, Transitioned(mem, RefundPending).value, id);
    }
  }

  lemma FinalizeMakes(w: World, mem: TxnRow, flow: Flow, answer: PaymentReply, ref: string, id: nat)
    requires Inv(w) && mem in w.seenTxns && mem.status == Processing
    ensures Made(w, Finalize(mem, flow, answer, ref), ApplyFinalize(w, mem, flow, answer, ref), id)
  {
    hide Inv, Move, SaveTxn, ResolveOutcome;
    var mem1 := if answer.PaymentStatus? then WithReference(mem, ref) else mem;
    match ResolveOutcome(flow, answer)
    case Some(to) => MoveMoves(w, mem1, to, id);
    case None => SaveInPlace(w, mem, mem1, id);
  }

  /** A save that changes no status of the copy changes none of the row. */
  lemma SaveInPlace(w: World, mem: TxnRow, mem1: TxnRow, id: nat)
    requires Inv(w) && mem in w.seenTxns && mem1.id == mem.id && mem1.version == mem.version && mem1.status == mem.status
    ensures var w' := SaveTxn(w, mem1).GetOr(w);
      id in w.txns ==> id in w'.txns && w'.txns[id].status == w.txns[id].status
  {
    hide RefundsOk, ClaimsOk, EventsOk, ParentsAgree;
    assert RemembersTxn(w.txns, mem);
  }

  /** A refund that finishes leaves its parent in a status of the refund path. */
  lemma FinishMakes(w: World, k: nat, id: nat)
    requires Inv(w) && k < |w.claims| && w.claims[k].reply.Some?
    ensures Made(w, FinishRefund(k), Apply(w, FinishRefund(k)), id)
  {
    hide RefundsOk, ClaimsOk, EventsOk, ParentsAgree, TxnsOk, ApplyFinish;
    var c := w.claims[k];
    ClaimIsOk(w, k);
    match ResolveRefundOutcome(c.reply.value)
    case InFlight => InFlightMovesNone(w, c);
    case Terminal(to) => if id in w.txns { TerminalMoves(w, c, to, id); }
  }

  lemma InFlightMovesNone(w: World, c: Claim)
    ensures ApplyFinish(w, c, InFlight).txns == w.txns
  {
  }

  lemma TerminalMoves(w: World, c: Claim, to: RefundStatus, id: nat)
    requires Inv(w) && ClaimOk(w, c) && to in {Done, Rejected} && id in w.txns
    ensures var w' := ApplyFinish(w, c, Terminal(to));
      id in w'.txns && (w'.txns[id].status == w.txns[id].status || w'.txns[id].status in {Refunded, PartiallyRefunded, RefundFailed})
  {
    hide RefundsOk, ClaimsOk, EventsOk, ParentsAgree, TxnsOk, ApplyFinish, ParentAfter;
    if ApplyFinish(w, c, Terminal(to)) != w {
      TerminalLeaves(w, c, to);
      var w1, row, parent := FinishTerminalCommit(w, c, to);
      ParentAfterMeans(w1.refunds, c.parent, to);
    }
  }

  lemma ParentAfterMeans(rs: seq<RefundRow>, parent: TxnRow, to: RefundStatus)
    ensures var p := ParentAfter(rs, parent, to);
      p.Ok? ==> p.value.id == parent.id && p.value.version == parent.version
                && (p.value.status == parent.status || p.value.status in {Refunded, PartiallyRefunded, RefundFailed})
  {
    hide SumActive;
  }

  /** In every run, a row gets a new status only from an action that may give it: it is CAPTURED
      only by a charge or capture the gateway reported as succeeded, a callback that asks for it
      or a won dispute, and so on for every status. */
  lemma StatusProvenance(ws: seq<World>, acts: seq<Action>, n: nat, id: nat)
    requires IsRun(ws, acts) && n < |acts| && id in ws[n].txns
    ensures id in ws[n + 1].txns
    ensures ws[n + 1].txns[id].status != ws[n].txns[id].status ==> CanMake(acts[n], id, ws[n + 1].txns[id].status)
  {
    hide Inv, Step, CanMake;
    RunKeeps(ws, acts, n);
    StatusComesFrom(ws[n], acts[n], ws[n + 1], id);
  }

  /** In every reachable state the committed row of a transaction offers what its status calls
      for: nothing that should be possible is shut out. */
  lemma StatesOfferActions(ws: seq<World>, acts: seq<Action>, n: nat, id: nat, lease: Lease, answer: PaymentReply, ref: string, to: Status)
    requires IsRun(ws, acts) && n < |ws| && id in ws[n].txns
    ensures var w, row := ws[n], ws[n].txns[id];
      && (row.status == Pending ==> Enabled(w, StartPayment(row, lease)))
      && (row.status == Pending && row.gatewayRef == "" ==> Enabled(w, GatewayInitiate(row, ref, None)))
      && (row.manualCapture ==> Enabled(w, StartAuthorize(row, lease)))
      && (row.status == Authorized ==> Enabled(w, StartCapture(row, lease)))
      && (row.status == Processing ==> Enabled(w, Finalize(row, ChargeFlow, answer, ref)))
      && (row.status == Processing ==> Enabled(w, Finalize(row, AuthorizeFlow, answer, ref)) && Enabled(w, Finalize(row, CaptureFlow, answer, ref)))
      && (row.status == Processing && row.lease.Some? ==> Enabled(w, Finalize(row, RecoverFlow, answer, ref)))
      && (to in {Captured, Authorized, Failed, Cancelled, Refunded} ==> Enabled(w, Webhook(row, to)))
      && Enabled(w, Settle(row)) && Enabled(w, DisputeOpened(row)) && Enabled(w, RequestCancel(id))
      && (row.status == Disputed ==> Enabled(w, DisputeWon(row)) && Enabled(w, DisputeLost(row)))
  {
    hide Inv, SumActive, IsRun;
    RunKeeps(ws, acts, n);
    CommittedRowFacts(ws[n], id);
  }

  /** And its open refunds can be claimed: new ones by the relay, those in process by the reaper. */
  lemma OpenRefundsCanBeClaimed(ws: seq<World>, acts: seq<Action>, n: nat, r: nat)
    requires IsRun(ws, acts) && n < |ws| && r < |ws[n].refunds| && ws[n].refunds[r].status in {Initiated, InProcess}
    ensures var w, row := ws[n], ws[n].refunds[r];
      && row.txn in w.txns
      && (row.status == Initiated ==> Enabled(w, ClaimRefund(r, row, w.txns[row.txn], Relay)))
      && (row.status == InProcess ==> Enabled(w, ClaimRefund(r, row, w.txns[row.txn], Reaper)))
      && var w' := ApplyClaim(w, r, row, w.txns[row.txn]);
         |w'.refunds| == |w.refunds|
         && w'.refunds[r] == row.(status := InProcess, attempts := row.attempts + 1, version := row.version + 1)
         && w'.claims == w.claims + [Claim(r, w'.refunds[r], w.txns[row.txn], None)]
  {
    hide ClaimsOk, EventsOk, ParentsAgree, IsRun;
    RunKeeps(ws, acts, n);
    CommittedRowFacts(ws[n], ws[n].refunds[r].txn);
  }

  // ------------------------------------------------------------ finalize from the committed row

  /** The committed PROCESSING row becomes one of the given status, without its lease, with the
      reference if there is a new one, and with its event. */
  ghost predicate Finalized(w: World, w': World, mem: TxnRow, ref: string, s: Status) {
    && w'.txns == w.txns[mem.id := mem.(status := s, version := mem.version + 1, lease := None,
                                        gatewayRef := if ref != "" then ref else mem.gatewayRef)]
    && w'.outbox == w.outbox + [StatusEvent(mem.id, mem.version + 1, s)]
    && w'.refunds == w.refunds && w'.claims == w.claims
  }

  lemma FinalizeCommits(w: World, mem: TxnRow, flow: Flow, answer: PaymentReply, ref: string)
    requires mem.id in w.txns && w.txns[mem.id] == mem && mem.status == Processing
    ensures var w' := ApplyFinalize(w, mem, flow, answer, ref);
      && (answer == PaymentStatus(GpSucceeded) ==> Finalized(w, w', mem, ref, if flow == AuthorizeFlow then Authorized else Captured))
      && (answer == PaymentStatus(GpAuthorized) && flow != CaptureFlow ==> Finalized(w, w', mem, ref, Authorized))
      && (answer == PaymentStatus(GpPending) && flow == AuthorizeFlow ==> Finalized(w, w', mem, ref, Authorized))
      && (answer == PaymentStatus(GpFailed) ==> Finalized(w, w', mem, ref, Failed))
      && (answer == PaymentStatus(GpCancelled) ==> Finalized(w, w', mem, ref, Cancelled))
      && (answer.PaymentError? && answer.category != Ambiguous && answer.category != NetworkTimeout ==> Finalized(w, w', mem, "", Failed))
  {
    hide ResolveOutcome;
    if ResolveOutcome(flow, answer).Some? {
      var mem1 := if answer.PaymentStatus? then WithReference(mem, ref) else mem;
      MoveCommits(w, mem1, ResolveOutcome(flow, answer).value);
    }
  }

  lemma MoveCommits(w: World, mem: TxnRow, to: Status)
    requires mem.id in w.txns && mem == w.txns[mem.id].(gatewayRef := mem.gatewayRef) && mem.status == Processing
    requires to in {Captured, Authorized, Failed, Cancelled}
    ensures var w' := Move(w, mem, to);
      && w'.txns == w.txns[mem.id := mem.(status := to, version := mem.version + 1, lease := None)]
      && w'.outbox == w.outbox + [StatusEvent(mem.id, mem.version + 1, to)]
      && w'.refunds == w.refunds && w'.claims == w.claims
  {
  }

  /** An answer that settles nothing: a charge keeps the reference it learnt, the other flows
      leave the row to be asked about again. */
  lemma OpenAnswerKeepsProcessing(w: World, mem: TxnRow, flow: Flow, answer: PaymentReply, ref: string)
    requires mem.id in w.txns && w.txns[mem.id] == mem && mem.status == Processing
    requires match answer
             case PaymentError(c) => c == Ambiguous || c == NetworkTimeout
             case PaymentStatus(s) => s in {GpProcessing, GpRefunded, GpAmbiguous} || (s == GpPending && flow != AuthorizeFlow)
                                      || (s == GpAuthorized && flow == CaptureFlow)
    ensures var w' := ApplyFinalize(w, mem, flow, answer, ref);
      if flow != ChargeFlow then w' == w
      else
        var learnt := answer.PaymentStatus? && ref != "";
        w'.txns == w.txns[mem.id := mem.(version := mem.version + 1, gatewayRef := if learnt then ref else mem.gatewayRef)]
        && w'.outbox == w.outbox
  {
    hide ResolveOutcome;
    assert ResolveOutcome(flow, answer) == None;
  }

  // ------------------------------------------------------------ other moves from the committed row

  /** A new payment is pending, with its amount, at version one, and announced. */
  lemma CreatedRow(w: World, id: nat, amount: int, manual: bool)
    ensures var w' := Apply(w, Create(id, amount, manual));
      && w'.txns == w.txns[id := TxnRow(id, amount, manual, Pending, 1, "", false, None, None)]
      && w'.outbox == w.outbox + [StatusEvent(id, 1, Pending)] && w'.refunds == w.refunds
  {
  }

  /** The committed row, moved to a status without any other change. */
  ghost predicate JustMoved(w: World, w': World, mem: TxnRow, s: Status) {
    w'.txns == w.txns[mem.id := mem.(status := s, version := mem.version + 1)] && w'.refunds == w.refunds
  }

  /** Settlement, disputes and callbacks on the committed row commit exactly where they apply. */
  lemma MovesFromCommittedRow(w: World, mem: TxnRow)
    requires mem.id in w.txns && w.txns[mem.id] == mem && mem.lease == None
    ensures var w' := Apply(w, Settle(mem));
      if mem.status == Captured then JustMoved(w, w', mem, Settled) else w' == w
    ensures var w' := Apply(w, DisputeOpened(mem));
      if mem.status in {Captured, Settled} then JustMoved(w, w', mem, Disputed) && w'.outbox == w.outbox else w' == w
    ensures mem.status == Disputed ==>
      JustMoved(w, Apply(w, DisputeWon(mem)), mem, Captured) && JustMoved(w, Apply(w, DisputeLost(mem)), mem, Refunded)
    ensures var w' := Apply(w, Webhook(mem, Refunded));
      if mem.status in {Captured, Settled, RefundPending, PartiallyRefunded, Disputed} then JustMoved(w, w', mem, Refunded) else w' == w
    ensures var w' := Apply(w, Webhook(mem, Captured));
      if mem.status in {Pending, Processing, Authorized, Disputed} then JustMoved(w, w', mem, Captured) else w' == w
  {
    hide Move, MoveQuietly, JustMoved;
    CommittedMove(w, mem, Settled);
    CommittedMove(w, mem, Disputed);
    CommittedMove(w, mem, Captured);
    CommittedMove(w, mem, Refunded);
  }

  lemma CommittedMove(w: World, mem: TxnRow, to: Status)
    requires mem.id in w.txns && w.txns[mem.id] == mem && mem.lease == None && to != Cancelled
    ensures if mem.status in Sources(to)
            then JustMoved(w, Move(w, mem, to), mem, to) && JustMoved(w, MoveQuietly(w, mem, to), mem, to)
                 && MoveQuietly(w, mem, to).outbox == w.outbox
            else Move(w, mem, to) == w && MoveQuietly(w, mem, to) == w
  {
    TableByTarget(mem.status, to);
    hide Allowed, Sources;
  }

  // ------------------------------------------------------------ events

  /** In every run, a change of status is announced exactly if it leads to one of six statuses
      and was not made by a finished refund, which has an event of its own. */
  lemma AnnouncedExactly(ws: seq<World>, acts: seq<Action>, n: nat, id: nat)
    requires IsRun(ws, acts) && n < |acts| && id in ws[n].txns
    ensures id in ws[n + 1].txns
    ensures var row := ws[n + 1].txns[id];
      row.status != ws[n].txns[id].status ==>
        (StatusEvent(id, row.version, row.status) in ws[n + 1].outbox
         <==> !acts[n].FinishRefund? && row.status in {Authorized, Captured, Settled, Failed, Cancelled, Refunded})
  {
    hide Inv, Step;
    RunKeeps(ws, acts, n);
    StepAnnounces(ws[n], acts[n], ws[n + 1], id);
  }

  /** A row whose status changed is announced exactly for the six statuses, or never. */
  ghost predicate Told(w: World, w': World, id: nat, silent: bool) {
    (id in w.txns && id in w'.txns && w'.txns[id].status != w.txns[id].status
     && StatusEvent(id, w'.txns[id].version, w'.txns[id].status) !in w.outbox) ==>
      (StatusEvent(id, w'.txns[id].version, w'.txns[id].status) in w'.outbox
       <==> !silent && w'.txns[id].status in {Authorized, Captured, Settled, Failed, Cancelled, Refunded})
  }

  lemma StepAnnounces(w: World, a: Action, w': World, id: nat)
    requires Inv(w) && Step(w, a, w') && id in w.txns
    ensures id in w'.txns
    ensures var row := w'.txns[id];
      row.status != w.txns[id].status ==>
        (StatusEvent(id, row.version, row.status) in w'.outbox
         <==> !a.FinishRefund? && row.status in {Authorized, Captured, Settled, Failed, Cancelled, Refunded})
  {
    hide Inv, Step, CanMake;
    StatusComesFrom(w, a, w', id);
    if w'.txns[id].status != w.txns[id].status {
      NotAnnouncedBefore(w, a, w', id);
      StepTells(w, a, w', id);
    }
  }

  lemma StepTells(w: World, a: Action, w': World, id: nat)
    requires Inv(w) && Step(w, a, w')
    ensures Told(w, w', id, a.FinishRefund?)
  {
    hide Inv, Told, Move, MoveQuietly, ApplyFinish, ApplyInitiateRefund, ApplyClaim, ApplyFinalize, ApplyStart, ApplyGatewayInitiate;
    if a.Webhook? || a.Settle? || a.DisputeOpened? || a.DisputeWon? || a.DisputeLost? {
      DirectMoveTells(w, a, id);
    } else if a.Finalize? {
      FinalizeTells(w, a.mem, a.flow, a.answer, a.ref, id);
    } else if a.FinishRefund? {
      FinishTells(w, w.claims[a.claim], ResolveRefundOutcome(w.claims[a.claim].reply.value), id);
    } else {
      OtherTells(w, a, id);
    }
  }

  lemma DirectMoveTells(w: World, a: Action, id: nat)
    requires Enabled(w, a) && (a.Webhook? || a.Settle? || a.DisputeOpened? || a.DisputeWon? || a.DisputeLost?)
    ensures Told(w, Apply(w, a), id, false)
  {
    hide Move, MoveQuietly, Told;
    match a
    case Webhook(mem, to) => MoveTells(w, mem, to, id); StutterTells(w, id);
    case Settle(mem) => MoveTells(w, mem, Settled, id);
    case DisputeOpened(mem) => QuietTells(w, mem, id);
    case DisputeWon(mem) => MoveTells(w, mem, Captured, id);
    case DisputeLost(mem) => MoveTells(w, mem, Refunded, id);
  }

  lemma StutterTells(w: World, id: nat)
    ensures Told(w, w, id, false) && Told(w, w, id, true)
  {
  }

  lemma MoveTells(w: World, mem: TxnRow, to: Status, id: nat)
    ensures Told(w, Move(w, mem, to), id, false)
  {
    MoveMoves(w, mem, to, id);
    hide Allowed;
  }

  lemma QuietTells(w: World, mem: TxnRow, id: nat)
    ensures Told(w, MoveQuietly(w, mem, Disputed), id, false)
  {
    MoveMoves(w, mem, Disputed, id);
    hide Allowed;
  }

  lemma FinalizeTells(w: World, mem: TxnRow, flow: Flow, answer: PaymentReply, ref: string, id: nat)
    requires Inv(w) && mem in w.seenTxns && mem.status == Processing
    ensures Told(w, ApplyFinalize(w, mem, flow, answer, ref), id, false)
  {
    hide Inv, Move, SaveTxn, ResolveOutcome;
    StutterTells(w, id);
    var mem1 := if answer.PaymentStatus? then WithReference(mem, ref) else mem;
    match ResolveOutcome(flow, answer)
    case Some(to) => MoveTells(w, mem1, to, id);
    case None => SaveInPlace(w, mem, mem1, id);
  }

  lemma OtherTells(w: World, a: Action, id: nat)
    requires Enabled(w, a) && !(a.Webhook? || a.Settle? || a.DisputeOpened? || a.DisputeWon? || a.DisputeLost? || a.Finalize? || a.FinishRefund?)
    ensures Told(w, Apply(w, a), id, false)
  {
    OtherMakes(w, a, id);
    hide ApplyClaim, ApplyInitiateRefund, Allowed;
    match a
    case InitiateRefund(mem, amount, reason, initiator) => InitiateQuiet(w, mem, amount, reason, initiator);
    case ClaimRefund(r, rf, parent, _) => ClaimMovesNone(w, r, rf, parent);
    case _ =>
  }

  lemma InitiateQuiet(w: World, mem: TxnRow, amount: int, reason: string, initiator: string)
    ensures var w' := ApplyInitiateRefund(w, mem, amount, reason, initiator);
      w'.outbox == w.outbox || exists r, v :: w'.outbox == w.outbox + [RefundEvent(r, RefundInitiated, v)]
  {
    hide SumActive;
  }

  lemma FinishTells(w: World, c: Claim, outcome: RefundOutcome, id: nat)
    ensures Told(w, ApplyFinish(w, c, outcome), id, true)
  {
    hide ParentAfter;
  }

  /** A changed row has a version that no earlier event carries. */
  lemma NotAnnouncedBefore(w: World, a: Action, w': World, id: nat)
    requires Inv(w) && Step(w, a, w') && id in w.txns && id in w'.txns && w'.txns[id].status != w.txns[id].status
    ensures StatusEvent(id, w'.txns[id].version, w'.txns[id].status) !in w.outbox
  {
    hide Step, RefundsMove, RefundsOk, ClaimsOk, ParentsAgree;
    StepKeeps(w, a, w');
    assert RowMoves(w.txns[id], w'.txns[id]);
  }

  // ------------------------------------------------------------ initiating a refund

  /** When an initiation commits, with the statuses and the bounds written out. */
  ghost predicate Initiates(w: World, mem: TxnRow, amount: int, reason: string, initiator: string) {
    && mem.status in {Captured, Settled, PartiallyRefunded, RefundFailed}
    && mem.id in w.txns && w.txns[mem.id].version == mem.version
    && 0 < amount && reason != "" && initiator != ""
    && 0 <= SumActive(w.refunds, mem.id) && SumActive(w.refunds, mem.id) + amount <= mem.amount
  }

  lemma InitiationCommitsIff(w: World, mem: TxnRow, amount: int, reason: string, initiator: string)
    requires FitsInt64(SumActive(w.refunds, mem.id) + amount)
    ensures var w' := ApplyInitiateRefund(w, mem, amount, reason, initiator);
      && (Initiates(w, mem, amount, reason, initiator) <==> w' != w)
      && (w' != w ==>
            && w'.refunds == w.refunds + [RefundRow(mem.id, amount, reason, initiator, Initiated, 0, 1, false)]
            && mem.id in w'.txns && w'.txns[mem.id].status == RefundPending && w'.txns[mem.id].version == mem.version + 1)
  {
    hide SumActive;
    var w' := ApplyInitiateRefund(w, mem, amount, reason, initiator);
    assert |w'.refunds| == |w.refunds| + 1 || w' == w;
  }

  /** In every reachable state, any amount within what is left of a refundable payment can be
      refunded from its committed row. */
  lemma RemainderCanBeRefunded(ws: seq<World>, acts: seq<Action>, n: nat, id: nat, amount: int, reason: string, initiator: string)
    requires IsRun(ws, acts) && n < |ws| && id in ws[n].txns && ws[n].txns[id].amount <= INT64_MAX
    requires ws[n].txns[id].status in {Captured, Settled, PartiallyRefunded, RefundFailed} && reason != "" && initiator != ""
    requires 0 < amount <= ws[n].txns[id].amount - SumActive(ws[n].refunds, id)
    ensures var w, a := ws[n], InitiateRefund(ws[n].txns[id], amount, reason, initiator);
      && Enabled(w, a)
      && Apply(w, a).refunds == w.refunds + [RefundRow(id, amount, reason, initiator, Initiated, 0, 1, false)]
      && id in Apply(w, a).txns && Apply(w, a).txns[id].status == RefundPending
  {
    hide Inv, SumActive, ApplyInitiateRefund, IsRun;
    RunKeeps(ws, acts, n);
    var w := ws[n];
    CommittedRowFacts(w, id);
    InitiationCommitsIff(w, w.txns[id], amount, reason, initiator);
  }

  lemma CommittedRowFacts(w: World, id: nat)
    requires Inv(w) && id in w.txns
    ensures w.txns[id].id == id && w.txns[id] in w.seenTxns && 0 <= SumActive(w.refunds, id)
  {
    hide ClaimsOk, EventsOk;
    assert RowOk(id, w.txns[id]);
    TallyFacts(w.refunds, id);
  }

  // ------------------------------------------------------------ finishing a refund

  /** A definite answer under a claim that is still current, with the committed parent, commits:
      the refund is resolved, the parent follows, and one event tells it. */
  lemma FinishCommits(w: World, k: nat)
    requires Inv(w) && k < |w.claims|
    requires w.claims[k].reply == Some(ReplyStatus(GwCompleted)) || w.claims[k].reply == Some(ReplyStatus(GwFailed))
    requires var c := w.claims[k];
      && c.refund < |w.refunds| && c.rf == w.refunds[c.refund]
      && c.rf.txn in w.txns && c.parent == w.txns[c.rf.txn] && c.parent.status == RefundPending
    ensures var c, w' := w.claims[k], Apply(w, FinishRefund(k));
      var completed, t := c.reply == Some(ReplyStatus(GwCompleted)), c.rf.txn;
      && w'.refunds == w.refunds[c.refund := c.rf.(status := if completed then Done else Rejected, resolved := true, version := c.rf.version + 1)]
      && t in w'.txns
      && w'.txns[t].status == (if completed then (if Tally(w'.refunds, t, DoneAmount) == c.parent.amount then Refunded else PartiallyRefunded)
                               else (if Tally(w.refunds, t, DoneAmount) == 0 then RefundFailed else RefundPending))
      && w'.outbox == w.outbox + [RefundEvent(c.refund, if completed then RefundSucceeded else RefundRejected, c.rf.version + 1)]
  {
    hide Inv, Tally, SumActive, ApplyFinish, ParentAfter;
    var c := w.claims[k];
    ClaimIsOk(w, k);
    CommittedRowFacts(w, c.rf.txn);
    var to := if c.reply == Some(ReplyStatus(GwCompleted)) then Done else Rejected;
    var row := c.rf.(status := to, resolved := true, version := c.rf.version + 1);
    ParentFollows(w, c, row, w.refunds[c.refund := row]);
    CurrentFinish(w, c, to);
  }

  lemma ParentFollows(w: World, c: Claim, row: RefundRow, rs': seq<RefundRow>)
    requires Inv(w) && c.refund < |w.refunds| && c.rf == w.refunds[c.refund] && c.rf.status == InProcess
    requires row == c.rf.(status := row.status, resolved := true, version := c.rf.version + 1) && row.status in {Done, Rejected}
    requires rs' == w.refunds[c.refund := row] && c.rf.txn in w.txns && c.parent == w.txns[c.rf.txn]
    requires c.parent.id == c.rf.txn && c.parent.status == RefundPending
    ensures var s := if row.status == Done
                     then (if Tally(rs', c.rf.txn, DoneAmount) == c.parent.amount then Refunded else PartiallyRefunded)
                     else (if Tally(w.refunds, c.rf.txn, DoneAmount) == 0 then RefundFailed else RefundPending);
      ParentAfter(rs', c.parent, row.status) == Ok(c.parent.(status := s))
  {
    hide Inv, Tally;
    ResolvedTallies(w, c.refund, row, rs');
  }

  lemma CurrentFinish(w: World, c: Claim, to: RefundStatus)
    requires to in {Done, Rejected} && c.refund < |w.refunds| && c.rf == w.refunds[c.refund] && c.rf.status == InProcess
    requires c.rf.txn in w.txns && c.parent == w.txns[c.rf.txn] && c.parent.id == c.rf.txn
    requires var row := c.rf.(status := to, resolved := true, version := c.rf.version + 1);
      var p := ParentAfter(w.refunds[c.refund := row], c.parent, to);
      p.Ok? && p.value == c.parent.(status := p.value.status)
    ensures var row := c.rf.(status := to, resolved := true, version := c.rf.version + 1);
      var p, w' := ParentAfter(w.refunds[c.refund := row], c.parent, to).value, ApplyFinish(w, c, Terminal(to));
      && w'.refunds == w.refunds[c.refund := row] && c.rf.txn in w'.txns && w'.txns[c.rf.txn].status == p.status
      && w'.outbox == w.outbox + [RefundEvent(c.refund, if to == Done then RefundSucceeded else RefundRejected, c.rf.version + 1)]
  {
    hide ParentAfter;
  }
}
