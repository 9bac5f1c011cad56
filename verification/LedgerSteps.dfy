/** Every action keeps the ledger invariant, moves transaction rows along the
    transition table, and never touches a resolved refund. */
module LedgerSteps {
  import opened Basics
  import opened TransactionDomain
  import opened RefundDomain
  import opened Ledger
  import opened LedgerInvariant

  ghost predicate Kept(w: World, w': World) {
    Inv(w') && TxnsMove(w, w') && RefundsMove(w, w')
  }

  lemma StutterKeeps(w: World)
    requires Inv(w)
    ensures Kept(w, w)
  {
  }

  // ------------------------------------------------------------ payment, callback, dispute, settlement

  lemma CreateKeeps(w: World, id: nat, amount: int, manual: bool)
    requires Inv(w) && id !in w.txns && amount > 0
    ensures Kept(w, ApplyCreate(w, id, amount, manual))
  {
    hide CountEvents, Tally, CountClaims;
    var w' := ApplyCreate(w, id, amount, manual);
    var row := w'.txns[id];
    forall m | m in w'.seenTxns ensures RemembersTxn(w'.txns, m) {
      if m != row { assert RemembersTxn(w.txns, m); }
    }
    TxnWriteKeepsRefunds(w, w');
    StatusEventKeeps(w, w', id, [StatusEvent(id, 1, Pending)]);
    NoRows(w.refunds, id);
    forall j | j in w'.txns ensures Agrees(w'.txns[j], w'.refunds) {
      if j != id { assert Agrees(w.txns[j], w.refunds); }
    }
  }

  lemma {:induction false} NoRows(rs: seq<RefundRow>, id: nat)
    requires forall i :: 0 <= i < |rs| ==> rs[i].txn != id
    ensures forall m :: Tally(rs, id, m) == 0
  {
    if rs != [] {
      NoRows(rs[..|rs| - 1], id);
    }
  }

  lemma MoveKeeps(w: World, mem: TxnRow, from: TxnRow, to: Status)
    requires Inv(w) && from in w.seenTxns && (mem == from || mem == WithReference(from, mem.gatewayRef))
    requires to !in {RefundPending, PartiallyRefunded, RefundFailed}
    ensures Kept(w, Move(w, mem, to))
  {
    hide Inv, TxnsMove, RefundsMove;
    StutterKeeps(w);
    if Transitioned(mem, to).Ok? {
      var moved := Transitioned(mem, to).value;
      if SaveTxn(w, moved).Some? {
        var w1 := SaveTxn(w, moved).value;
        var e := if HasEvent(to) then [StatusEvent(mem.id, mem.version + 1, to)] else [];
        assert w1.outbox + [] == w1.outbox;
        OutsideSaveKeeps(w, from, moved, w1, Commit(w, moved), e);
      }
    }
  }

  lemma SaveQuietlyKeeps(w: World, base: TxnRow, mem: TxnRow)
    requires Inv(w) && base in w.seenTxns && mem.id == base.id && mem.version == base.version
    requires RowOk(base.id, base) ==> ChangeOf(base, mem)
    requires OutsideMove(base.status, mem.status)
    ensures Kept(w, SaveTxn(w, mem).GetOr(w))
  {
    if SaveTxn(w, mem).Some? {
      var w1 := SaveTxn(w, mem).value;
      assert w1.outbox + [] == w1.outbox;
      OutsideSaveKeeps(w, base, mem, w1, w1, []);
    }
  }

  lemma FinalizeKeeps(w: World, mem: TxnRow, flow: Flow, reply: PaymentReply, ref: string)
    requires Inv(w) && mem in w.seenTxns && mem.status == Processing
    ensures Kept(w, ApplyFinalize(w, mem, flow, reply, ref))
  {
    hide Inv, TxnsMove, RefundsMove;
    var mem1 := if reply.PaymentStatus? then WithReference(mem, ref) else mem;
    match ResolveOutcome(flow, reply)
    case Some(to) => MoveKeeps(w, mem1, mem, to);
    case None =>
      SaveQuietlyKeeps(w, mem, mem1);
      StutterKeeps(w);
  }

  lemma RequestCancelKeeps(w: World, id: nat)
    requires Inv(w)
    ensures Kept(w, ApplyRequestCancel(w, id))
  {
    hide TxnsOk, RefundsOk, ClaimsOk, EventsOk, ParentsAgree, RefundsMove, RowMoves;
    StutterKeeps(w);
    if id in w.txns {
      var w' := ApplyRequestCancel(w, id);
      CancelKeepsTxns(w, id);
      TxnWriteKeepsRefunds(w, w');
      OutsideMoveAgrees(w, w', id);
    }
  }

  /** The flag is the one thing that changes. */
  lemma CancelKeepsTxns(w: World, id: nat)
    requires TxnsOk(w) && EventsOk(w) && id in w.txns
    ensures var w' := ApplyRequestCancel(w, id); TxnsOk(w') && TxnsMove(w, w') && EventsOk(w')
  {
    hide CountEvents;
    var w' := ApplyRequestCancel(w, id);
    assert RowOk(id, w.txns[id]);
    forall m | m in w'.seenTxns ensures RemembersTxn(w'.txns, m) {
      if m in w.seenTxns { assert RemembersTxn(w.txns, m); }
    }
    forall j | j in w'.txns ensures RowOk(j, w'.txns[j]) && w'.txns[j] in w'.seenTxns {
      assert RowOk(j, w.txns[j]);
    }
  }

  // ------------------------------------------------------------ refunds

  lemma InitiateRefundKeeps(w: World, mem: TxnRow, amount: int, reason: string, initiator: string)
    requires Inv(w) && Enabled(w, InitiateRefund(mem, amount, reason, initiator))
    ensures Kept(w, ApplyInitiateRefund(w, mem, amount, reason, initiator))
  {
    hide RefundsOk, ClaimsOk, EventsOk, ParentsAgree, RefundMoves, SumActive, ApplyInitiateRefund, RowMoves;
    var w' := ApplyInitiateRefund(w, mem, amount, reason, initiator);
    StutterKeeps(w);
    if w' != w {
      var w1, rf := InitiateCommit(w, mem, amount, reason, initiator);
      TxnWriteKeepsRefunds(w, w1);
      InsertKeepsRefunds(w1, rf, w');
      InsertKeepsEvents(w, w', mem.id, rf);
      InsertAgrees(w, w', mem.id, rf);
    }
  }

  /** An initiation that commits was based on the committed, refundable parent. */
  lemma InitiateCommit(w: World, mem: TxnRow, amount: int, reason: string, initiator: string) returns (w1: World, rf: RefundRow)
    requires TxnsOk(w) && Enabled(w, InitiateRefund(mem, amount, reason, initiator))
    requires ApplyInitiateRefund(w, mem, amount, reason, initiator) != w
    ensures mem.id in w.txns && mem == w.txns[mem.id].(cancelIntent := mem.cancelIntent)
    ensures w1 == w.(txns := w1.txns, seenTxns := w1.seenTxns) && w.seenTxns <= w1.seenTxns && TxnsOk(w1)
    ensures w1.txns.Keys == w.txns.Keys && w1.txns == w.txns[mem.id := w1.txns[mem.id]]
    ensures w1.txns[mem.id].status == RefundPending && w1.txns[mem.id].version == mem.version + 1
    ensures RowMoves(w.txns[mem.id], w1.txns[mem.id])
    ensures w1.txns[mem.id].id == mem.id && w1.txns[mem.id].amount == mem.amount
    ensures NewRefund(mem.id, amount, mem.amount, SumActive(w.refunds, mem.id), reason, initiator) == Ok(rf)
    ensures ApplyInitiateRefund(w, mem, amount, reason, initiator)
         == w1.(refunds := w.refunds + [rf], seenRefunds := w.seenRefunds + {(|w.refunds|, rf)},
                outbox := w.outbox + [RefundEvent(|w.refunds|, RefundInitiated, rf.version)])
  {
    hide SumActive, NewRefund;
    var moved := Transitioned(mem, RefundPending).value;
    w1 := SaveTxn(w, moved).value;
    rf := NewRefund(mem.id, amount, mem.amount, SumActive(w1.refunds, mem.id), reason, initiator).value;
    assert RemembersTxn(w.txns, mem) && RowOk(mem.id, w.txns[mem.id]);
    SaveTxnKeeps(w, mem, moved, w1);
  }

  lemma InsertKeepsRefunds(w: World, rf: RefundRow, w': World)
    requires RefundsOk(w) && ClaimsOk(w) && rf.txn in w.txns && rf.amount > 0
    requires rf.status == Initiated && rf.attempts == 0
    requires w' == w.(refunds := w.refunds + [rf], seenRefunds := w.seenRefunds + {(|w.refunds|, rf)}, outbox := w'.outbox)
    ensures RefundsOk(w') && ClaimsOk(w') && RefundsMove(w, w')
  {
    forall x | x in w'.seenRefunds ensures RemembersRefund(w'.refunds, x.0, x.1) {
      if x in w.seenRefunds { assert RemembersRefund(w.refunds, x.0, x.1); }
    }
    forall k | 0 <= k < |w'.claims| ensures ClaimOk(w', w'.claims[k]) {
      assert ClaimOk(w, w.claims[k]);
    }
  }

  lemma InsertKeepsEvents(w: World, w': World, id: nat, rf: RefundRow)
    requires EventsOk(w) && id in w.txns && id in w'.txns && w.txns[id].version < w'.txns[id].version
    requires w'.txns == w.txns[id := w'.txns[id]] && rf.status == Initiated
    requires w'.refunds == w.refunds + [rf]
    requires w'.outbox == w.outbox + [RefundEvent(|w.refunds|, RefundInitiated, rf.version)]
    ensures EventsOk(w')
  {
    var e := RefundEvent(|w.refunds|, RefundInitiated, rf.version);
    forall r: nat ensures RefundEventsOk(w'.outbox, w'.refunds, r) {
      assert RefundEventsOk(w.outbox, w.refunds, r);
      CountEventsAppend(w.outbox, e, r, RefundInitiated);
      CountEventsAppend(w.outbox, e, r, RefundSucceeded);
      CountEventsAppend(w.outbox, e, r, RefundRejected);
    }
  }

  lemma InsertAgrees(w: World, w': World, id: nat, rf: RefundRow)
    requires ParentsAgree(w) && RefundsOk(w) && id in w.txns && id in w'.txns
    requires w'.txns == w.txns[id := w'.txns[id]] && IsRefundable(w.txns[id].status)
    requires w.txns[id].id == id && w'.txns[id].id == id && w'.txns[id].status == RefundPending
    requires forall j :: j in w.txns ==> w.txns[j].id == j
    requires w'.txns[id].amount == w.txns[id].amount
    requires w'.refunds == w.refunds + [rf] && rf.txn == id && rf.status == Initiated && rf.amount > 0
    requires SumActive(w.refunds, id) + rf.amount <= w.txns[id].amount
    ensures ParentsAgree(w')
  {
    hide Agrees, SumActive;
    assert AmountsPositive(w.refunds);
    forall j | j in w'.txns ensures Agrees(w'.txns[j], w'.refunds) {
      assert Agrees(w.txns[j], w.refunds);
      InsertAgreesAt(w.txns[j], w'.txns[j], w.refunds, rf);
    }
  }

  lemma InsertAgreesAt(row: TxnRow, row': TxnRow, rs: seq<RefundRow>, rf: RefundRow)
    requires AmountsPositive(rs) && Agrees(row, rs) && rf.status == Initiated && rf.amount > 0
    requires row'.id == row.id && row'.amount == row.amount
    requires if row.id == rf.txn
             then IsRefundable(row.status) && row'.status == RefundPending && SumActive(rs, row.id) + rf.amount <= row.amount
             else row' == row
    ensures Agrees(row', rs + [rf])
  {
    hide Tally;
    TallyFacts(rs, row.id);
    TallyAppend(rs, rf, row.id, Rows);
    TallyAppend(rs, rf, row.id, Open);
    TallyAppend(rs, rf, row.id, OpenAmount);
    TallyAppend(rs, rf, row.id, DoneAmount);
  }

  lemma CountClaimsAppend(cs: seq<Claim>, c: Claim, id: nat, answered: bool)
    ensures CountClaims(cs + [c], id, answered)
         == CountClaims(cs, id, answered) + (if c.refund == id && (answered ==> c.reply.Some?) then 1 else 0)
  {
    assert (cs + [c])[..|cs|] == cs;
  }

  /** A write of one refund row that bumps its version leaves older memories older. */
  lemma RefundWriteRemembers(rs: seq<RefundRow>, id: nat, row: RefundRow, i: nat, rf: RefundRow)
    requires id < |rs| && rs[id].version < row.version && row.txn == rs[id].txn
    requires RemembersRefund(rs, i, rf)
    ensures RemembersRefund(rs[id := row], i, rf)
  {
  }

  /** A write of one open refund row keeps all rows and memories of rows right. */
  lemma RefundWriteKeepsRows(w: World, id: nat, row: RefundRow, w': World)
    requires RefundsOk(w) && id < |w.refunds| && IsOpen(w.refunds[id].status)
    requires row.txn == w.refunds[id].txn && row.amount == w.refunds[id].amount
    requires row.reason == w.refunds[id].reason && row.initiator == w.refunds[id].initiator
    requires row.version > w.refunds[id].version && row.attempts >= w.refunds[id].attempts
    requires row.status != Initiated && row.attempts > 0
    requires w'.txns == w.txns && w'.refunds == w.refunds[id := row] && w'.seenRefunds == w.seenRefunds + {(id, row)}
    ensures RefundsOk(w') && RefundsMove(w, w')
    ensures w.refunds[id].txn in w.txns && w.refunds[id].amount > 0
  {
    hide IsOpen;
    forall x | x in w'.seenRefunds ensures RemembersRefund(w'.refunds, x.0, x.1) {
      if x in w.seenRefunds {
        RefundWriteRemembers(w.refunds, id, row, x.0, x.1);
      }
    }
  }

  lemma ClaimKeeps(w: World, id: nat, rf: RefundRow, parent: TxnRow, driver: Driver)
    requires Inv(w) && Enabled(w, ClaimRefund(id, rf, parent, driver))
    ensures Kept(w, ApplyClaim(w, id, rf, parent))
  {
    hide Tally, Agrees;
    var w' := ApplyClaim(w, id, rf, parent);
    StutterKeeps(w);
    if w' != w {
      assert RemembersRefund(w.refunds, id, rf);
      ClaimKeepsClaims(w, id, rf, parent);
      SameMeasuresAgree(w, w', id, w'.refunds[id]);
      OpenRefundEvents(w, w', id);
    }
  }

  /** A refund that stays open leaves the event counts right. */
  lemma OpenRefundEvents(w: World, w': World, id: nat)
    requires EventsOk(w) && id < |w.refunds| && IsOpen(w.refunds[id].status)
    requires id < |w'.refunds| && w'.refunds == w.refunds[id := w'.refunds[id]] && IsOpen(w'.refunds[id].status)
    requires w'.outbox == w.outbox && w'.txns == w.txns
    ensures EventsOk(w')
  {
    forall r: nat ensures RefundEventsOk(w'.outbox, w'.refunds, r) {
      assert RefundEventsOk(w.outbox, w.refunds, r);
    }
  }

  lemma ClaimKeepsClaims(w: World, id: nat, rf: RefundRow, parent: TxnRow)
    requires RefundsOk(w) && ClaimsOk(w) && RemembersRefund(w.refunds, id, rf) && parent in w.seenTxns && parent.id == rf.txn
    requires ApplyClaim(w, id, rf, parent) != w
    ensures RefundsOk(ApplyClaim(w, id, rf, parent)) && ClaimsOk(ApplyClaim(w, id, rf, parent))
    ensures RefundsMove(w, ApplyClaim(w, id, rf, parent))
  {
    hide RefundsOk, CountClaims;
    var w' := ApplyClaim(w, id, rf, parent);
    var row := w'.refunds[id];
    assert IsOpen(w.refunds[id].status);
    RefundWriteKeepsRows(w, id, row, w');
    forall k | 0 <= k < |w.claims|
      ensures ClaimOk(w', w.claims[k]) && (w.claims[k].refund == id ==> w.claims[k].rf.version < row.version)
    {
      assert ClaimOk(w, w.claims[k]);
      RefundWriteRemembers(w.refunds, id, row, w.claims[k].refund, w.claims[k].rf);
    }
    forall i: nat
      ensures CountClaims(w'.claims, i, false) == CountClaims(w.claims, i, false) + (if i == id then 1 else 0)
    {
      CountClaimsAppend(w.claims, w'.claims[|w.claims|], i, false);
    }
  }

  /** A refund that stays open weighs the same. */
  lemma SameMeasuresAgree(w: World, w': World, id: nat, row: RefundRow)
    requires ParentsAgree(w) && id < |w.refunds| && IsOpen(w.refunds[id].status) && IsOpen(row.status)
    requires row.txn == w.refunds[id].txn && row.amount == w.refunds[id].amount
    requires w'.refunds == w.refunds[id := row] && w'.txns == w.txns
    ensures ParentsAgree(w')
  {
    forall j | j in w'.txns ensures Agrees(w'.txns[j], w'.refunds) {
      assert Agrees(w.txns[j], w.refunds);
      var t := w.txns[j].id;
      TallyUpdate(w.refunds, id, row, t, Rows);
      TallyUpdate(w.refunds, id, row, t, Open);
      TallyUpdate(w.refunds, id, row, t, OpenAmount);
      TallyUpdate(w.refunds, id, row, t, DoneAmount);
    }
  }

  lemma {:induction false} CountClaimsAnswer(cs: seq<Claim>, k: nat, reply: RefundReply, id: nat)
    requires k < |cs| && cs[k].reply == None
    ensures CountClaims(cs[k := cs[k].(reply := Some(reply))], id, false) == CountClaims(cs, id, false)
    ensures CountClaims(cs[k := cs[k].(reply := Some(reply))], id, true)
         == CountClaims(cs, id, true) + (if cs[k].refund == id then 1 else 0)
  {
    var n := |cs| - 1;
    var cs' := cs[k := cs[k].(reply := Some(reply))];
    if k == n {
      assert cs'[..n] == cs[..n];
    } else {
      assert cs'[..n] == cs[..n][k := cs[k].(reply := Some(reply))];
      CountClaimsAnswer(cs[..n], k, reply, id);
    }
  }

  lemma AnswerKeepsRest(w: World, k: nat, reply: RefundReply)
    requires TxnsOk(w) && EventsOk(w) && ParentsAgree(w) && k < |w.claims|
    ensures var w' := ApplyAnswer(w, k, reply);
      TxnsOk(w') && EventsOk(w') && ParentsAgree(w') && TxnsMove(w, w')
  {
  }

  lemma AnswerKeeps(w: World, k: nat, reply: RefundReply)
    requires Inv(w) && k < |w.claims| && w.claims[k].reply == None
    ensures Kept(w, ApplyAnswer(w, k, reply))
  {
    hide TxnsOk, EventsOk, ParentsAgree, RowMoves, CountClaims;
    var w' := ApplyAnswer(w, k, reply);
    AnswerKeepsRest(w, k, reply);
    forall l | 0 <= l < |w'.claims| ensures ClaimOk(w', w'.claims[l]) {
      assert ClaimOk(w, w.claims[l]);
    }
    forall i: nat ensures CountClaims(w'.claims, i, false) == CountClaims(w.claims, i, false) {
      CountClaimsAnswer(w.claims, k, reply, i);
    }
  }

  // ------------------------------------------------------------ finishing a refund

  /** Saving a claimed refund: it was still the committed row, and only it changes. */
  lemma SaveRefundKeeps(w: World, c: Claim, rf: RefundRow, w': World)
    requires Inv(w) && ClaimOk(w, c) && SaveRefund(w, c.refund, rf) == Some(w')
    requires rf == c.rf.(status := rf.status, resolved := rf.resolved) && rf.status != Initiated
    ensures c.rf == w.refunds[c.refund] && rf.txn in w.txns && rf.amount > 0
    ensures w'.refunds == w.refunds[c.refund := rf.(version := rf.version + 1)]
    ensures w' == w.(refunds := w'.refunds, seenRefunds := w'.seenRefunds)
    ensures RefundsOk(w') && ClaimsOk(w') && RefundsMove(w, w')
  {
    hide TxnsOk, EventsOk, ParentsAgree, RefundsMove, CountClaims;
    var row := w'.refunds[c.refund];
    assert w.refunds[c.refund].attempts > 0;
    RefundWriteKeepsRows(w, c.refund, row, w');
    forall k | 0 <= k < |w.claims| ensures ClaimOk(w', w.claims[k]) {
      assert ClaimOk(w, w.claims[k]);
      RefundWriteRemembers(w.refunds, c.refund, row, w.claims[k].refund, w.claims[k].rf);
    }
  }

  lemma FinishInFlightKeeps(w: World, c: Claim)
    requires Inv(w) && ClaimOk(w, c)
    ensures Kept(w, ApplyFinish(w, c, InFlight))
  {
    hide Tally, Agrees, RefundsOk, ClaimsOk, EventsOk, ParentsAgree, RefundMoves;
    var w' := ApplyFinish(w, c, InFlight);
    StutterKeeps(w);
    if w' != w {
      SaveRefundKeeps(w, c, c.rf, w');
      SameMeasuresAgree(w, w', c.refund, w'.refunds[c.refund]);
      OpenRefundEvents(w, w', c.refund);
    }
  }

  /** The amounts of the parent after one of its open refunds is resolved. */
  lemma ResolvedTallies(w: World, id: nat, row: RefundRow, rs': seq<RefundRow>)
    requires Inv(w) && id < |w.refunds| && IsOpen(w.refunds[id].status)
    requires row.txn == w.refunds[id].txn && row.amount == w.refunds[id].amount
    requires row.status in {Done, Rejected} && rs' == w.refunds[id := row]
    ensures var t := row.txn; var a := row.amount;
            && t in w.txns && w.txns[t].status in {RefundPending, Refunded} && a > 0
            && SumActive(w.refunds, t) <= w.txns[t].amount
            && Tally(rs', t, Open) == 0 && Tally(rs', t, OpenAmount) == 0
            && 0 <= Tally(w.refunds, t, DoneAmount) == SumActive(w.refunds, t) - a
            && Tally(rs', t, DoneAmount) == SumActive(w.refunds, t) - (if row.status == Done then 0 else a)
  {
    hide ClaimsOk, EventsOk, Tally, RemembersTxn, RemembersRefund;
    var t := row.txn;
    assert RowOk(t, w.txns[t]) && Agrees(w.txns[t], w.refunds);
    TallyFacts(w.refunds, t);
    TallyCounts(w.refunds, id);
    TallyUpdate(w.refunds, id, row, t, Open);
    TallyUpdate(w.refunds, id, row, t, OpenAmount);
    TallyUpdate(w.refunds, id, row, t, DoneAmount);
    forall i | 0 <= i < |rs'| ensures rs'[i].amount > 0 {}
    TallyFacts(rs', t);
  }

  lemma ResolvedEvents(w: World, w': World, id: nat, row: RefundRow, t: nat)
    requires EventsOk(w) && id < |w.refunds| && IsOpen(w.refunds[id].status) && row.status in {Done, Rejected}
    requires w'.refunds == w.refunds[id := row]
    requires t in w.txns && t in w'.txns && w'.txns == w.txns[t := w'.txns[t]]
    requires w.txns[t].version <= w'.txns[t].version
    requires w'.outbox == w.outbox
      + [RefundEvent(id, if row.status == Done then RefundSucceeded else RefundRejected, row.version)]
    ensures EventsOk(w')
  {
    var e := w'.outbox[|w.outbox|];
    forall r: nat ensures RefundEventsOk(w'.outbox, w'.refunds, r) {
      assert RefundEventsOk(w.outbox, w.refunds, r);
      CountEventsAppend(w.outbox, e, r, RefundInitiated);
      CountEventsAppend(w.outbox, e, r, RefundSucceeded);
      CountEventsAppend(w.outbox, e, r, RefundRejected);
    }
  }

  /** Other parents do not notice. */
  lemma OtherParentsAgree(w: World, w': World, id: nat, row: RefundRow)
    requires ParentsAgree(w) && TxnsOk(w) && id < |w.refunds| && row.txn == w.refunds[id].txn
    requires w'.refunds == w.refunds[id := row] && row.txn in w'.txns
    requires w'.txns == w.txns[row.txn := w'.txns[row.txn]] && Agrees(w'.txns[row.txn], w'.refunds)
    ensures ParentsAgree(w')
  {
    forall j | j in w'.txns ensures Agrees(w'.txns[j], w'.refunds) {
      if j != row.txn {
        assert Agrees(w.txns[j], w.refunds) && RowOk(j, w.txns[j]);
        TallyUpdate(w.refunds, id, row, j, Rows);
        TallyUpdate(w.refunds, id, row, j, Open);
        TallyUpdate(w.refunds, id, row, j, OpenAmount);
        TallyUpdate(w.refunds, id, row, j, DoneAmount);
      }
    }
  }

  /** What transitionParentOnRefundResult decides, on the committed parent: its new status
      agrees with the rows, and is REFUNDED exactly when everything is refunded. */
  lemma FinishedParentAgrees(w: World, id: nat, row: RefundRow, rs': seq<RefundRow>, mem: TxnRow, parent: TxnRow, p: TxnRow)
    requires Inv(w) && id < |w.refunds| && IsOpen(w.refunds[id].status)
    requires row.txn == w.refunds[id].txn && row.amount == w.refunds[id].amount
    requires row.status in {Done, Rejected} && rs' == w.refunds[id := row]
    requires row.txn in w.txns && mem == w.txns[row.txn].(cancelIntent := mem.cancelIntent)
    requires ParentAfter(rs', mem, row.status) == Ok(parent)
    requires p.id == row.txn && p.amount == mem.amount && p.status == parent.status
    ensures Agrees(p, rs')
    ensures row.status == Done ==> (p.status == Refunded <==> Tally(rs', row.txn, DoneAmount) == p.amount)
    ensures mem.status in {RefundPending, Refunded}
    ensures parent == mem.(status := parent.status)
    ensures ChangeOf(mem, parent)
  {
    hide RefundsOk, ClaimsOk, EventsOk, ParentsAgree, RemembersTxn, Tally;
    assert RowOk(row.txn, w.txns[row.txn]);
    ResolvedTallies(w, id, row, rs');
  }

  /** Nothing of the committed rows changes unless the claim is still current. */
  lemma FinishTerminalCommit(w: World, c: Claim, to: RefundStatus) returns (w1: World, row: RefundRow, parent: TxnRow)
    requires Inv(w) && ClaimOk(w, c) && to in {Done, Rejected}
    requires ApplyFinish(w, c, Terminal(to)) != w
    ensures c.rf == w.refunds[c.refund] && c.rf.txn in w.txns
    ensures row == c.rf.(status := to, resolved := true, version := c.rf.version + 1)
    ensures w1 == w.(refunds := w.refunds[c.refund := row], seenRefunds := w1.seenRefunds)
    ensures RefundsOk(w1) && ClaimsOk(w1) && RefundsMove(w, w1)
    ensures ParentAfter(w1.refunds, c.parent, to) == Ok(parent)
    ensures SaveTxn(w1, parent).Some?
    ensures var w2 := SaveTxn(w1, parent).value;
            ApplyFinish(w, c, Terminal(to)) == w2.(outbox := w2.outbox
              + [RefundEvent(c.refund, if to == Done then RefundSucceeded else RefundRejected, row.version)])
  {
    hide RefundsOk, ClaimsOk, RefundsMove, EventsOk, ParentsAgree, TxnsOk, Tally, ParentAfter, RemembersRefund;
    var rf := RefundTransitioned(c.rf, to).value;
    w1 := SaveRefund(w, c.refund, rf).value;
    SaveRefundKeeps(w, c, rf, w1);
    row := w1.refunds[c.refund];
    parent := ParentAfter(w1.refunds, c.parent, to).value;
  }

  /** A terminal outcome that commits: the refund is resolved, the parent follows, one
      event is written. The refund path reaches REFUNDED exactly when everything is refunded. */
  lemma FinishTerminalKeeps(w: World, c: Claim, to: RefundStatus)
    requires Inv(w) && ClaimOk(w, c) && to in {Done, Rejected}
    ensures var w' := ApplyFinish(w, c, Terminal(to));
            Kept(w, w')
            && (w' != w ==>
                 && c.rf == w.refunds[c.refund] && w'.refunds[c.refund].status == to
                 && w.txns[c.rf.txn].status in {RefundPending, Refunded}
                 && (to == Done ==>
                       (w'.txns[c.rf.txn].status == Refunded
                        <==> Tally(w'.refunds, c.rf.txn, DoneAmount) == w.txns[c.rf.txn].amount)))
  {
    hide RefundsOk, ClaimsOk, EventsOk, RefundMoves, ParentsAgree, Tally, Agrees, ChangeOf, ParentAfter;
    var w' := ApplyFinish(w, c, Terminal(to));
    StutterKeeps(w);
    if w' != w {
      var t := c.rf.txn;
      var w1, row, parent := FinishTerminalCommit(w, c, to);
      var w2 := SaveTxn(w1, parent).value;
      ParentAfterKeepsIdentity(w1.refunds, c.parent, to);
      SaveTxnKeeps(w1, c.parent, parent, w2);
      assert RowOk(t, w.txns[t]);
      FinishedParentAgrees(w, c.refund, row, w1.refunds, c.parent, parent, w2.txns[t]);
      TxnWriteKeepsRefunds(w1, w');
      ResolvedEvents(w, w', c.refund, row, t);
      OtherParentsAgree(w, w', c.refund, row);
    }
  }

  lemma ParentAfterKeepsIdentity(rs: seq<RefundRow>, parent: TxnRow, outcome: RefundStatus)
    ensures var p := ParentAfter(rs, parent, outcome);
            p.Ok? ==> p.value.id == parent.id && p.value.version == parent.version
  {
  }

  // ------------------------------------------------------------ all actions

  lemma StepKeeps(w: World, a: Action, w': World)
    requires Inv(w) && Step(w, a, w')
    ensures Kept(w, w')
  {
    hide Inv, TxnsMove, RefundsMove;
    match a
    case Create(id, amount, manual) => CreateKeeps(w, id, amount, manual);
    case StartPayment(mem, lease) => StartKeeps(w, mem, lease);
    case StartAuthorize(mem, lease) => StartKeeps(w, mem, lease);
    case StartCapture(mem, lease) => StartKeeps(w, mem, lease);
    case GatewayInitiate(mem, ref, g) => GatewayInitiateKeeps(w, mem, ref, g);
    case Finalize(mem, flow, reply, ref) => FinalizeKeeps(w, mem, flow, reply, ref);
    case Webhook(mem, to) => MoveKeeps(w, mem, mem, to);
    case Settle(mem) => MoveKeeps(w, mem, mem, Settled);
    case DisputeOpened(mem) => DisputeOpenedKeeps(w, mem);
    case DisputeWon(mem) => MoveKeeps(w, mem, mem, Captured);
    case DisputeLost(mem) => MoveKeeps(w, mem, mem, Refunded);
    case RequestCancel(id) => RequestCancelKeeps(w, id);
    case InitiateRefund(mem, amount, reason, initiator) => InitiateRefundKeeps(w, mem, amount, reason, initiator);
    case ClaimRefund(id, rf, parent, driver) => ClaimKeeps(w, id, rf, parent, driver);
    case GatewayAnswers(k, reply) => AnswerKeeps(w, k, reply);
    case FinishRefund(k) =>
      ClaimIsOk(w, k);
      match ResolveRefundOutcome(w.claims[k].reply.value)
      case InFlight => FinishInFlightKeeps(w, w.claims[k]);
      case Terminal(to) => FinishTerminalKeeps(w, w.claims[k], to);
  }

  lemma ClaimIsOk(w: World, k: nat)
    requires Inv(w) && k < |w.claims|
    ensures ClaimOk(w, w.claims[k])
  {
  }

  lemma StartKeeps(w: World, mem: TxnRow, lease: Lease)
    requires Inv(w) && mem in w.seenTxns
    ensures Kept(w, ApplyStart(w, mem, lease))
  {
    if Transitioned(mem, Processing).Ok? {
      SaveQuietlyKeeps(w, mem, Transitioned(mem, Processing).value.(lease := Some(lease)));
    }
  }

  lemma GatewayInitiateKeeps(w: World, mem: TxnRow, ref: string, g: Option<int>)
    requires Inv(w) && Enabled(w, GatewayInitiate(mem, ref, g))
    ensures Kept(w, ApplyGatewayInitiate(w, mem, ref, g))
  {
    var charged := if g.Some? then g else mem.gatewayAmount;
    var moved := Transitioned(mem.(gatewayRef := ref, gatewayAmount := charged), Processing).value;
    SaveQuietlyKeeps(w, mem, moved);
  }

  lemma DisputeOpenedKeeps(w: World, mem: TxnRow)
    requires Inv(w) && mem in w.seenTxns
    ensures Kept(w, MoveQuietly(w, mem, Disputed))
  {
    if Transitioned(mem, Disputed).Ok? {
      SaveQuietlyKeeps(w, mem, Transitioned(mem, Disputed).value);
    }
  }
}
