/** What every action of the ledger keeps. */
module LedgerInvariant {
  import opened Basics
  import opened TransactionDomain
  import opened RefundDomain
  import opened Ledger

  // ------------------------------------------------------------ tallies

  lemma {:induction false} TallyUpdate(rs: seq<RefundRow>, i: nat, r: RefundRow, t: nat, m: Measure)
    requires i < |rs| && r.txn == rs[i].txn
    ensures Tally(rs[i := r], t, m) == Tally(rs, t, m) + (if r.txn == t then Weight(r, m) - Weight(rs[i], m) else 0)
  {
    var n := |rs| - 1;
    if i == n {
      assert rs[i := r][..n] == rs[..n];
    } else {
      assert rs[i := r][..n] == rs[..n][i := r];
      TallyUpdate(rs[..n], i, r, t, m);
    }
  }

  lemma TallyAppend(rs: seq<RefundRow>, r: RefundRow, t: nat, m: Measure)
    ensures Tally(rs + [r], t, m) == Tally(rs, t, m) + (if r.txn == t then Weight(r, m) else 0)
  {
    assert (rs + [r])[..|rs|] == rs;
  }

  ghost predicate AmountsPositive(rs: seq<RefundRow>) {
    forall i :: 0 <= i < |rs| ==> rs[i].amount > 0
  }

  lemma {:induction false} TallyFacts(rs: seq<RefundRow>, t: nat)
    requires AmountsPositive(rs)
    ensures 0 <= Tally(rs, t, Open) <= Tally(rs, t, OpenAmount)
    ensures Tally(rs, t, Open) == 0 ==> Tally(rs, t, OpenAmount) == 0
    ensures 0 <= Tally(rs, t, DoneAmount)
    ensures Tally(rs, t, Open) <= Tally(rs, t, Rows)
    ensures Tally(rs, t, Rows) == 0 ==> Tally(rs, t, Open) == 0 && Tally(rs, t, DoneAmount) == 0
  {
    if rs != [] {
      TallyFacts(rs[..|rs| - 1], t);
    }
  }

  /** A refund that is there is counted. */
  lemma {:induction false} TallyCounts(rs: seq<RefundRow>, i: nat)
    requires AmountsPositive(rs) && i < |rs|
    ensures Tally(rs, rs[i].txn, Rows) >= 1
    ensures IsOpen(rs[i].status) ==> Tally(rs, rs[i].txn, Open) >= 1
  {
    var n := |rs| - 1;
    TallyFacts(rs[..n], rs[i].txn);
    if i < n {
      TallyCounts(rs[..n], i);
    }
  }

  /** Two open refunds of one transaction are counted twice. */
  lemma {:induction false} TallyCountsTwice(rs: seq<RefundRow>, i: nat, j: nat)
    requires AmountsPositive(rs) && i < j < |rs| && rs[i].txn == rs[j].txn
    requires IsOpen(rs[i].status) && IsOpen(rs[j].status)
    ensures Tally(rs, rs[i].txn, Open) >= 2
  {
    var n := |rs| - 1;
    TallyFacts(rs[..n], rs[i].txn);
    TallyCounts(rs[..n], i);
    if j < n {
      TallyCountsTwice(rs[..n], i, j);
    }
  }

  // ------------------------------------------------------------ the invariant

  /** A remembered row is either out of date or, but for a cancel request it may
      have missed, the committed row itself. */
  ghost predicate RemembersTxn(txns: map<nat, TxnRow>, m: TxnRow) {
    m.id in txns
    && m.version <= txns[m.id].version
    && (m.version == txns[m.id].version ==> m == txns[m.id].(cancelIntent := m.cancelIntent))
    && (m.cancelIntent ==> txns[m.id].cancelIntent)
  }

  ghost predicate RowOk(id: nat, row: TxnRow) {
    row.id == id && row.amount > 0 && row.version >= 1
    && (row.lease.Some? ==> row.status == Processing)
    && (row.status == Pending ==> row.gatewayAmount == None)
    && (row.gatewayAmount.Some? ==> row.gatewayAmount.value >= 0)
  }

  ghost predicate TxnsOk(w: World) {
    && (forall id :: id in w.txns ==> RowOk(id, w.txns[id]) && w.txns[id] in w.seenTxns)
    && (forall m :: m in w.seenTxns ==> RemembersTxn(w.txns, m))
  }

  ghost predicate RemembersRefund(rs: seq<RefundRow>, id: nat, rf: RefundRow) {
    id < |rs| && rf.version <= rs[id].version && (rf.version == rs[id].version ==> rf == rs[id])
    && rf.txn == rs[id].txn
  }

  ghost predicate RefundsOk(w: World) {
    && (forall i :: 0 <= i < |w.refunds| ==>
          w.refunds[i].txn in w.txns && w.refunds[i].amount > 0
          && (w.refunds[i].status == Initiated <==> w.refunds[i].attempts == 0)
          && (i, w.refunds[i]) in w.seenRefunds)
    && (forall x :: x in w.seenRefunds ==> RemembersRefund(w.refunds, x.0, x.1))
  }

  /** The number of claims of a refund, and how many of them were answered by the gateway. */
  function CountClaims(cs: seq<Claim>, id: nat, answered: bool): nat {
    if cs == [] then 0
    else CountClaims(cs[..|cs| - 1], id, answered)
         + (if cs[|cs| - 1].refund == id && (answered ==> cs[|cs| - 1].reply.Some?) then 1 else 0)
  }

  ghost predicate ClaimOk(w: World, c: Claim) {
    RemembersRefund(w.refunds, c.refund, c.rf) && c.rf.status == InProcess
    && c.parent in w.seenTxns && c.parent.id == c.rf.txn
  }

  ghost predicate ClaimsOk(w: World) {
    && (forall k :: 0 <= k < |w.claims| ==> ClaimOk(w, w.claims[k]))
    && (forall k, l :: 0 <= k < l < |w.claims| && w.claims[k].refund == w.claims[l].refund ==>
          w.claims[k].rf.version < w.claims[l].rf.version)
    && (forall i :: 0 <= i < |w.refunds| ==> CountClaims(w.claims, i, false) == w.refunds[i].attempts)
    && (forall i :: i >= |w.refunds| ==> CountClaims(w.claims, i, false) == 0)
  }

  function CountEvents(es: seq<Event>, id: nat, kind: RefundEventKind): nat {
    if es == [] then 0
    else CountEvents(es[..|es| - 1], id, kind)
         + (var e := es[|es| - 1]; if e.RefundEvent? && e.refund == id && e.kind == kind then 1 else 0)
  }

  /** Exactly one event for each thing that happened to a refund. */
  ghost predicate RefundEventsOk(es: seq<Event>, rs: seq<RefundRow>, id: nat) {
    var known := id < |rs|;
    CountEvents(es, id, RefundInitiated) == (if known then 1 else 0)
    && CountEvents(es, id, RefundSucceeded) == (if known && rs[id].status == Done then 1 else 0)
    && CountEvents(es, id, RefundRejected) == (if known && rs[id].status == Rejected then 1 else 0)
  }

  ghost predicate EventsOk(w: World) {
    && (forall i :: 0 <= i < |w.outbox| && w.outbox[i].StatusEvent? ==>
          w.outbox[i].txn in w.txns && w.outbox[i].version <= w.txns[w.outbox[i].txn].version)
    && (forall i, j :: (0 <= i < j < |w.outbox| && w.outbox[i].StatusEvent? && w.outbox[j].StatusEvent?
                        && w.outbox[i].txn == w.outbox[j].txn) ==> w.outbox[i].version < w.outbox[j].version)
    && (forall id: nat :: RefundEventsOk(w.outbox, w.refunds, id))
  }

  /** The parent's status says what its refund rows are. */
  ghost predicate Agrees(row: TxnRow, rs: seq<RefundRow>) {
    var open := Tally(rs, row.id, Open);
    var done := Tally(rs, row.id, DoneAmount);
    && 0 <= open <= 1
    && SumActive(rs, row.id) <= row.amount
    && match row.status
       case RefundPending => open == 1 || 0 < done < row.amount
       case PartiallyRefunded => open == 0 && 0 < done < row.amount
       case RefundFailed => open == 0 && done == 0
       case Refunded => true   // also set by a gateway callback or a lost dispute
       case _ => Tally(rs, row.id, Rows) == 0
  }

  ghost predicate ParentsAgree(w: World) {
    forall id :: id in w.txns ==> Agrees(w.txns[id], w.refunds)
  }

  ghost predicate Inv(w: World) {
    TxnsOk(w) && RefundsOk(w) && ClaimsOk(w) && EventsOk(w) && ParentsAgree(w)
  }

  // ------------------------------------------------------------ how rows move

  /** What one step may do to a committed transaction row. */
  ghost predicate RowMoves(r: TxnRow, r': TxnRow) {
    && r'.amount == r.amount
    && r.version <= r'.version
    && (r' == r || r' == r.(cancelIntent := true) || r.version < r'.version)
    && (r'.status == r.status || r'.status in Allowed(r.status))
    && (r.status == Failed && r'.status == Cancelled ==> r.cancelIntent)
    && (r.cancelIntent ==> r'.cancelIntent)
    && (r.gatewayRef != "" ==> r'.gatewayRef != "")
    && (r.status != Pending ==> r'.gatewayAmount == r.gatewayAmount)
  }

  ghost predicate TxnsMove(w: World, w': World) {
    forall id :: id in w.txns ==> id in w'.txns && RowMoves(w.txns[id], w'.txns[id])
  }

  /** What one step may do to a committed refund row: terminal rows are frozen. */
  ghost predicate RefundMoves(r: RefundRow, r': RefundRow) {
    && r'.txn == r.txn && r'.amount == r.amount && r'.reason == r.reason && r'.initiator == r.initiator
    && (r' == r || r.version < r'.version)
    && r.attempts <= r'.attempts
    && (!IsOpen(r.status) ==> r' == r)
    && (r.status == InProcess ==> r'.status != Initiated)
  }

  ghost predicate RefundsMove(w: World, w': World) {
    |w.refunds| <= |w'.refunds|
    && forall i :: 0 <= i < |w.refunds| ==> RefundMoves(w.refunds[i], w'.refunds[i])
  }

  // ------------------------------------------------------------ saving a transaction

  /** mem is a change of the remembered row base that keeps what UpdateStatus relies on. */
  ghost predicate ChangeOf(base: TxnRow, mem: TxnRow) {
    && mem.id == base.id && mem.amount == base.amount && mem.manualCapture == base.manualCapture
    && mem.version == base.version && mem.cancelIntent == base.cancelIntent
    && (mem.status == base.status || mem.status in Allowed(base.status))
    && (base.status == Failed && mem.status == Cancelled ==> base.cancelIntent)
    && (mem.lease.Some? ==> mem.status == Processing)
    && (base.gatewayRef != "" ==> mem.gatewayRef != "")
    && (base.status != Pending ==> mem.gatewayAmount == base.gatewayAmount)
    && (mem.status == Pending ==> mem.gatewayAmount == base.gatewayAmount)
    && (mem.gatewayAmount.Some? && mem.gatewayAmount != base.gatewayAmount ==> mem.gatewayAmount.value >= 0)
  }

  /** The heart of the optimistic lock: a save that succeeds was based on the
      committed row, whatever the age of the copy it started from. */
  lemma SaveTxnKeeps(w: World, base: TxnRow, mem: TxnRow, w': World)
    requires TxnsOk(w) && base in w.seenTxns && mem.id == base.id && mem.version == base.version
    requires SaveTxn(w, mem) == Some(w')
    ensures base == w.txns[base.id].(cancelIntent := base.cancelIntent)
    ensures ChangeOf(base, mem) ==> TxnsOk(w') && RowMoves(w.txns[mem.id], w'.txns[mem.id])
    ensures w' == w.(txns := w'.txns, seenTxns := w'.seenTxns)
    ensures w'.txns == w.txns[mem.id := w'.txns[mem.id]]
    ensures w'.txns[mem.id].status == mem.status && w'.txns[mem.id].version == mem.version + 1
    ensures w.seenTxns <= w'.seenTxns
  {
    assert RemembersTxn(w.txns, base);
    if ChangeOf(base, mem) {
      assert RowOk(mem.id, w.txns[mem.id]);
      forall m | m in w'.seenTxns ensures RemembersTxn(w'.txns, m) {
        if m in w.seenTxns {
          assert RemembersTxn(w.txns, m);
        }
      }
      forall id | id in w'.txns ensures RowOk(id, w'.txns[id]) && w'.txns[id] in w'.seenTxns {
        if id != mem.id { assert RowOk(id, w.txns[id]); }
      }
    }
  }

  /** Refund rows, claims and their bookkeeping survive a save of a transaction. */
  lemma TxnWriteKeepsRefunds(w: World, w': World)
    requires RefundsOk(w) && ClaimsOk(w)
    requires w' == w.(txns := w'.txns, seenTxns := w'.seenTxns, outbox := w'.outbox)
    requires w.seenTxns <= w'.seenTxns && forall id :: id in w.txns ==> id in w'.txns
    ensures RefundsOk(w') && ClaimsOk(w') && RefundsMove(w, w')
  {
    forall k | 0 <= k < |w'.claims| ensures ClaimOk(w', w'.claims[k]) {
      assert ClaimOk(w, w.claims[k]);
    }
  }

  lemma CountEventsAppend(es: seq<Event>, e: Event, id: nat, kind: RefundEventKind)
    ensures CountEvents(es + [e], id, kind)
         == CountEvents(es, id, kind) + (if e.RefundEvent? && e.refund == id && e.kind == kind then 1 else 0)
  {
    assert (es + [e])[..|es|] == es;
  }

  /** Appending a status event of the row just written, with its new version. */
  lemma StatusEventKeeps(w: World, w': World, id: nat, e: seq<Event>)
    requires EventsOk(w) && (id in w.txns ==> id in w'.txns && w.txns[id].version < w'.txns[id].version)
    requires w'.txns.Keys == w.txns.Keys + {id} && w'.refunds == w.refunds
    requires forall j :: j in w.txns && j != id ==> w'.txns[j] == w.txns[j]
    requires w'.outbox == w.outbox + e
    requires e == [] || (exists s :: e == [StatusEvent(id, w'.txns[id].version, s)])
    ensures EventsOk(w')
  {
    forall r: nat ensures RefundEventsOk(w'.outbox, w'.refunds, r) {
      assert RefundEventsOk(w.outbox, w.refunds, r);
      if e == [] {
        assert w'.outbox == w.outbox;
      } else {
        assert e == [e[0]];
        CountEventsAppend(w.outbox, e[0], r, RefundInitiated);
        CountEventsAppend(w.outbox, e[0], r, RefundSucceeded);
        CountEventsAppend(w.outbox, e[0], r, RefundRejected);
      }
    }
  }

  /** The moves made outside the refund service: within the statuses that have no
      refund rows, or to REFUNDED. */
  predicate OutsideMove(s: Status, s': Status) {
    var bare := {Pending, Processing, Authorized, Captured, Settled, Failed, Cancelled, Disputed};
    s' == s || s' == Refunded || (s in bare && s' in bare)
  }

  lemma OutsideMoveAgrees(w: World, w': World, id: nat)
    requires ParentsAgree(w) && RefundsOk(w) && id in w.txns && w'.refunds == w.refunds
    requires id in w'.txns && w'.txns == w.txns[id := w'.txns[id]]
    requires w'.txns[id].id == w.txns[id].id && w'.txns[id].amount == w.txns[id].amount
    requires OutsideMove(w.txns[id].status, w'.txns[id].status)
    ensures ParentsAgree(w')
  {
    assert Agrees(w.txns[id], w.refunds);
    TallyFacts(w.refunds, w.txns[id].id);
    forall j | j in w'.txns ensures Agrees(w'.txns[j], w'.refunds) {
      if j != id { assert Agrees(w.txns[j], w.refunds); }
    }
  }

  /** Any save outside the refund service keeps the whole invariant. */
  lemma OutsideSaveKeeps(w: World, base: TxnRow, mem: TxnRow, w1: World, w': World, e: seq<Event>)
    requires Inv(w) && base in w.seenTxns && SaveTxn(w, mem) == Some(w1)
    requires w' == w1.(outbox := w1.outbox + e)
    requires e == [] || e == [StatusEvent(mem.id, mem.version + 1, mem.status)]
    requires mem.id == base.id && mem.version == base.version
    requires RowOk(base.id, base) ==> ChangeOf(base, mem)
    requires OutsideMove(base.status, mem.status)
    ensures Inv(w') && TxnsMove(w, w') && RefundsMove(w, w')
  {
    hide RefundsOk, ClaimsOk, EventsOk, ParentsAgree, RefundsMove;
    assert RemembersTxn(w.txns, base) && RowOk(base.id, w.txns[base.id]);
    SaveTxnKeeps(w, base, mem, w1);
    TxnWriteKeepsRefunds(w, w');
    StatusEventKeeps(w, w', mem.id, e);
    OutsideMoveAgrees(w, w', mem.id);
  }
}
