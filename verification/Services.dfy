/** The payment, callback and refund services and their repositories as running
    code: objects are changed step by step, and a failed database transaction puts
    the tables back. Each method is shown to perform exactly the ledger action it
    stands for. */
module Services {
  import opened Basics
  import opened TransactionDomain
  import opened RefundDomain
  import opened Ledger
  import opened LedgerInvariant
  import opened LedgerSteps
  import opened ReaperRuns
  import opened LedgerExact

  /** The three actions of one uninterrupted drive of a refund. */
  function Drive(w: World, id: nat, read: RefundRow, parent: TxnRow, reply: RefundReply): World {
    var w1 := ApplyClaim(w, id, read, parent);
    if w1 == w then w
    else
      var k := |w1.claims| - 1;
      Apply(ApplyAnswer(w1, k, reply), FinishRefund(k))
  }

  datatype WebhookOutcome =
    | Duplicate | UnknownTxn | NoChange(status: Status) | Resolved(status: Status) | Conflict

  /** The ledger and the callback events already recorded. */
  datatype Inbox = Inbox(w: World, recorded: set<string>)

  /** One delivery of a gateway callback. The record and the change commit together: only a lost
      race undoes the record. */
  function Deliver(b: Inbox, event: string, found: Option<TxnRow>, asked: Option<Status>): (Inbox, WebhookOutcome) {
    var kept := b.(recorded := b.recorded + {event});
    if event in b.recorded then (b, Duplicate)
    else if found == None then (kept, UnknownTxn)
    else if asked == None || asked.value == found.value.status || Transitioned(found.value, asked.value).Err? then
      (kept, NoChange(found.value.status))
    else if SaveTxn(b.w, Transitioned(found.value, asked.value).value) == None then (b, Conflict)
    else (kept.(w := Move(b.w, found.value, asked.value)), Resolved(asked.value))
  }

  class Service {
    var db: World
    var recorded: set<string>   // gateway callback events already processed

    constructor ()
      ensures db == EMPTY_WORLD && recorded == {}
    {
      db := EMPTY_WORLD;
      recorded := {};
    }

    // ---------------------------------------------------------- repositories

    /** TransactionRepository.UpdateStatus */
    method UpdateTransaction(t: Txn) returns (ok: bool)
      modifies this`db, t
      ensures match SaveTxn(old(db), old(t.Row()))
              case Some(w) => ok && db == w && t.Row() == old(t.Row()).(version := old(t.version) + 1)
              case None => !ok && db == old(db) && t.Row() == old(t.Row())
    {
      if t.id !in db.txns || db.txns[t.id].version != t.version {
        return false;
      }
      var row := db.txns[t.id].(
        status := t.status, version := t.version + 1, gatewayRef := t.gatewayRef,
        lease := t.lease, gatewayAmount := t.gatewayAmount);
      t.version := row.version;
      db := db.(txns := db.txns[t.id := row], seenTxns := db.seenTxns + {row, t.Row()});
      return true;
    }

    /** RefundRepository.UpdateStatus */
    method UpdateRefund(id: nat, rf: Refund) returns (ok: bool)
      modifies this`db, rf
      ensures match SaveRefund(old(db), id, old(rf.Row()))
              case Some(w) => ok && db == w && rf.Row() == old(rf.Row()).(version := old(rf.version) + 1)
              case None => !ok && db == old(db) && rf.Row() == old(rf.Row())
    {
      if id >= |db.refunds| || db.refunds[id].version != rf.version {
        return false;
      }
      var row := db.refunds[id].(
        status := rf.status, version := rf.version + 1, attempts := rf.attempts, resolved := rf.resolved);
      db := db.(refunds := db.refunds[id := row], seenRefunds := db.seenRefunds + {(id, row)});
      rf.version := row.version;
      return true;
    }

    /** RefundRepository.SumActiveRefunds */
    method SumActiveRefunds(txn: nat) returns (sum: int)
      ensures sum == SumActive(db.refunds, txn)
    {
      sum := 0;
      assert db.refunds[..0] == [];
      for i := 0 to |db.refunds|
        invariant sum == SumActive(db.refunds[..i], txn)
      {
        assert db.refunds[..i + 1][..i] == db.refunds[..i];
        if db.refunds[i].txn == txn && IsActive(db.refunds[i].status) {
          sum := sum + db.refunds[i].amount;
        }
      }
      assert db.refunds[..|db.refunds|] == db.refunds;
    }

    /** RefundRepository.ClaimProcessing */
    method ClaimProcessing(id: nat, rf: Refund, parent: TxnRow) returns (claimed: bool)
      modifies this`db, rf
      ensures db == ApplyClaim(old(db), id, old(rf.Row()), parent)
      ensures claimed <==> db != old(db)
      ensures claimed ==> |db.claims| > 0 && db.claims[|db.claims| - 1] == Claim(id, rf.Row(), parent, None)
    {
      if id >= |db.refunds| || !IsOpen(db.refunds[id].status) || db.refunds[id].version != rf.version {
        return false;
      }
      var row := db.refunds[id].(
        status := InProcess, version := rf.version + 1, attempts := db.refunds[id].attempts + 1);
      rf.status := InProcess;
      rf.attempts := rf.attempts + 1;
      rf.version := row.version;
      assert row.version != db.refunds[id].version;
      db := db.(refunds := db.refunds[id := row], seenRefunds := db.seenRefunds + {(id, row)},
                claims := db.claims + [Claim(id, rf.Row(), parent, None)]);
      assert |db.claims| == |old(db).claims| + 1;
      return true;
    }

    // ---------------------------------------------------------- payments

    /** TransitionState, UpdateStatus and the status event in one transaction. */
    method MoveAndAnnounce(t: Txn, to: Status) returns (err: Option<TransitionError>, saved: bool)
      modifies this`db, t
      ensures db == Move(old(db), old(t.Row()), to)
      ensures err.Some? <==> Transitioned(old(t.Row()), to).Err?
      ensures saved <==> Transitioned(old(t.Row()), to).Ok? && old(t.id in db.txns && db.txns[t.id].version == t.version)
      ensures saved ==> t.id in db.txns && db.txns[t.id].status == to && db.txns[t.id].version == old(t.version) + 1
      ensures !saved ==> db == old(db)
    {
      saved := false;
      err := t.TransitionState(to);
      if err.Some? {
        return;
      }
      saved := UpdateTransaction(t);
      if !saved {
        return;
      }
      if HasEvent(to) {
        db := db.(outbox := db.outbox + [StatusEvent(t.id, t.version, to)]);
      }
    }

    /** The transaction that opens ProcessPayment, Authorize and Capture. */
    method StartProcessing(read: TxnRow, lease: Lease) returns (ok: bool)
      modifies this`db
      ensures db == ApplyStart(old(db), read, lease)
      ensures ok <==> read.status in {Pending, Authorized} && read.id in old(db).txns && old(db).txns[read.id].version == read.version
      ensures ok ==> read.id in db.txns && db.txns[read.id].status == Processing && db.txns[read.id].lease == Some(lease)
    {
      TableByTarget(read.status, Processing);
      hide Allowed;
      var t := new Txn(read);
      var err := t.TransitionState(Processing);
      if err.Some? {
        return false;
      }
      t.lease := Some(lease);
      ok := UpdateTransaction(t);
    }

    /** UpdateGatewayReference: guarded by the version but not bumping it. */
    method UpdateGatewayReference(id: nat, ref: string, expectedVersion: nat) returns (ok: bool)
      modifies this`db
      ensures ok <==> old(id in db.txns && db.txns[id].version == expectedVersion)
      ensures db == if ok then old(db).(txns := old(db).txns[id := old(db).txns[id].(gatewayRef := ref)]) else old(db)
    {
      if id !in db.txns || db.txns[id].version != expectedVersion {
        return false;
      }
      db := db.(txns := db.txns[id := db.txns[id].(gatewayRef := ref)]);
      return true;
    }

    /** The closing transaction of ProcessGatewayInitiate: the unversioned write of the
        reference and the versioned move commit together or not at all. */
    method InitiateAtGateway(read: TxnRow, ref: string, gatewayAmount: Option<int>)
      modifies this`db
      ensures db == ApplyGatewayInitiate(old(db), read, ref, gatewayAmount)
    {
      hide Allowed, SaveTxn;
      var t := new Txn(read);
      if gatewayAmount.Some? {
        t.gatewayAmount := gatewayAmount;
      }
      var begin := db;
      var referenced := UpdateGatewayReference(t.id, ref, t.version);
      ReferenceIsOverwritten(begin, read.id, ref, read.version);
      if !referenced {
        return;
      }
      t.gatewayRef := ref;
      var err := t.TransitionState(Processing);
      if err.Some? {
        db := begin;
        return;
      }
      var saved := UpdateTransaction(t);
      if !saved {
        db := begin;
      }
    }

    /** finalize, and the drivers' decision not to call it on an open outcome. */
    method FinalizePayment(read: TxnRow, flow: Flow, reply: PaymentReply, ref: string)
      modifies this`db
      ensures db == ApplyFinalize(old(db), read, flow, reply, ref)
      ensures old(read.id in db.txns && db.txns[read.id] == read) && read.status == Processing ==>
        && (reply == PaymentStatus(GpSucceeded) ==> Finalized(old(db), db, read, ref, if flow == AuthorizeFlow then Authorized else Captured))
        && (reply == PaymentStatus(GpFailed) ==> Finalized(old(db), db, read, ref, Failed))
        && (reply == PaymentStatus(GpCancelled) ==> Finalized(old(db), db, read, ref, Cancelled))
        && (reply == PaymentError(HardDecline) || reply == PaymentError(SoftDecline) ==> Finalized(old(db), db, read, "", Failed))
        && (reply == PaymentError(Ambiguous) || reply == PaymentError(NetworkTimeout) ==> read.id in db.txns && db.txns[read.id].status == Processing)
    {
      FinalizeOnRow(db, read, flow, reply, ref);
      hide Finalized, ResolveOutcome, SaveTxn, Move;
      var t := new Txn(read);
      if reply.PaymentStatus? && ref != "" {
        t.gatewayRef := ref;
      }
      var outcome := ResolveOutcome(flow, reply);
      if outcome.Some? {
        var _, _ := MoveAndAnnounce(t, outcome.value);
      } else if flow == ChargeFlow {
        var _ := UpdateTransaction(t);
      }
    }

    /** SetCancelIntent: reports whether this call set the flag. */
    method SetCancelIntent(id: nat) returns (set_: bool)
      modifies this`db
      ensures set_ <==> old(id in db.txns && !db.txns[id].cancelIntent)
      ensures db == if set_ then ApplyRequestCancel(old(db), id) else old(db)
      ensures set_ ==> db.txns == old(db).txns[id := old(db).txns[id].(cancelIntent := true)]
    {
      if id !in db.txns || db.txns[id].cancelIntent {
        return false;
      }
      var row := db.txns[id].(cancelIntent := true);
      db := db.(txns := db.txns[id := row], seenTxns := db.seenTxns + {row});
      return true;
    }

    /** webhook.Process: an event is recorded before it is applied. A duplicate changes
        nothing; one that the table rejects is recorded and dropped; a lost race rolls the
        record back too, so that the gateway's redelivery is processed. */
    method ProcessWebhook(event: string, found: Option<TxnRow>, word: string) returns (outcome: WebhookOutcome)
      modifies this
      ensures (Inbox(db, recorded), outcome) == Deliver(Inbox(old(db), old(recorded)), event, found, MapWebhookStatus(word))
      ensures outcome == Duplicate <==> event in old(recorded)
      ensures recorded == if outcome == Conflict then old(recorded) else old(recorded) + {event}
      ensures outcome.Resolved? ==>
                found.Some? && MapWebhookStatus(word) == Some(outcome.status) && found.value.id in db.txns
                && db.txns[found.value.id].status == outcome.status
                && db.txns[found.value.id].version == found.value.version + 1
      ensures outcome.Resolved? || outcome == Conflict <==>
                event !in old(recorded) && found.Some? && MapWebhookStatus(word).Some?
                && MapWebhookStatus(word).value != found.value.status && Transitioned(found.value, MapWebhookStatus(word).value).Ok?
      ensures db == if outcome.Resolved? then Move(old(db), found.value, MapWebhookStatus(word).value) else old(db)
      ensures outcome == Conflict ==>
                !(found.value.id in old(db).txns && old(db).txns[found.value.id].version == found.value.version)
    {
      hide MapWebhookStatus;
      var asked := MapWebhookStatus(word);
      if event in recorded {
        assert recorded + {event} == recorded;
        return Duplicate;
      }
      var begin := recorded;
      recorded := recorded + {event};
      if found == None {
        return UnknownTxn;
      }
      var t := new Txn(found.value);
      if asked == None || asked.value == t.status {
        return NoChange(t.status);
      }
      var err, saved := MoveAndAnnounce(t, asked.value);
      if err.Some? {
        return NoChange(found.value.status);
      }
      if !saved {
        recorded := begin;
        return Conflict;
      }
      return Resolved(asked.value);
    }

    // ---------------------------------------------------------- initiating

    /** InitiateRefund: read is the copy of the parent that GetByID returned. */
    method InitiateRefund(read: TxnRow, amount: int, reason: string, initiator: string) returns (ok: bool)
      modifies this`db
      ensures db == if IsRefundable(read.status)
                    then ApplyInitiateRefund(old(db), read, amount, reason, initiator) else old(db)
      ensures FitsInt64(SumActive(old(db).refunds, read.id) + amount) ==>
        (ok <==>
          && read.status in {Captured, Settled, PartiallyRefunded, RefundFailed}
          && read.id in old(db).txns && old(db).txns[read.id].version == read.version
          && 0 < amount && reason != "" && initiator != ""
          && 0 <= SumActive(old(db).refunds, read.id) && SumActive(old(db).refunds, read.id) + amount <= read.amount)
      ensures ok <==> |db.refunds| == |old(db).refunds| + 1
      ensures ok ==> db.refunds[|old(db).refunds|].amount == amount && db.txns[read.id].status == RefundPending
    {
      InitiationOf(db, read, amount, reason, initiator);
      TableByTarget(read.status, RefundPending);
      hide Allowed, SumActive;
      var parent := new Txn(read);
      if !IsRefundable(parent.status) {
        return false;
      }
      var begin := db;
      var err := parent.TransitionState(RefundPending);
      if err.Some? {
        return false;
      }
      var saved := UpdateTransaction(parent);
      if !saved {
        return false;
      }
      var already := SumActiveRefunds(parent.id);
      match NewRefund(parent.id, amount, parent.amount, already, reason, initiator) {
        case Err(_) =>
          db := begin;
          return false;
        case Ok(rf) =>
          var id := |db.refunds|;
          db := db.(refunds := db.refunds + [rf], seenRefunds := db.seenRefunds + {(id, rf)},
                    outbox := db.outbox + [RefundEvent(id, RefundInitiated, rf.version)]);
          return true;
      }
    }

    // ---------------------------------------------------------- driving

    /** transitionParentOnRefundResult */
    method TransitionParent(parent: Txn, outcome: RefundStatus) returns (err: Option<TransitionError>)
      modifies parent
      ensures match ParentAfter(db.refunds, old(parent.Row()), outcome)
              case Ok(row) => err == None && parent.Row() == row
              case Err(e) => err == Some(e)
    {
      var active := SumActiveRefunds(parent.id);
      if outcome == Done {
        if active >= parent.amount {
          err := parent.TransitionState(Refunded);
        } else {
          err := parent.TransitionState(PartiallyRefunded);
        }
        return;
      }
      if active > 0 {
        return None;
      }
      err := parent.TransitionState(RefundFailed);
    }

    /** The second half of runRefund: persist what the gateway answered to claim k. */
    method Finish(k: nat)
      requires k < |db.claims| && db.claims[k].reply.Some?
      modifies this`db
      ensures db == Apply(old(db), FinishRefund(k))
    {
      hide SaveTxn, SaveRefund, ParentAfter, RefundTransitioned, Transitioned;
      var c := db.claims[k];
      var outcome := ResolveRefundOutcome(c.reply.value);
      var rf := new Refund(c.rf);
      var parent := new Txn(c.parent);
      var begin := db;
      if outcome == InFlight {
        var _ := UpdateRefund(c.refund, rf);
        return;
      }
      var moved := rf.Transition(outcome.status);
      if !moved {
        return;
      }
      var savedRefund := UpdateRefund(c.refund, rf);
      if !savedRefund {
        return;
      }
      var err := TransitionParent(parent, outcome.status);
      if err.Some? {
        db := begin;
        return;
      }
      var savedParent := UpdateTransaction(parent);
      if !savedParent {
        db := begin;
        return;
      }
      var kind := if outcome.status == Done then RefundSucceeded else RefundRejected;
      db := db.(outbox := db.outbox + [RefundEvent(c.refund, kind, rf.version)]);
    }

    /** runRefund: claim, call the gateway, persist. The loser of a claim does nothing. */
    method RunRefund(id: nat, read: RefundRow, parent: TxnRow, reply: RefundReply)
      modifies this`db
      ensures db == Drive(old(db), id, read, parent, reply)
    {
      var rf := new Refund(read);
      var claimed := ClaimProcessing(id, rf, parent);
      if !claimed {
        return;
      }
      var k := |db.claims| - 1;
      db := ApplyAnswer(db, k, reply);
      Finish(k);
    }

    // ---------------------------------------------------------- the reaper

    /** The stale refund not listed yet that was updated longest ago. */
    method FindOldest(max: nat, updatedAt: nat -> int, cutoff: int, ids: seq<nat>) returns (oldest: Option<nat>)
      ensures oldest.Some? ==> oldest.value !in ids && IsStale(db, updatedAt, cutoff, max, oldest.value)
      ensures oldest.Some? ==> forall i: nat :: IsStale(db, updatedAt, cutoff, max, i) && i !in ids ==> updatedAt(oldest.value) <= updatedAt(i)
      ensures oldest == None ==> forall i: nat :: IsStale(db, updatedAt, cutoff, max, i) ==> i in ids
    {
      oldest := None;
      for i := 0 to |db.refunds|
        invariant oldest.Some? ==> oldest.value !in ids && IsStale(db, updatedAt, cutoff, max, oldest.value)
        invariant oldest.Some? ==>
                    forall j: nat :: j < i && IsStale(db, updatedAt, cutoff, max, j) && j !in ids ==> updatedAt(oldest.value) <= updatedAt(j)
        invariant oldest == None ==> forall j: nat :: j < i && IsStale(db, updatedAt, cutoff, max, j) ==> j in ids
      {
        if IsStale(db, updatedAt, cutoff, max, i) && i !in ids && (oldest == None || updatedAt(i) < updatedAt(oldest.value)) {
          oldest := Some(i);
        }
      }
    }

    /** ListStaleRefunds: the open refunds below the attempt limit that were last updated before
        the cutoff, oldest first, up to the batch limit. */
    method ListStaleRefunds(max: nat, updatedAt: nat -> int, cutoff: int, limit: int) returns (ids: seq<nat>)
      ensures OldestFirst(db, updatedAt, cutoff, max, ids) && |ids| <= BatchLimit(limit)
      ensures |ids| < BatchLimit(limit) ==> forall i: nat :: IsStale(db, updatedAt, cutoff, max, i) ==> i in ids
      ensures forall i :: 0 <= i < |ids| ==>
                && ids[i] < |db.refunds| && db.refunds[ids[i]].status in {Initiated, InProcess}
                && db.refunds[ids[i]].attempts < max && updatedAt(ids[i]) < cutoff
      ensures |ids| < BatchLimit(limit) ==> forall i: nat ::
                (&& i < |db.refunds| && db.refunds[i].status in {Initiated, InProcess} && db.refunds[i].attempts < max
                 && updatedAt(i) < cutoff) ==> i in ids
    {
      StaleMeans(db, updatedAt, cutoff, max);
      hide IsStale;
      ids := [];
      while |ids| < BatchLimit(limit)
        invariant OldestFirst(db, updatedAt, cutoff, max, ids) && |ids| <= BatchLimit(limit)
        decreases BatchLimit(limit) - |ids|
      {
        var oldest := FindOldest(max, updatedAt, cutoff, ids);
        if oldest == None {
          return;
        }
        ids := ids + [oldest.value];
      }
    }

    /** Reaper.RunOnce with nobody else at work: every listed refund left in process is driven
        exactly once more, and no other refund is touched. */
    method ReapOnce(max: nat, updatedAt: nat -> int, cutoff: int, limit: int, gateway: nat -> RefundReply) returns (ids: seq<nat>)
      requires Inv(db)
      modifies this`db
      ensures OldestFirst(old(db), updatedAt, cutoff, max, ids) && |ids| <= BatchLimit(limit)
      ensures |ids| < BatchLimit(limit) ==> forall i: nat :: IsStale(old(db), updatedAt, cutoff, max, i) ==> i in ids
      ensures Inv(db) && |db.refunds| == |old(db).refunds|
      ensures forall i :: 0 <= i < |db.refunds| ==>
                var r := old(db).refunds[i];
                if i in ids && r.status == InProcess
                then db.refunds[i].attempts == r.attempts + 1 <= max && db.refunds[i].status != Initiated
                else db.refunds[i] == r
    {
      hide Inv, IsStale, OldestFirst, Stale;
      ids := ListStaleRefunds(max, updatedAt, cutoff, limit);
      ListedAreStale(db, updatedAt, cutoff, max, ids);
      RetryAll(ids, gateway);
    }

    /** The reaper's loop over its list. */
    method RetryAll(ids: seq<nat>, gateway: nat -> RefundReply)
      requires Inv(db) && Distinct(ids) && forall i :: 0 <= i < |ids| ==> ids[i] < |db.refunds|
      modifies this`db
      ensures Inv(db) && |db.refunds| == |old(db).refunds|
      ensures forall i :: 0 <= i < |db.refunds| ==>
                var r := old(db).refunds[i];
                if i in ids && r.status == InProcess
                then db.refunds[i].attempts == r.attempts + 1 && db.refunds[i].status != Initiated
                else db.refunds[i] == r
    {
      hide Inv, Drive, Enabled;
      for n := 0 to |ids|
        invariant Inv(db) && |db.refunds| == |old(db).refunds|
        invariant forall i :: 0 <= i < |db.refunds| && i !in ids[..n] ==> db.refunds[i] == old(db).refunds[i]
        invariant forall i :: 0 <= i < |db.refunds| && i in ids[..n] ==>
                    var r := old(db).refunds[i];
                    if r.status == InProcess
                    then db.refunds[i].attempts == r.attempts + 1 && db.refunds[i].status != Initiated
                    else db.refunds[i] == r
      {
        var id := ids[n];
        assert id !in ids[..n];
        assert ids[..n + 1] == ids[..n] + [id];
        var read := db.refunds[id];
        if read.status == InProcess {
          CurrentReadsEnabled(db, id);
          DriveKeeps(db, id, read, db.txns[read.txn], gateway(id), Reaper);
          RunRefund(id, read, db.txns[read.txn], gateway(id));
        }
      }
      assert ids[..|ids|] == ids;
    }
  }

  predicate IsStale(w: World, updatedAt: nat -> int, cutoff: int, max: nat, i: nat) {
    i < |w.refunds| && IsOpen(w.refunds[i].status) && w.refunds[i].attempts < max && updatedAt(i) < cutoff
  }

  lemma StaleMeans(w: World, updatedAt: nat -> int, cutoff: int, max: nat)
    ensures forall i: nat :: IsStale(w, updatedAt, cutoff, max, i) <==>
      i < |w.refunds| && w.refunds[i].status in {Initiated, InProcess} && w.refunds[i].attempts < max && updatedAt(i) < cutoff
  {
  }

  /** Stale refunds, each once, oldest first, with none left out that is older than a listed one. */
  ghost predicate OldestFirst(w: World, updatedAt: nat -> int, cutoff: int, max: nat, ids: seq<nat>) {
    && Distinct(ids)
    && (forall i :: 0 <= i < |ids| ==> IsStale(w, updatedAt, cutoff, max, ids[i]))
    && (forall i, j :: 0 <= i < j < |ids| ==> updatedAt(ids[i]) <= updatedAt(ids[j]))
    && (forall i, j: nat :: 0 <= i < |ids| && IsStale(w, updatedAt, cutoff, max, j) && j !in ids ==> updatedAt(ids[i]) <= updatedAt(j))
  }

  function BatchLimit(limit: int): (n: nat)
    ensures limit > 0 ==> n == limit
    ensures limit <= 0 ==> n == 100
  {
    if limit <= 0 then 100 else limit
  }

  /** Such a list is one that the reaper's protocol allows. */
  lemma ListedAreStale(w: World, updatedAt: nat -> int, cutoff: int, max: nat, ids: seq<nat>)
    requires OldestFirst(w, updatedAt, cutoff, max, ids)
    ensures Stale(w, ids, max) && Distinct(ids)
    ensures forall i :: 0 <= i < |ids| ==> ids[i] < |w.refunds| && w.refunds[ids[i]].attempts < max
  {
    assert forall i :: 0 <= i < |ids| ==> IsStale(w, updatedAt, cutoff, max, ids[i]);
  }

  /** The committed rows themselves are always among what may be read. */
  lemma CurrentReadsEnabled(w: World, id: nat)
    requires Inv(w) && id < |w.refunds| && w.refunds[id].status == InProcess
    ensures w.refunds[id].txn in w.txns
    ensures Enabled(w, ClaimRefund(id, w.refunds[id], w.txns[w.refunds[id].txn], Reaper))
  {
    assert RowOk(w.refunds[id].txn, w.txns[w.refunds[id].txn]);
  }

  /** Finalize on the committed row, answer by answer. */
  lemma FinalizeOnRow(w: World, mem: TxnRow, flow: Flow, answer: PaymentReply, ref: string)
    ensures mem.id in w.txns && w.txns[mem.id] == mem && mem.status == Processing ==>
      var w' := ApplyFinalize(w, mem, flow, answer, ref);
      && (answer == PaymentStatus(GpSucceeded) ==> Finalized(w, w', mem, ref, if flow == AuthorizeFlow then Authorized else Captured))
      && (answer == PaymentStatus(GpFailed) ==> Finalized(w, w', mem, ref, Failed))
      && (answer == PaymentStatus(GpCancelled) ==> Finalized(w, w', mem, ref, Cancelled))
      && (answer == PaymentError(HardDecline) || answer == PaymentError(SoftDecline) ==> Finalized(w, w', mem, "", Failed))
      && (answer == PaymentError(Ambiguous) || answer == PaymentError(NetworkTimeout) ==> mem.id in w'.txns && w'.txns[mem.id].status == Processing)
  {
    hide ApplyFinalize, Finalized;
    if mem.id in w.txns && w.txns[mem.id] == mem && mem.status == Processing {
      FinalizeCommits(w, mem, flow, answer, ref);
      if answer == PaymentError(Ambiguous) || answer == PaymentError(NetworkTimeout) {
        OpenAnswerKeepsProcessing(w, mem, flow, answer, ref);
      }
    }
  }

  /** An initiation from a refundable copy, when its sum fits. */
  lemma InitiationOf(w: World, mem: TxnRow, amount: int, reason: string, initiator: string)
    ensures FitsInt64(SumActive(w.refunds, mem.id) + amount) ==>
      (|ApplyInitiateRefund(w, mem, amount, reason, initiator).refunds| == |w.refunds| + 1 <==> Initiates(w, mem, amount, reason, initiator))
  {
    hide ApplyInitiateRefund, SumActive;
    if FitsInt64(SumActive(w.refunds, mem.id) + amount) {
      InitiationCommitsIff(w, mem, amount, reason, initiator);
    }
  }

  /** A save writes over the reference stored just before it under the same version. */
  lemma ReferenceIsOverwritten(w: World, id: nat, ref: string, version: nat)
    ensures id in w.txns && w.txns[id].version == version ==>
      forall mem: TxnRow :: mem.id == id && mem.version == version ==>
        SaveTxn(w.(txns := w.txns[id := w.txns[id].(gatewayRef := ref)]), mem) == SaveTxn(w, mem)
    ensures !(id in w.txns && w.txns[id].version == version) ==>
      forall mem: TxnRow :: mem.id == id && mem.version == version ==> SaveTxn(w, mem) == None
  {
    if id in w.txns && w.txns[id].version == version {
      var w1 := w.(txns := w.txns[id := w.txns[id].(gatewayRef := ref)]);
      forall mem: TxnRow | mem.id == id && mem.version == version ensures SaveTxn(w1, mem) == SaveTxn(w, mem) {
        var row := w.txns[id].(
          status := mem.status, version := mem.version + 1, gatewayRef := mem.gatewayRef,
          lease := mem.lease, gatewayAmount := mem.gatewayAmount);
        assert w1.txns[id := row] == w.txns[id := row];
      }
    }
  }

  /** An uninterrupted drive keeps the invariant, touches one refund, and counts one attempt
      exactly when the copy it started from was current. */
  lemma DriveKeeps(w: World, id: nat, read: RefundRow, parent: TxnRow, reply: RefundReply, driver: Driver)
    requires Inv(w) && Enabled(w, ClaimRefund(id, read, parent, driver))
    ensures var w' := Drive(w, id, read, parent, reply);
      && Inv(w') && id < |w.refunds| == |w'.refunds|
      && (forall i :: 0 <= i < |w.refunds| && i != id ==> w'.refunds[i] == w.refunds[i])
      && w'.refunds[id].attempts == w.refunds[id].attempts + (if w.refunds[id] == read then 1 else 0)
      && (w.refunds[id] == read ==> w'.refunds[id].status != Initiated)
  {
    hide TxnsOk, ClaimsOk, EventsOk, ParentsAgree, RefundsMove, TxnsMove, ApplyFinish;
    assert RemembersRefund(w.refunds, id, read);
    var w1 := ApplyClaim(w, id, read, parent);
    StepKeeps(w, ClaimRefund(id, read, parent, driver), w1);
    if w.refunds[id] == read {
      assert |w1.claims| == |w.claims| + 1;
    }
    if w1 != w {
      var k := |w1.claims| - 1;
      var w2 := ApplyAnswer(w1, k, reply);
      StepKeeps(w1, GatewayAnswers(k, reply), w2);
      DriveEnd(w2, k);
    }
  }

  lemma DriveEnd(w: World, k: nat)
    requires Inv(w) && k < |w.claims| && w.claims[k].reply.Some?
    requires w.claims[k].refund < |w.refunds| && w.refunds[w.claims[k].refund].status == InProcess
    ensures var w' := Apply(w, FinishRefund(k)); var id := w.claims[k].refund;
      && Inv(w') && |w.refunds| == |w'.refunds|
      && (forall i :: 0 <= i < |w.refunds| && i != id ==> w'.refunds[i] == w.refunds[i])
      && w'.refunds[id].attempts == w.refunds[id].attempts
      && w'.refunds[id].status != Initiated
  {
    var w' := Apply(w, FinishRefund(k));
    FinishTouchesOne(w, k);
    hide Inv, Apply, Enabled;
    assert Step(w, FinishRefund(k), w') by { StepIs(w, k); }
    StepKeeps(w, FinishRefund(k), w');
    AttemptsOnlyByClaims(w, FinishRefund(k), w');
    assert RefundMoves(w.refunds[w.claims[k].refund], w'.refunds[w.claims[k].refund]);
  }

  lemma StepIs(w: World, k: nat)
    requires k < |w.claims| && w.claims[k].reply.Some?
    ensures Step(w, FinishRefund(k), Apply(w, FinishRefund(k)))
  {
  }

  lemma FinishTouchesOne(w: World, k: nat)
    requires k < |w.claims| && w.claims[k].reply.Some?
    ensures var w' := Apply(w, FinishRefund(k));
            |w'.refunds| == |w.refunds|
            && forall i :: 0 <= i < |w.refunds| && i != w.claims[k].refund ==> w'.refunds[i] == w.refunds[i]
  {
  }
}
