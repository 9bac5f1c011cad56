/** The refund reaper: it lists stale refunds below the attempt limit and re-drives
    them one by one, while every other actor keeps running. */
module ReaperRuns {
  import opened Basics
  import opened TransactionDomain
  import opened RefundDomain
  import opened Ledger
  import opened LedgerInvariant
  import opened LedgerSteps
  import opened LedgerRuns

  /** The ledger and the ids the one reaper still has to visit. */
  datatype ReaperWorld = ReaperWorld(w: World, queue: seq<nat>)

  datatype ReaperAction =
    | Other(a: Action)
    | ListStale(ids: seq<nat>)
    | RetryNext(rf: RefundRow, parent: TxnRow)

  ghost predicate Distinct(ids: seq<nat>) {
    forall i, j :: 0 <= i < j < |ids| ==> ids[i] != ids[j]
  }

  /** ListStaleRefunds: open refunds with fewer than max attempts, each once. */
  ghost predicate Stale(w: World, ids: seq<nat>, max: nat) {
    Distinct(ids)
    && forall i :: 0 <= i < |ids| ==>
         ids[i] < |w.refunds| && IsOpen(w.refunds[ids[i]].status) && w.refunds[ids[i]].attempts < max
  }

  ghost predicate ReaperStep(max: nat, s: ReaperWorld, a: ReaperAction, s': ReaperWorld) {
    match a
    case Other(b) =>
      !(b.ClaimRefund? && b.driver == Reaper) && Step(s.w, b, s'.w) && s'.queue == s.queue
    case ListStale(ids) =>
      Stale(s.w, ids, max) && s' == s.(queue := ids)   // what was left of an earlier list is abandoned
    case RetryNext(rf, parent) =>
      && s.queue != [] && s'.queue == s.queue[1..]
      && (s.queue[0], rf) in s.w.seenRefunds
      && if rf.status == InProcess
         then Step(s.w, ClaimRefund(s.queue[0], rf, parent, Reaper), s'.w)
         else s'.w == s.w
  }

  ghost predicate IsReaperRun(max: nat, ss: seq<ReaperWorld>, acts: seq<ReaperAction>) {
    |ss| == |acts| + 1 && ss[0] == ReaperWorld(EMPTY_WORLD, [])
    && forall i :: 0 <= i < |acts| ==> ReaperStep(max, ss[i], acts[i], ss[i + 1])
  }

  ghost predicate AttemptsWithin(w: World, max: nat) {
    forall i :: 0 <= i < |w.refunds| ==> w.refunds[i].attempts <= max
  }

  ghost predicate ReaperInv(max: nat, s: ReaperWorld) {
    Inv(s.w) && AttemptsWithin(s.w, max) && Distinct(s.queue)
    && forall i :: 0 <= i < |s.queue| ==> s.queue[i] < |s.w.refunds| && s.w.refunds[s.queue[i]].attempts < max
  }

  /** Only a claim counts an attempt, and the relay only ever counts the first. */
  lemma AttemptsOnlyByClaims(w: World, a: Action, w': World)
    requires Inv(w) && Step(w, a, w')
    ensures |w.refunds| <= |w'.refunds|
    ensures forall i :: |w.refunds| <= i < |w'.refunds| ==> w'.refunds[i].attempts == 0
    ensures forall i :: 0 <= i < |w.refunds| ==>
              w'.refunds[i].attempts == w.refunds[i].attempts
              || (a.ClaimRefund? && a.id == i && w'.refunds[i].attempts == w.refunds[i].attempts + 1
                  && (a.driver == Relay ==> w.refunds[i].attempts == 0))
  {
    hide Inv, ApplyFinish, ApplyClaim, ApplyInitiateRefund;
    if a.FinishRefund? {
      ClaimIsOk(w, a.claim);
      FinishCountsNone(w, w.claims[a.claim], ResolveRefundOutcome(w.claims[a.claim].reply.value));
    } else if a.ClaimRefund? {
      ClaimedAttempts(w, a.id, a.rf, a.parent, a.driver);
    } else if a.InitiateRefund? {
      InitiateCountsNone(w, a.mem, a.amount, a.reason, a.initiator);
    }
  }

  lemma FinishCountsNone(w: World, c: Claim, outcome: RefundOutcome)
    requires ClaimOk(w, c)
    ensures var rs' := ApplyFinish(w, c, outcome).refunds;
      |rs'| == |w.refunds| && forall i :: 0 <= i < |rs'| ==> rs'[i].attempts == w.refunds[i].attempts
  {
    hide ParentAfter;
  }

  lemma ClaimCountsOne(w: World, id: nat, rf: RefundRow, parent: TxnRow)
    requires RemembersRefund(w.refunds, id, rf)
    ensures var rs' := ApplyClaim(w, id, rf, parent).refunds;
      |rs'| == |w.refunds|
      && (forall i :: 0 <= i < |rs'| && i != id ==> rs'[i] == w.refunds[i])
      && (rs'[id] == w.refunds[id] || (rf == w.refunds[id] && rs'[id].attempts == rf.attempts + 1))
  {
  }

  lemma ClaimedAttempts(w: World, id: nat, rf: RefundRow, parent: TxnRow, driver: Driver)
    requires Inv(w) && Enabled(w, ClaimRefund(id, rf, parent, driver))
    ensures var rs' := ApplyClaim(w, id, rf, parent).refunds;
      |rs'| == |w.refunds|
      && forall i :: 0 <= i < |rs'| ==>
           rs'[i].attempts == w.refunds[i].attempts
           || (i == id && rs'[i].attempts == w.refunds[i].attempts + 1 && (driver == Relay ==> w.refunds[i].attempts == 0))
  {
    hide TxnsOk, ClaimsOk, EventsOk, ParentsAgree, ApplyClaim;
    assert RemembersRefund(w.refunds, id, rf);
    ClaimCountsOne(w, id, rf, parent);
  }

  lemma InitiateCountsNone(w: World, mem: TxnRow, amount: int, reason: string, initiator: string)
    ensures var rs' := ApplyInitiateRefund(w, mem, amount, reason, initiator).refunds;
      rs' == w.refunds
      || (|rs'| == |w.refunds| + 1 && rs'[..|w.refunds|] == w.refunds && rs'[|w.refunds|].attempts == 0)
  {
    hide SumActive;
  }

  lemma ReaperStepKeeps(max: nat, s: ReaperWorld, a: ReaperAction, s': ReaperWorld)
    requires max >= 2 && ReaperInv(max, s) && ReaperStep(max, s, a, s')
    ensures ReaperInv(max, s')
  {
    hide Inv, Apply, Enabled;
    match a
    case Other(b) =>
      AttemptsOnlyByClaims(s.w, b, s'.w);
      StepKeeps(s.w, b, s'.w);
    case ListStale(ids) =>
    case RetryNext(rf, parent) =>
      if rf.status == InProcess {
        var b := ClaimRefund(s.queue[0], rf, parent, Reaper);
        AttemptsOnlyByClaims(s.w, b, s'.w);
        StepKeeps(s.w, b, s'.w);
      }
  }

  lemma {:induction false} AttemptsBounded(max: nat, ss: seq<ReaperWorld>, acts: seq<ReaperAction>, n: nat)
    requires max >= 2 && IsReaperRun(max, ss, acts) && n < |ss|
    ensures ReaperInv(max, ss[n])
  {
    if n == 0 {
      EmptyInv();
    } else {
      AttemptsBounded(max, ss, acts, n - 1);
      ReaperStepKeeps(max, ss[n - 1], acts[n - 1], ss[n]);
    }
  }

  // ------------------------------------------------------------ a limit of one attempt is not kept

  const PENDING_ROW := TxnRow(0, 10, false, Pending, 1, "", false, None, None)
  const CAPTURED_ROW := PENDING_ROW.(status := Captured, version := 2)
  const REFUNDING_ROW := PENDING_ROW.(status := RefundPending, version := 3)
  const NEW_REFUND := RefundRow(0, 10, "r", "u", Initiated, 0, 1, false)
  const DRIVEN_REFUND := NEW_REFUND.(status := InProcess, attempts := 1, version := 2)
  const REDRIVEN_REFUND := DRIVEN_REFUND.(attempts := 2, version := 3)

  const WORLD_1 := World(map[0 := PENDING_ROW], {PENDING_ROW}, [], {}, [], [StatusEvent(0, 1, Pending)])
  const WORLD_2 := World(map[0 := CAPTURED_ROW], {PENDING_ROW, CAPTURED_ROW}, [], {}, [], WORLD_1.outbox + [StatusEvent(0, 2, Captured)])
  const WORLD_3 := World(map[0 := REFUNDING_ROW], {PENDING_ROW, CAPTURED_ROW, REFUNDING_ROW}, [NEW_REFUND], {(0, NEW_REFUND)}, [],
                    WORLD_2.outbox + [RefundEvent(0, RefundInitiated, 1)])
  const WORLD_4 := WORLD_3.(refunds := [DRIVEN_REFUND], seenRefunds := {(0, NEW_REFUND), (0, DRIVEN_REFUND)}, claims := [Claim(0, DRIVEN_REFUND, REFUNDING_ROW, None)])
  const WORLD_5 := WORLD_4.(refunds := [REDRIVEN_REFUND], seenRefunds := WORLD_4.seenRefunds + {(0, REDRIVEN_REFUND)},
                  claims := WORLD_4.claims + [Claim(0, REDRIVEN_REFUND, REFUNDING_ROW, None)])

  /** The refund is listed before its first attempt, the relay makes that attempt, and the
      reaper then visits it: two attempts under a limit of one. */
  lemma OneAttemptIsExceeded()
    ensures exists ss: seq<ReaperWorld>, acts: seq<ReaperAction> :: IsReaperRun(1, ss, acts) && !AttemptsWithin(ss[|acts|].w, 1)
  {
    var acts := [
      Other(Create(0, 10, false)),
      Other(Webhook(PENDING_ROW, Captured)),
      Other(InitiateRefund(CAPTURED_ROW, 10, "r", "u")),
      ListStale([0]),
      Other(ClaimRefund(0, NEW_REFUND, REFUNDING_ROW, Relay)),
      RetryNext(DRIVEN_REFUND, REFUNDING_ROW)];
    var ss := [ReaperWorld(EMPTY_WORLD, []), ReaperWorld(WORLD_1, []), ReaperWorld(WORLD_2, []), ReaperWorld(WORLD_3, []),
               ReaperWorld(WORLD_3, [0]), ReaperWorld(WORLD_4, [0]), ReaperWorld(WORLD_5, [])];
    CreateStep();
    CaptureStep();
    InitiateStep();
    ClaimSteps();
    assert ReaperStep(1, ss[0], acts[0], ss[1]);
    assert ReaperStep(1, ss[1], acts[1], ss[2]);
    assert ReaperStep(1, ss[2], acts[2], ss[3]);
    assert ReaperStep(1, ss[3], acts[3], ss[4]);
    assert ReaperStep(1, ss[4], acts[4], ss[5]);
    assert ReaperStep(1, ss[5], acts[5], ss[6]);
    assert IsReaperRun(1, ss, acts);
    assert WORLD_5.refunds[0].attempts == 2;
  }

  lemma CreateStep()
    ensures Step(EMPTY_WORLD, Create(0, 10, false), WORLD_1)
  {
    assert EMPTY_WORLD.txns[0 := PENDING_ROW] == map[0 := PENDING_ROW];
  }

  lemma CaptureStep()
    ensures Step(WORLD_1, Webhook(PENDING_ROW, Captured), WORLD_2)
  {
    assert WORLD_1.txns[0 := CAPTURED_ROW] == map[0 := CAPTURED_ROW];
  }

  lemma InitiateStep()
    ensures Step(WORLD_2, InitiateRefund(CAPTURED_ROW, 10, "r", "u"), WORLD_3)
  {
    PendingSaved();
    NothingActiveYet();
    hide SumActive, Transitioned, SaveTxn, NewRefund, Step;
    var w1 := WORLD_2.(txns := WORLD_3.txns, seenTxns := WORLD_3.seenTxns);
    assert w1.refunds + [NEW_REFUND] == [NEW_REFUND] && w1.seenRefunds + {(0, NEW_REFUND)} == WORLD_3.seenRefunds;
    InitiateIsStep(WORLD_2, CAPTURED_ROW, CAPTURED_ROW.(status := RefundPending), w1, 10, "r", "u", NEW_REFUND);
  }

  lemma NothingActiveYet()
    ensures SumActive([], 0) == 0 && NewRefund(0, 10, 10, 0, "r", "u") == Ok(NEW_REFUND)
  {
  }

  lemma PendingSaved()
    ensures Transitioned(CAPTURED_ROW, RefundPending) == Ok(CAPTURED_ROW.(status := RefundPending))
    ensures SaveTxn(WORLD_2, CAPTURED_ROW.(status := RefundPending)) == Some(WORLD_2.(txns := WORLD_3.txns, seenTxns := WORLD_3.seenTxns))
  {
    assert WORLD_2.txns[0 := REFUNDING_ROW] == map[0 := REFUNDING_ROW];
    assert WORLD_2.seenTxns + {REFUNDING_ROW, CAPTURED_ROW.(status := RefundPending, version := 3)} == WORLD_3.seenTxns;
  }

  lemma InitiateIsStep(w: World, mem: TxnRow, moved: TxnRow, w1: World, amount: int, reason: string, initiator: string, rf: RefundRow)
    requires mem in w.seenTxns && IsRefundable(mem.status) && FitsInt64(SumActive(w.refunds, mem.id) + amount)
    requires Transitioned(mem, RefundPending) == Ok(moved) && SaveTxn(w, moved) == Some(w1)
    requires NewRefund(mem.id, amount, mem.amount, SumActive(w1.refunds, mem.id), reason, initiator) == Ok(rf)
    ensures Step(w, InitiateRefund(mem, amount, reason, initiator),
                 w1.(refunds := w1.refunds + [rf], seenRefunds := w1.seenRefunds + {(|w1.refunds|, rf)},
                     outbox := w1.outbox + [RefundEvent(|w1.refunds|, RefundInitiated, rf.version)]))
  {
    hide SumActive, Transitioned, SaveTxn, NewRefund;
  }

  lemma ClaimSteps()
    ensures Step(WORLD_3, ClaimRefund(0, NEW_REFUND, REFUNDING_ROW, Relay), WORLD_4)
    ensures Step(WORLD_4, ClaimRefund(0, DRIVEN_REFUND, REFUNDING_ROW, Reaper), WORLD_5)
  {
  }

  /** With one sequential reaper, attempts stay within the limit in every run if and only
      if the limit is not one. */
  lemma AttemptLimitKeptIffAboveOne(max: nat)
    requires max >= 1
    ensures (forall ss: seq<ReaperWorld>, acts: seq<ReaperAction>, n :: IsReaperRun(max, ss, acts) && 0 <= n < |ss| ==> AttemptsWithin(ss[n].w, max))
            <==> max >= 2
  {
    if max >= 2 {
      forall ss: seq<ReaperWorld>, acts: seq<ReaperAction>, n | IsReaperRun(max, ss, acts) && 0 <= n < |ss| ensures AttemptsWithin(ss[n].w, max) {
        AttemptsBounded(max, ss, acts, n);
      }
    } else {
      OneAttemptIsExceeded();
      var ss: seq<ReaperWorld>, acts: seq<ReaperAction> :| IsReaperRun(1, ss, acts) && !AttemptsWithin(ss[|acts|].w, 1);
      assert !AttemptsWithin(ss[|acts|].w, max);
    }
  }
}
