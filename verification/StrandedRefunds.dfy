/** A gateway callback, or a lost dispute, can set a parent to REFUNDED while one of its refunds
    is still open. What becomes of that refund. */
module StrandedRefunds {
  import opened Basics
  import opened TransactionDomain
  import opened RefundDomain
  import opened Ledger
  import opened LedgerInvariant
  import opened LedgerSteps
  import opened LedgerRuns
  import opened ReaperRuns
  import opened RefundAsks

  /** Any number of steps from any state. */
  ghost predicate IsPath(ws: seq<World>, acts: seq<Action>) {
    |ws| == |acts| + 1 && forall i :: 0 <= i < |acts| ==> Step(ws[i], acts[i], ws[i + 1])
  }

  function RefundedSum(w: World, t: nat): int { Tally(w.refunds, t, DoneAmount) }

  /** The refund is open under a parent that is already REFUNDED. */
  ghost predicate Stranded(w: World, r: nat) {
    r < |w.refunds| && IsOpen(w.refunds[r].status)
    && w.refunds[r].txn in w.txns && w.txns[w.refunds[r].txn].status == Refunded
  }

  // ------------------------------------------------------------ one step

  lemma OthersKeepRefundedSum(w: World, a: Action, t: nat)
    requires Enabled(w, a) && !a.FinishRefund?
    ensures RefundedSum(Apply(w, a), t) == RefundedSum(w, t)
    ensures |w.refunds| <= |Apply(w, a).refunds|
    ensures var w' := Apply(w, a);
      forall r :: 0 <= r < |w.refunds| && IsOpen(w.refunds[r].status) ==> IsOpen(w'.refunds[r].status)
  {
    hide ApplyInitiateRefund, ApplyClaim, Tally;
    if a.InitiateRefund? {
      InitiationIsOpen(w, a.mem, a.amount, a.reason, a.initiator);
      var w' := Apply(w, a);
      if w'.refunds != w.refunds {
        var rf := w'.refunds[|w.refunds|];
        assert w'.refunds == w.refunds + [rf];
        TallyAppend(w.refunds, rf, t, DoneAmount);
      }
    } else if a.ClaimRefund? {
      ClaimKeepsSum(w, a.id, a.rf, a.parent, t);
    }
  }

  lemma ClaimKeepsSum(w: World, id: nat, rf: RefundRow, parent: TxnRow, t: nat)
    ensures var w' := ApplyClaim(w, id, rf, parent);
      && RefundedSum(w', t) == RefundedSum(w, t) && |w'.refunds| == |w.refunds|
      && forall r :: 0 <= r < |w.refunds| && IsOpen(w.refunds[r].status) ==> IsOpen(w'.refunds[r].status)
  {
    hide Tally;
    var w' := ApplyClaim(w, id, rf, parent);
    if w' != w {
      TallyUpdate(w.refunds, id, w'.refunds[id], t, DoneAmount);
    }
  }

  /** A finish under a REFUNDED parent never completes a refund, and rejects one only if
      another is done. */
  lemma FinishKeepsRefundedSum(w: World, k: nat, t: nat)
    requires Inv(w) && k < |w.claims| && w.claims[k].reply.Some? && t in w.txns && w.txns[t].status == Refunded
    ensures var w' := Apply(w, FinishRefund(k));
      && RefundedSum(w', t) == RefundedSum(w, t) && |w'.refunds| == |w.refunds|
      && forall r :: (0 <= r < |w.refunds| && w.refunds[r].txn == t && IsOpen(w.refunds[r].status)) ==>
           w'.refunds[r].status != Done && (w'.refunds[r].status == Rejected ==> RefundedSum(w, t) > 0)
  {
    hide RefundsOk, ClaimsOk, EventsOk, ParentsAgree, TxnsOk, Tally, ApplyFinish;
    var c := w.claims[k];
    ClaimIsOk(w, k);
    match ResolveRefundOutcome(c.reply.value)
    case InFlight =>
      InFlightLeaves(w, c);
      InFlightKeepsSum(w, c, t);
    case Terminal(to) => TerminalKeepsSum(w, c, to, t);
  }

  lemma InFlightKeepsSum(w: World, c: Claim, t: nat)
    requires Inv(w) && ClaimOk(w, c)
    ensures var w' := ApplyFinish(w, c, InFlight);
      && RefundedSum(w', t) == RefundedSum(w, t) && |w'.refunds| == |w.refunds|
      && forall r :: 0 <= r < |w.refunds| && IsOpen(w.refunds[r].status) ==> IsOpen(w'.refunds[r].status)
  {
    hide RefundsOk, ClaimsOk, EventsOk, ParentsAgree, TxnsOk, Tally;
    var w' := ApplyFinish(w, c, InFlight);
    if w' != w {
      SaveRefundKeeps(w, c, c.rf, w');
      TallyUpdate(w.refunds, c.refund, w'.refunds[c.refund], t, DoneAmount);
    }
  }

  lemma TerminalKeepsSum(w: World, c: Claim, to: RefundStatus, t: nat)
    requires Inv(w) && ClaimOk(w, c) && to in {Done, Rejected} && t in w.txns && w.txns[t].status == Refunded
    ensures var w' := ApplyFinish(w, c, Terminal(to));
      && RefundedSum(w', t) == RefundedSum(w, t) && |w'.refunds| == |w.refunds|
      && forall r :: (0 <= r < |w.refunds| && w.refunds[r].txn == t && IsOpen(w.refunds[r].status)) ==>
           w'.refunds[r].status != Done && (w'.refunds[r].status == Rejected ==> RefundedSum(w, t) > 0)
  {
    hide RefundsOk, ClaimsOk, EventsOk, ParentsAgree, TxnsOk, Tally, ApplyFinish, ParentAfter;
    var w' := ApplyFinish(w, c, Terminal(to));
    if w' != w {
      TerminalLeaves(w, c, to);
      var w1, row, parent := FinishTerminalCommit(w, c, to);
      assert w'.refunds == w.refunds[c.refund := row];
      TallyUpdate(w.refunds, c.refund, row, t, DoneAmount);
      if c.rf.txn == t {
        RefundedParentDecides(w, c, row, w1.refunds, to);
      }
    }
  }

  /** Only a rejection beside another, done refund leaves a REFUNDED parent as it is. */
  lemma RefundedParentDecides(w: World, c: Claim, row: RefundRow, rs': seq<RefundRow>, to: RefundStatus)
    requires Inv(w) && c.refund < |w.refunds| && c.rf == w.refunds[c.refund] && c.rf.status == InProcess
    requires row == c.rf.(status := to, resolved := true, version := c.rf.version + 1) && to in {Done, Rejected}
    requires rs' == w.refunds[c.refund := row] && c.parent.id == c.rf.txn && c.parent.status == Refunded
    ensures ParentAfter(rs', c.parent, to).Ok? <==> to == Rejected && RefundedSum(w, c.rf.txn) > 0
    ensures ParentAfter(rs', c.parent, to).Ok? ==> ParentAfter(rs', c.parent, to).value == c.parent
  {
    hide Inv, Tally;
    ResolvedTallies(w, c.refund, row, rs');
  }

  lemma StepKeepsRefundedSum(w: World, a: Action, w': World, t: nat)
    requires Inv(w) && Step(w, a, w') && t in w.txns && w.txns[t].status == Refunded
    ensures RefundedSum(w', t) == RefundedSum(w, t) && |w.refunds| <= |w'.refunds|
    ensures t in w'.txns && w'.txns[t].status == Refunded
    ensures forall r :: (0 <= r < |w.refunds| && w.refunds[r].txn == t && IsOpen(w.refunds[r].status)) ==>
      w'.refunds[r].status != Done && (w'.refunds[r].status == Rejected ==> RefundedSum(w, t) > 0)
  {
    hide Inv, Kept, RefundedSum, Apply, TxnsMove, RefundsMove;
    StaysRefunded(w, a, w', t);
    if a.FinishRefund? {
      FinishKeepsRefundedSum(w, a.claim, t);
    } else {
      OthersKeepRefundedSum(w, a, t);
    }
  }

  lemma StaysRefunded(w: World, a: Action, w': World, t: nat)
    requires Inv(w) && Step(w, a, w') && t in w.txns && w.txns[t].status == Refunded
    ensures t in w'.txns && w'.txns[t].status == Refunded
  {
    hide Inv, Step, RefundsMove;
    StepKeeps(w, a, w');
    assert RowMoves(w.txns[t], w'.txns[t]);
  }

  // ------------------------------------------------------------ all continuations

  lemma {:induction false} PathKeeps(ws: seq<World>, acts: seq<Action>, n: nat)
    requires IsPath(ws, acts) && Inv(ws[0]) && n < |ws|
    ensures Inv(ws[n])
  {
    hide Inv, Step;
    if n > 0 {
      PathKeeps(ws, acts, n - 1);
      StepKeeps(ws[n - 1], acts[n - 1], ws[n]);
    }
  }

  /** However the run goes on: the parent stays REFUNDED, the refunded sum never changes again,
      the stranded refund is never done, and it stays open unless another refund was done. */
  lemma {:induction false} StrandedNeverDone(ws: seq<World>, acts: seq<Action>, n: nat, r: nat)
    requires IsPath(ws, acts) && Inv(ws[0]) && n < |ws| && Stranded(ws[0], r)
    ensures var t := ws[0].refunds[r].txn;
      && r < |ws[n].refunds| && ws[n].refunds[r].txn == t && t in ws[n].txns && ws[n].txns[t].status == Refunded
      && RefundedSum(ws[n], t) == RefundedSum(ws[0], t)
      && ws[n].refunds[r].status != Done
      && (ws[n].refunds[r].status == Rejected ==> RefundedSum(ws[0], t) > 0)
  {
    hide Inv, Step, RefundedSum, TxnsMove;
    if n > 0 {
      var t := ws[0].refunds[r].txn;
      StrandedNeverDone(ws, acts, n - 1, r);
      PathKeeps(ws, acts, n - 1);
      StepKeepsRefundedSum(ws[n - 1], acts[n - 1], ws[n], t);
      StepKeeps(ws[n - 1], acts[n - 1], ws[n]);
      assert RefundMoves(ws[n - 1].refunds[r], ws[n].refunds[r]);
    }
  }

  // ------------------------------------------------------------ when it can still be resolved

  function Rejecting(w: World, r: nat): seq<Action>
    requires Stranded(w, r)
  {
    var row := w.refunds[r];
    [ClaimRefund(r, row, w.txns[row.txn], if row.status == Initiated then Relay else Reaper),
     GatewayAnswers(|w.claims|, ReplyStatus(GwFailed)),
     FinishRefund(|w.claims|)]
  }

  /** With another refund done, a claim that the gateway answers with a failure rejects it. */
  lemma RejectionCommits(w: World, r: nat) returns (w1: World, w2: World, w3: World)
    requires Inv(w) && Stranded(w, r) && RefundedSum(w, w.refunds[r].txn) > 0
    ensures Step(w, Rejecting(w, r)[0], w1) && Step(w1, Rejecting(w, r)[1], w2) && Step(w2, Rejecting(w, r)[2], w3)
    ensures r < |w3.refunds| && w3.refunds[r].status == Rejected
  {
    hide Inv, Apply, Enabled, RefundedSum;
    var k := |w.claims|;
    w1 := ClaimTaken(w, r);
    w2 := AnswerTaken(w1, k, ReplyStatus(GwFailed));
    w3 := Apply(w2, FinishRefund(k));
    FailureRejects(w2, k);
    FinishIsStep(w2, k);
  }

  lemma ClaimTaken(w: World, r: nat) returns (w': World)
    requires Inv(w) && Stranded(w, r)
    ensures Step(w, Rejecting(w, r)[0], w') && Inv(w') && Stranded(w', r)
    ensures RefundedSum(w', w.refunds[r].txn) == RefundedSum(w, w.refunds[r].txn) && w'.refunds[r].txn == w.refunds[r].txn
    ensures |w'.claims| == |w.claims| + 1
    ensures w'.claims[|w.claims|] == Claim(r, w'.refunds[r], w.txns[w.refunds[r].txn], None)
    ensures w'.refunds[r].status == InProcess && w'.txns == w.txns
  {
    hide Inv, RefundedSum, Enabled, Kept;
    var row := w.refunds[r];
    ClaimEnabled(w, r);
    w' := ApplyClaim(w, r, row, w.txns[row.txn]);
    ClaimKeepsSum(w, r, row, w.txns[row.txn], row.txn);
    StepGivesInv(w, Rejecting(w, r)[0], w');
  }

  lemma AnswerTaken(w: World, k: nat, reply: RefundReply) returns (w': World)
    requires Inv(w) && k < |w.claims| && w.claims[k].reply == None
    ensures Step(w, GatewayAnswers(k, reply), w') && Inv(w')
    ensures w' == w.(claims := w.claims[k := w.claims[k].(reply := Some(reply))])
    ensures forall t :: RefundedSum(w', t) == RefundedSum(w, t)
  {
    hide Inv;
    w' := ApplyAnswer(w, k, reply);
    StepGivesInv(w, GatewayAnswers(k, reply), w');
  }

  lemma StepGivesInv(w: World, a: Action, w': World)
    requires Inv(w) && Step(w, a, w')
    ensures Inv(w')
  {
    hide Inv, Step;
    StepKeeps(w, a, w');
  }

  lemma FinishIsStep(w: World, k: nat)
    requires k < |w.claims| && w.claims[k].reply.Some?
    ensures Step(w, FinishRefund(k), Apply(w, FinishRefund(k)))
  {
  }

  lemma ClaimEnabled(w: World, r: nat)
    requires Inv(w) && Stranded(w, r)
    ensures Enabled(w, Rejecting(w, r)[0])
  {
    assert RowOk(w.refunds[r].txn, w.txns[w.refunds[r].txn]);
  }

  lemma ParentIdIs(w: World, t: nat)
    requires Inv(w) && t in w.txns
    ensures w.txns[t].id == t
  {
    assert RowOk(t, w.txns[t]);
  }

  lemma FailureRejects(w: World, k: nat)
    requires Inv(w) && k < |w.claims| && w.claims[k].reply == Some(ReplyStatus(GwFailed))
    requires var c := w.claims[k];
      && c.refund < |w.refunds| && c.rf == w.refunds[c.refund] && c.rf.status == InProcess
      && c.rf.txn in w.txns && c.parent == w.txns[c.rf.txn]
      && c.parent.status == Refunded && RefundedSum(w, c.rf.txn) > 0
    ensures var w' := Apply(w, FinishRefund(k));
      w.claims[k].refund < |w'.refunds| && w'.refunds[w.claims[k].refund].status == Rejected
  {
    hide Inv, Tally, ParentAfter, RefundedSum, SumActive;
    var c := w.claims[k];
    ParentIdIs(w, c.rf.txn);
    var rf := RefundTransitioned(c.rf, Rejected).value;
    var w1 := SaveRefund(w, c.refund, rf).value;
    RefundedParentDecides(w, c, w1.refunds[c.refund], w1.refunds, Rejected);
  }

  /** A stranded refund is resolved in some continuation if and only if another refund of its
      parent was done before; otherwise it stays open in every one. */
  lemma ResolvableIff(w: World, r: nat)
    requires Inv(w) && Stranded(w, r)
    ensures (exists ws: seq<World>, acts: seq<Action> ::
               IsPath(ws, acts) && ws[0] == w && r < |ws[|acts|].refunds| && !IsOpen(ws[|acts|].refunds[r].status))
            <==> RefundedSum(w, w.refunds[r].txn) > 0
  {
    hide Inv, Step, RefundedSum;
    forall ws: seq<World>, acts: seq<Action>
      | IsPath(ws, acts) && ws[0] == w && r < |ws[|acts|].refunds| && !IsOpen(ws[|acts|].refunds[r].status)
      ensures RefundedSum(w, w.refunds[r].txn) > 0
    {
      StrandedNeverDone(ws, acts, |acts|, r);
    }
    if RefundedSum(w, w.refunds[r].txn) > 0 {
      var w1, w2, w3 := RejectionCommits(w, r);
      var ws, acts := [w, w1, w2, w3], Rejecting(w, r);
      hide Rejecting;
      assert |acts| == 3;
      forall i | 0 <= i < 3 ensures Step(ws[i], acts[i], ws[i + 1]) {
        assert i == 0 || i == 1 || i == 2;
      }
      assert IsPath(ws, acts) && ws[|acts|] == w3;
    }
  }

  // ------------------------------------------------------------ it happens

  const REFUNDED_ROW := PENDING_ROW.(status := Refunded, version := 4)

  const STRANDED_WORLD := WORLD_3.(txns := map[0 := REFUNDED_ROW], seenTxns := WORLD_3.seenTxns + {REFUNDED_ROW},
                                   outbox := WORLD_3.outbox + [StatusEvent(0, 4, Refunded)])

  lemma CallbackStep()
    ensures Step(WORLD_3, Webhook(REFUNDING_ROW, Refunded), STRANDED_WORLD)
  {
    assert WORLD_3.txns[0 := REFUNDED_ROW] == map[0 := REFUNDED_ROW];
  }

  /** A run that ends with the only refund of a payment stranded for good. */
  lemma CallbackStrandsRefund()
    ensures exists ws: seq<World>, acts: seq<Action> ::
      IsRun(ws, acts) && Stranded(ws[|acts|], 0) && RefundedSum(ws[|acts|], 0) == 0
  {
    var acts := [Create(0, 10, false), Webhook(PENDING_ROW, Captured), InitiateRefund(CAPTURED_ROW, 10, "r", "u"),
                 Webhook(REFUNDING_ROW, Refunded)];
    var ws := [EMPTY_WORLD, WORLD_1, WORLD_2, WORLD_3, STRANDED_WORLD];
    CreateStep();
    CaptureStep();
    InitiateStep();
    CallbackStep();
    assert STRANDED_WORLD.refunds == [NEW_REFUND] && [NEW_REFUND][..0] == [];
    assert RefundedSum(STRANDED_WORLD, 0) == 0 && Stranded(STRANDED_WORLD, 0);
    hide Step, Stranded, RefundedSum;
    forall i | 0 <= i < |acts| ensures Step(ws[i], acts[i], ws[i + 1]) {
      assert i == 0 || i == 1 || i == 2 || i == 3;
    }
    assert |ws| == |acts| + 1 && ws[0] == EMPTY_WORLD;
    assert IsRun(ws, acts) && ws[|acts|] == STRANDED_WORLD;
  }
}
