/** What the gateway was asked to return: every claim carries the copies of refund and parent
    from which its call was made. */
module RefundAsks {
  import opened Basics
  import opened TransactionDomain
  import opened RefundDomain
  import opened Ledger
  import opened LedgerInvariant
  import opened LedgerSteps
  import opened LedgerRuns
  import opened Proration

  /** The amount of the call made under a claim. */
  function Asked(c: Claim): int
    requires c.parent.amount > 0
  {
    match c.parent.gatewayAmount
    case Some(g) => Share(g, c.rf.amount, c.parent.amount)
    case None => c.rf.amount
  }

  function LastClaim(cs: seq<Claim>, r: nat): Option<Claim> {
    if cs == [] then None
    else if cs[|cs| - 1].refund == r then Some(cs[|cs| - 1])
    else LastClaim(cs[..|cs| - 1], r)
  }

  /** The last claim of a refund got its completion, and asked on the strength of the refund's
      amount and of the parent's amount and charge as they are committed. */
  ghost predicate AskedRight(w: World, r: nat)
    requires r < |w.refunds|
  {
    var row, last := w.refunds[r], LastClaim(w.claims, r);
    && last.Some? && last.value.reply == Some(ReplyStatus(GwCompleted))
    && last.value.rf.amount == row.amount && row.txn in w.txns && last.value.parent.id == row.txn
    && last.value.parent.amount == w.txns[row.txn].amount > 0
    && last.value.parent.gatewayAmount == w.txns[row.txn].gatewayAmount
  }

  ghost predicate AsksOk(w: World) {
    forall r :: 0 <= r < |w.refunds| && w.refunds[r].status == Done ==> AskedRight(w, r)
  }

  // ------------------------------------------------------------ the last claim

  lemma LastClaimAppend(cs: seq<Claim>, c: Claim, r: nat)
    ensures LastClaim(cs + [c], r) == if c.refund == r then Some(c) else LastClaim(cs, r)
  {
    assert (cs + [c])[..|cs|] == cs;
  }

  lemma {:induction false} LastClaimAnswer(cs: seq<Claim>, k: nat, reply: RefundReply, r: nat)
    requires k < |cs| && cs[k].reply == None && LastClaim(cs, r).Some? && LastClaim(cs, r).value.reply.Some?
    ensures LastClaim(cs[k := cs[k].(reply := Some(reply))], r) == LastClaim(cs, r)
  {
    var n, cs' := |cs| - 1, cs[k := cs[k].(reply := Some(reply))];
    if cs[n].refund != r {
      if k == n {
        assert cs'[..n] == cs[..n];
      } else {
        assert cs'[..n] == cs[..n][k := cs[k].(reply := Some(reply))];
        LastClaimAnswer(cs[..n], k, reply, r);
      }
    }
  }

  lemma {:induction false} LastClaimIs(cs: seq<Claim>, k: nat)
    requires k < |cs| && forall l :: k < l < |cs| ==> cs[l].refund != cs[k].refund
    ensures LastClaim(cs, cs[k].refund) == Some(cs[k])
  {
    var n := |cs| - 1;
    if k < n {
      LastClaimIs(cs[..n], k);
    }
  }

  /** A claim that is still current is the last one of its refund. */
  lemma CurrentClaimIsLast(w: World, k: nat)
    requires Inv(w) && k < |w.claims| && w.claims[k].refund < |w.refunds|
    requires w.claims[k].rf.version == w.refunds[w.claims[k].refund].version
    ensures LastClaim(w.claims, w.claims[k].refund) == Some(w.claims[k])
  {
    hide TxnsOk, RefundsOk, EventsOk, ParentsAgree;
    forall l | k < l < |w.claims| ensures w.claims[l].refund != w.claims[k].refund {
      assert ClaimOk(w, w.claims[l]);
    }
    LastClaimIs(w.claims, k);
  }

  // ------------------------------------------------------------ steps

  /** The parent of a refund is past PENDING, where amount and charge no longer change. */
  lemma ChargeStays(w: World, w': World, r: nat)
    requires Inv(w) && TxnsMove(w, w') && Inv(w') && r < |w.refunds|
    ensures var t := w.refunds[r].txn;
      t in w.txns && t in w'.txns && w'.txns[t].amount == w.txns[t].amount > 0 && w'.txns[t].gatewayAmount == w.txns[t].gatewayAmount
  {
    hide ClaimsOk, EventsOk, Tally, RemembersTxn, RemembersRefund;
    var t := w.refunds[r].txn;
    assert RowOk(t, w.txns[t]) && Agrees(w.txns[t], w.refunds);
    TallyCounts(w.refunds, r);
    assert RowMoves(w.txns[t], w'.txns[t]);
  }

  /** Done refunds keep what they had, as long as their last claims stay. */
  lemma OldAskKeeps(w: World, w': World, r: nat)
    requires Inv(w) && Kept(w, w') && r < |w.refunds| && w.refunds[r].status == Done && AskedRight(w, r)
    requires LastClaim(w'.claims, r) == LastClaim(w.claims, r)
    ensures r < |w'.refunds| && AskedRight(w', r)
  {
    ChargeStays(w, w', r);
    hide Inv, TxnsMove, LastClaim;
    assert RefundMoves(w.refunds[r], w'.refunds[r]);
  }

  /** A step that completes no refund and leaves the claims of done refunds alone. */
  lemma FrameKeeps(w: World, w': World)
    requires Inv(w) && Kept(w, w') && AsksOk(w)
    requires forall r :: 0 <= r < |w'.refunds| && w'.refunds[r].status == Done ==>
               r < |w.refunds| && w.refunds[r].status == Done && LastClaim(w'.claims, r) == LastClaim(w.claims, r)
    ensures AsksOk(w')
  {
    hide Inv, Kept, LastClaim, AskedRight;
    forall r | 0 <= r < |w'.refunds| && w'.refunds[r].status == Done ensures AskedRight(w', r) {
      OldAskKeeps(w, w', r);
    }
  }

  /** Nothing but a finish completes a refund, and only claims and answers touch the claims. */
  lemma OnlyFinishCompletes(w: World, a: Action)
    requires Enabled(w, a) && !a.FinishRefund?
    ensures var w' := Apply(w, a);
      && (forall r :: 0 <= r < |w'.refunds| && w'.refunds[r].status == Done ==>
            r < |w.refunds| && w.refunds[r].status == Done && (a.ClaimRefund? && w' != w ==> r != a.id))
      && (!a.ClaimRefund? && !a.GatewayAnswers? ==> w'.claims == w.claims)
  {
    hide ApplyInitiateRefund, ApplyClaim, Transitioned;
    if a.InitiateRefund? {
      InitiationIsOpen(w, a.mem, a.amount, a.reason, a.initiator);
    } else if a.ClaimRefund? {
      ClaimIsOpen(w, a.id, a.rf, a.parent);
    }
  }

  lemma InitiationIsOpen(w: World, mem: TxnRow, amount: int, reason: string, initiator: string)
    ensures var w' := ApplyInitiateRefund(w, mem, amount, reason, initiator);
      w'.claims == w.claims
      && (w'.refunds == w.refunds
          || (|w'.refunds| == |w.refunds| + 1 && w'.refunds[..|w.refunds|] == w.refunds && IsOpen(w'.refunds[|w.refunds|].status)))
  {
    hide SumActive;
  }

  lemma ClaimIsOpen(w: World, id: nat, rf: RefundRow, parent: TxnRow)
    ensures var w' := ApplyClaim(w, id, rf, parent);
      w' == w
      || (&& id < |w.refunds| == |w'.refunds| && IsOpen(w.refunds[id].status) && IsOpen(w'.refunds[id].status)
          && (forall i :: 0 <= i < |w.refunds| && i != id ==> w'.refunds[i] == w.refunds[i])
          && |w'.claims| == |w.claims| + 1 && w'.claims == w.claims + [w'.claims[|w.claims|]] && w'.claims[|w.claims|].refund == id)
  {
  }

  lemma AskStepKeeps(w: World, a: Action, w': World)
    requires Inv(w) && AsksOk(w) && Step(w, a, w')
    ensures AsksOk(w')
  {
    hide Inv, Kept, AsksOk, ApplyClaim, ApplyFinish, ApplyInitiateRefund, Move, MoveQuietly, ApplyFinalize;
    StepKeeps(w, a, w');
    if a.FinishRefund? {
      FinishKeepsAsks(w, a.claim);
    } else {
      OnlyFinishCompletes(w, a);
      ClaimsAfter(w, a);
      hide Apply, Enabled;
      forall r | 0 <= r < |w'.refunds| && w'.refunds[r].status == Done
        ensures LastClaim(w'.claims, r) == LastClaim(w.claims, r)
      {
        if a.ClaimRefund? && w' != w {
          LastClaimAppend(w.claims, w'.claims[|w.claims|], r);
        } else if a.GatewayAnswers? {
          DoneIsAnswered(w, r);
          LastClaimAnswer(w.claims, a.claim, a.reply, r);
        }
      }
      FrameKeeps(w, w');
    }
  }

  lemma ClaimsAfter(w: World, a: Action)
    requires Enabled(w, a) && !a.FinishRefund?
    ensures var w' := Apply(w, a);
      && (a.ClaimRefund? && w' != w ==>
            |w'.claims| == |w.claims| + 1 && w'.claims == w.claims + [w'.claims[|w.claims|]] && w'.claims[|w.claims|].refund == a.id)
      && (a.GatewayAnswers? ==>
            && a.claim < |w.claims| && w.claims[a.claim].reply == None
            && w'.claims == w.claims[a.claim := w.claims[a.claim].(reply := Some(a.reply))] && w'.refunds == w.refunds)
  {
    hide ApplyClaim, ApplyInitiateRefund, Move, MoveQuietly, ApplyFinalize;
    if a.ClaimRefund? { ClaimIsOpen(w, a.id, a.rf, a.parent); }
  }

  lemma DoneIsAnswered(w: World, r: nat)
    requires AsksOk(w) && r < |w.refunds| && w.refunds[r].status == Done
    ensures LastClaim(w.claims, r).Some? && LastClaim(w.claims, r).value.reply.Some?
  {
    assert AskedRight(w, r);
  }

  /** What a finish leaves. */
  lemma FinishLeaves(w: World, k: nat)
    requires Inv(w) && k < |w.claims| && w.claims[k].reply.Some?
    ensures var c, w' := w.claims[k], Apply(w, FinishRefund(k));
      && w'.claims == w.claims
      && (w' == w
          || (&& c.refund < |w.refunds| == |w'.refunds| && c.rf == w.refunds[c.refund]
              && (forall i :: 0 <= i < |w.refunds| && i != c.refund ==> w'.refunds[i] == w.refunds[i])
              && (w'.refunds[c.refund].status == Done ==>
                    && c.reply == Some(ReplyStatus(GwCompleted))
                    && c.parent.id == c.rf.txn && c.rf.txn in w.txns
                    && c.parent == w.txns[c.rf.txn].(cancelIntent := c.parent.cancelIntent))))
  {
    hide RefundsOk, ClaimsOk, EventsOk, ParentsAgree, RefundsMove, TxnsMove, Tally, ParentAfter, ApplyFinish;
    var c := w.claims[k];
    ClaimIsOk(w, k);
    match ResolveRefundOutcome(c.reply.value)
    case InFlight => InFlightLeaves(w, c);
    case Terminal(to) => TerminalLeaves(w, c, to);
  }

  lemma InFlightLeaves(w: World, c: Claim)
    requires Inv(w) && ClaimOk(w, c)
    ensures var w' := ApplyFinish(w, c, InFlight);
      w' == w || (&& w'.claims == w.claims && c.refund < |w.refunds| && c.rf == w.refunds[c.refund]
                  && w'.refunds == w.refunds[c.refund := w'.refunds[c.refund]] && w'.refunds[c.refund].status != Done)
  {
    hide RefundsOk, ClaimsOk, EventsOk, ParentsAgree, TxnsOk, RefundsMove;
    if ApplyFinish(w, c, InFlight) != w {
      SaveRefundKeeps(w, c, c.rf, ApplyFinish(w, c, InFlight));
    }
  }

  lemma TerminalLeaves(w: World, c: Claim, to: RefundStatus)
    requires Inv(w) && ClaimOk(w, c) && to in {Done, Rejected}
    ensures var w' := ApplyFinish(w, c, Terminal(to));
      w' == w
      || (&& w'.claims == w.claims && c.refund < |w.refunds| && c.rf == w.refunds[c.refund]
          && |w'.refunds| == |w.refunds| && w'.refunds == w.refunds[c.refund := w'.refunds[c.refund]]
          && w'.refunds[c.refund].status == to
          && c.parent.id == c.rf.txn && c.rf.txn in w.txns
          && c.parent == w.txns[c.rf.txn].(cancelIntent := c.parent.cancelIntent))
  {
    hide RefundsOk, ClaimsOk, EventsOk, ParentsAgree, RefundsMove, Tally, ParentAfter, ApplyFinish;
    if ApplyFinish(w, c, Terminal(to)) != w {
      var w1, row, parent := FinishTerminalCommit(w, c, to);
      ParentAfterKeepsIdentity(w1.refunds, c.parent, to);
      assert RemembersTxn(w.txns, c.parent);
    }
  }

  lemma FinishKeepsAsks(w: World, k: nat)
    requires Inv(w) && AsksOk(w) && k < |w.claims| && w.claims[k].reply.Some?
    requires Kept(w, Apply(w, FinishRefund(k)))
    ensures AsksOk(Apply(w, FinishRefund(k)))
  {
    var c, w' := w.claims[k], Apply(w, FinishRefund(k));
    FinishLeaves(w, k);
    hide Apply, LastClaim, TxnsMove, RefundsMove, Inv;
    forall r | 0 <= r < |w'.refunds| && w'.refunds[r].status == Done ensures AskedRight(w', r) {
      if w' != w && r == c.refund {
        CurrentClaimIsLast(w, k);
        ChargeStays(w, w', r);
        SameAmount(w, w', r);
      } else {
        assert AskedRight(w, r);
        OldAskKeeps(w, w', r);
      }
    }
  }

  lemma SameAmount(w: World, w': World, r: nat)
    requires RefundsMove(w, w') && r < |w.refunds|
    ensures r < |w'.refunds| && w'.refunds[r].amount == w.refunds[r].amount && w'.refunds[r].txn == w.refunds[r].txn
  {
    assert RefundMoves(w.refunds[r], w'.refunds[r]);
  }

  // ------------------------------------------------------------ runs

  /** In every reachable state, the claim that completed a refund asked for exactly the share of
      the charge as it is committed, or the plain amount where there is no separate charge. */
  lemma {:induction false} CompletedAsks(ws: seq<World>, acts: seq<Action>, n: nat)
    requires IsRun(ws, acts) && n < |ws|
    ensures Inv(ws[n]) && AsksOk(ws[n])
  {
    hide Inv, Step, AsksOk;
    RunKeeps(ws, acts, n);
    if n == 0 {
      assert AsksOk(EMPTY_WORLD) by { EmptyAsks(); }
    } else {
      CompletedAsks(ws, acts, n - 1);
      AskStepKeeps(ws[n - 1], acts[n - 1], ws[n]);
    }
  }

  lemma EmptyAsks()
    ensures AsksOk(EMPTY_WORLD)
  {
  }

  /** What the calls that completed refunds of a transaction asked for. */
  ghost function AskedAmounts(w: World, id: nat, n: nat): seq<int>
    requires AsksOk(w) && n <= |w.refunds|
  {
    if n == 0 then []
    else
      AskedAmounts(w, id, n - 1)
      + (if w.refunds[n - 1].txn == id && w.refunds[n - 1].status == Done
         then assert AskedRight(w, n - 1); [Asked(LastClaim(w.claims, n - 1).value)] else [])
  }

  lemma {:induction false} AskedAreShares(w: World, id: nat, n: nat)
    requires AsksOk(w) && n <= |w.refunds| && id in w.txns && w.txns[id].amount > 0
    ensures AskedAmounts(w, id, n)
         == match w.txns[id].gatewayAmount
            case Some(g) => Shares(g, DoneAmounts(w.refunds[..n], id), w.txns[id].amount)
            case None => DoneAmounts(w.refunds[..n], id)
  {
    if n == 0 {
      assert w.refunds[..0] == [];
    } else {
      AskedAreShares(w, id, n - 1);
      OneMoreDone(w.refunds, id, n - 1);
      if w.refunds[n - 1].txn == id && w.refunds[n - 1].status == Done {
        assert AskedRight(w, n - 1);
        match w.txns[id].gatewayAmount
        case Some(g) => OneMoreShare(g, DoneAmounts(w.refunds[..n - 1], id), w.refunds[n - 1].amount, w.txns[id].amount);
        case None =>
      }
    }
  }

  lemma OneMoreDone(rs: seq<RefundRow>, id: nat, n: nat)
    requires n < |rs|
    ensures DoneAmounts(rs[..n + 1], id)
         == DoneAmounts(rs[..n], id) + (if rs[n].txn == id && rs[n].status == Done then [rs[n].amount] else [])
  {
    assert rs[..n + 1][..n] == rs[..n];
  }

  lemma OneMoreShare(g: int, xs: seq<int>, x: int, total: int)
    requires total > 0
    ensures Shares(g, xs + [x], total) == Shares(g, xs, total) + [Share(g, x, total)]
  {
    hide Share;
  }

  /** In every reachable state, what the gateway was asked to return by the calls that completed
      a payment's refunds is at most what it charged, or the payment's amount where no charge
      is recorded. */
  lemma AsksWithinCharge(ws: seq<World>, acts: seq<Action>, n: nat, id: nat)
    requires IsRun(ws, acts) && n < |ws| && id in ws[n].txns
    requires ws[n].txns[id].gatewayAmount.Some? ==> ws[n].txns[id].gatewayAmount.value * ws[n].txns[id].amount <= INT64_MAX
    ensures AsksOk(ws[n])
    ensures Sum(AskedAmounts(ws[n], id, |ws[n].refunds|)) <= ws[n].txns[id].gatewayAmount.GetOr(ws[n].txns[id].amount)
  {
    CompletedAsks(ws, acts, n);
    var w := ws[n];
    AmountPositive(w, id);
    hide Inv, AsksOk, IsRun, Shares;
    AskedAreShares(w, id, |w.refunds|);
    assert w.refunds[..|w.refunds|] == w.refunds;
    if w.txns[id].gatewayAmount.Some? {
      ProratedRefundsWithinCharge(ws, acts, n, id);
    } else {
      DoneWithinAmount(w, id);
    }
  }

  lemma AmountPositive(w: World, id: nat)
    requires Inv(w) && id in w.txns
    ensures w.txns[id].amount > 0
  {
    assert RowOk(id, w.txns[id]);
  }

  lemma DoneWithinAmount(w: World, id: nat)
    requires Inv(w) && id in w.txns
    ensures Sum(DoneAmounts(w.refunds, id)) <= w.txns[id].amount
  {
    hide ClaimsOk, EventsOk;
    assert RowOk(id, w.txns[id]) && Agrees(w.txns[id], w.refunds);
    TallyFacts(w.refunds, id);
    DoneAmountsSum(w.refunds, id, w.txns[id].amount);
  }
}
