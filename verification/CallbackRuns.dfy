/** Gateway callbacks over whole runs: a gateway may deliver an event any number of times, at any
    time, while every other actor keeps working. */
module CallbackRuns {
  import opened Basics
  import opened TransactionDomain
  import opened Ledger
  import opened LedgerInvariant
  import opened LedgerSteps
  import opened LedgerRuns
  import opened Services

  datatype InboxAction =
    | Delivery(event: string, found: Option<TxnRow>, asked: Option<Status>)
    | Elsewhere(a: Action)

  /** A delivery finds any copy of the transaction, and asks for a status callbacks can ask for. */
  ghost predicate InboxStep(b: Inbox, a: InboxAction, b': Inbox, out: WebhookOutcome) {
    match a
    case Delivery(event, found, asked) =>
      && (found.Some? ==> found.value in b.w.seenTxns) && (asked.Some? ==> WebhookStatus(asked.value))
      && (b', out) == Deliver(b, event, found, asked)
    case Elsewhere(c) => !c.Webhook? && Step(b.w, c, b'.w) && b'.recorded == b.recorded
  }

  ghost predicate IsInboxRun(bs: seq<Inbox>, acts: seq<InboxAction>, outs: seq<WebhookOutcome>) {
    && |bs| == |acts| + 1 == |outs| + 1 && bs[0] == Inbox(EMPTY_WORLD, {})
    && forall i :: 0 <= i < |acts| ==> InboxStep(bs[i], acts[i], bs[i + 1], outs[i])
  }

  ghost predicate Delivers(acts: seq<InboxAction>, i: nat, event: string) {
    i < |acts| && acts[i].Delivery? && acts[i].event == event
  }

  /** A delivery whose transaction committed: it was not rolled back, and it was not the second. */
  ghost predicate Committed(acts: seq<InboxAction>, outs: seq<WebhookOutcome>, i: nat, event: string) {
    Delivers(acts, i, event) && i < |outs| && outs[i] != Conflict && outs[i] != Duplicate
  }

  /** A delivery does to the ledger what the callback action does, or nothing. */
  lemma DeliveryIsStep(b: Inbox, event: string, found: Option<TxnRow>, asked: Option<Status>)
    ensures var (b', out) := Deliver(b, event, found, asked);
      && (out.Resolved? ==> found.Some? && asked.Some? && b'.w == Apply(b.w, Webhook(found.value, asked.value)))
      && (!out.Resolved? ==> b'.w == b.w)
  {
    hide Move;
  }

  /** The ledger's invariant holds in every such run. */
  lemma {:induction false} InboxKeeps(bs: seq<Inbox>, acts: seq<InboxAction>, outs: seq<WebhookOutcome>, n: nat)
    requires IsInboxRun(bs, acts, outs) && n < |bs|
    ensures Inv(bs[n].w)
  {
    if n == 0 {
      EmptyInv();
    } else {
      InboxKeeps(bs, acts, outs, n - 1);
      InboxStepKeeps(bs[n - 1], acts[n - 1], bs[n], outs[n - 1]);
    }
  }

  lemma InboxStepKeeps(b: Inbox, a: InboxAction, b': Inbox, out: WebhookOutcome)
    requires Inv(b.w) && InboxStep(b, a, b', out)
    ensures Inv(b'.w)
  {
    hide Inv, Apply, Deliver, TxnsMove, RefundsMove;
    match a
    case Elsewhere(c) => StepKeeps(b.w, c, b'.w);
    case Delivery(event, found, asked) =>
      DeliveryIsStep(b, event, found, asked);
      if out.Resolved? {
        StepKeeps(b.w, Webhook(found.value, asked.value), b'.w);
      }
  }

  /** The record of an event is there exactly if some delivery of it committed. */
  lemma {:induction false} RecordedIff(bs: seq<Inbox>, acts: seq<InboxAction>, outs: seq<WebhookOutcome>, n: nat, event: string)
    requires IsInboxRun(bs, acts, outs) && n < |bs|
    ensures event in bs[n].recorded <==> exists i: nat :: i < n && Committed(acts, outs, i, event)
  {
    hide Step, Move, SaveTxn, Transitioned;
    if n > 0 {
      RecordedIff(bs, acts, outs, n - 1, event);
      assert InboxStep(bs[n - 1], acts[n - 1], bs[n], outs[n - 1]);
      assert event in bs[n].recorded <==> event in bs[n - 1].recorded || Committed(acts, outs, n - 1, event);
    }
  }

  /** An event is applied at most once: after a delivery of it committed, every later one is a
      duplicate and changes nothing. A delivery that lost a race changed nothing either. */
  lemma AppliedAtMostOnce(bs: seq<Inbox>, acts: seq<InboxAction>, outs: seq<WebhookOutcome>, i: nat, j: nat, event: string)
    requires IsInboxRun(bs, acts, outs) && i < j < |acts| && Delivers(acts, i, event) && Delivers(acts, j, event)
    ensures outs[i] == Conflict ==> bs[i + 1] == bs[i]
    ensures outs[i] != Conflict ==> outs[j] == Duplicate && bs[j + 1] == bs[j]
  {
    hide Step, Move, SaveTxn, Transitioned;
    assert InboxStep(bs[i], acts[i], bs[i + 1], outs[i]) && InboxStep(bs[j], acts[j], bs[j + 1], outs[j]);
    RecordedIff(bs, acts, outs, j, event);
    if outs[i] == Duplicate {
      RecordedIff(bs, acts, outs, i, event);
    } else if outs[i] != Conflict {
      assert Committed(acts, outs, i, event);
    }
  }
}
