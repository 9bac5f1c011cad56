/** Cancel resolution: a payment captured after its cancellation was requested is refunded
    by the system, through the idempotency guard, by however many resolvers notice it. */
module CancelResolution {
  import opened Basics
  import opened TransactionDomain
  import opened RefundDomain
  import opened Ledger
  import opened LedgerInvariant
  import opened LedgerSteps
  import opened LedgerExact
  import Idempotency

  const SYSTEM_REASON: string := "cancel_resolution"
  const SYSTEM_INITIATOR: string := "system:cancel_resolution"

  type Database = Idempotency.Db<World>

  /** The key a resolver derives from the transaction; its text is left open. */
  type KeyOf = nat -> string

  datatype Move =
    | Resolve(mem: TxnRow, amount: int, hash: string)
    | Request(key: string, hash: string, mem: TxnRow, amount: int, reason: string, initiator: string)
    | Other(a: Action)                // whatever else happens to the ledger
    | Purge(gone: set<string>)

  /** The operation InitiateRefund hands to the guard; the response names the new refund. */
  function InitiateOp(mem: TxnRow, amount: int, reason: string, initiator: string, show: nat -> string): Idempotency.Op<World> {
    (w: World) =>
      var w' := ApplyInitiateRefund(w, mem, amount, reason, initiator);
      if |w'.refunds| == |w.refunds| then None else Some((w', show(|w.refunds|)))
  }

  ghost predicate Possible(db: Database, m: Move) {
    match m
    case Resolve(mem, amount, _) => Enabled(db.app, InitiateRefund(mem, amount, SYSTEM_REASON, SYSTEM_INITIATOR))
    case Request(_, _, mem, amount, reason, initiator) =>
      initiator != SYSTEM_INITIATOR && Enabled(db.app, InitiateRefund(mem, amount, reason, initiator))
    case Other(a) => !a.InitiateRefund? && Enabled(db.app, a)
    case Purge(_) => true
  }

  ghost function Next(key: KeyOf, show: nat -> string, db: Database, m: Move): Database
    requires Possible(db, m)
  {
    match m
    case Resolve(mem, amount, hash) =>
      Idempotency.Execute(db, key(mem.id), hash, InitiateOp(mem, amount, SYSTEM_REASON, SYSTEM_INITIATOR, show)).0
    case Request(k, hash, mem, amount, reason, initiator) =>
      Idempotency.Execute(db, k, hash, InitiateOp(mem, amount, reason, initiator, show)).0
    case Other(a) => db.(app := Apply(db.app, a))
    case Purge(gone) => db.(keys := db.keys - gone)
  }

  ghost predicate IsGuardedRun(key: KeyOf, show: nat -> string, dbs: seq<Database>, moves: seq<Move>) {
    |dbs| == |moves| + 1 && dbs[0] == Idempotency.Db(map[], EMPTY_WORLD)
    && forall i :: 0 <= i < |moves| ==> Possible(dbs[i], moves[i]) && dbs[i + 1] == Next(key, show, dbs[i], moves[i])
  }

  ghost predicate IsSystemRefund(r: RefundRow, t: nat) {
    r.txn == t && r.initiator == SYSTEM_INITIATOR
  }

  ghost predicate AtMostOneSystemRefund(rs: seq<RefundRow>, t: nat) {
    forall i, j :: 0 <= i < j < |rs| ==> !(IsSystemRefund(rs[i], t) && IsSystemRefund(rs[j], t))
  }

  ghost predicate HasSystemRefund(rs: seq<RefundRow>, t: nat) {
    exists i :: 0 <= i < |rs| && IsSystemRefund(rs[i], t)
  }

  ghost predicate Guarded(key: KeyOf, db: Database, t: nat) {
    && AtMostOneSystemRefund(db.app.refunds, t)
    && (HasSystemRefund(db.app.refunds, t) ==> key(t) in db.keys)
  }

  // ------------------------------------------------------------ one move

  /** Nothing but an initiation inserts a refund. */
  lemma OnlyInitiationsInsert(w: World, a: Action)
    requires Enabled(w, a) && !a.InitiateRefund?
    ensures |Apply(w, a).refunds| == |w.refunds|
  {
    hide ApplyFinish;
    if a.FinishRefund? {
      FinishInsertsNone(w, w.claims[a.claim], ResolveRefundOutcome(w.claims[a.claim].reply.value));
    }
  }

  lemma FinishInsertsNone(w: World, c: Claim, outcome: RefundOutcome)
    ensures |ApplyFinish(w, c, outcome).refunds| == |w.refunds|
  {
    hide ParentAfter;
  }

  lemma OtherKeeps(w: World, a: Action)
    requires Inv(w) && Enabled(w, a) && !a.InitiateRefund?
    ensures |Apply(w, a).refunds| == |w.refunds| && Kept(w, Apply(w, a))
  {
    hide Inv, Kept, Apply;
    OnlyInitiationsInsert(w, a);
    StepKeeps(w, a, Apply(w, a));
  }

  /** A guarded initiation leaves the ledger alone or takes one of its steps, and then the
      key was free and is taken. */
  lemma GuardedInitiation(db: Database, k: string, hash: string, mem: TxnRow, amount: int, reason: string, initiator: string, show: nat -> string)
    requires Inv(db.app) && Enabled(db.app, InitiateRefund(mem, amount, reason, initiator))
    ensures var db' := Idempotency.Execute(db, k, hash, InitiateOp(mem, amount, reason, initiator, show)).0;
      && Kept(db.app, db'.app) && db.keys.Keys <= db'.keys.Keys
      && (db' == db
          || (&& k !in db.keys && k in db'.keys
              && |db'.app.refunds| == |db.app.refunds| + 1
              && db'.app.refunds[|db.app.refunds|].txn == mem.id
              && db'.app.refunds[|db.app.refunds|].initiator == initiator))
  {
    hide Inv, Kept, Enabled, ApplyInitiateRefund;
    StutterKeeps(db.app);
    InitiateRefundKeeps(db.app, mem, amount, reason, initiator);
    InitiationInserts(db.app, mem, amount, reason, initiator);
  }

  lemma InitiationInserts(w: World, mem: TxnRow, amount: int, reason: string, initiator: string)
    requires Inv(w) && Enabled(w, InitiateRefund(mem, amount, reason, initiator))
    ensures var w' := ApplyInitiateRefund(w, mem, amount, reason, initiator);
      w' == w
      || (&& |w'.refunds| == |w.refunds| + 1
          && w'.refunds[|w.refunds|].txn == mem.id && w'.refunds[|w.refunds|].initiator == initiator)
  {
    hide ApplyInitiateRefund;
    if ApplyInitiateRefund(w, mem, amount, reason, initiator) != w {
      var w1, rf := InitiateCommit(w, mem, amount, reason, initiator);
    }
  }

  /** Rows keep their transaction and initiator. */
  lemma SystemRefundsStay(w: World, w': World, t: nat)
    requires RefundsMove(w, w')
    ensures forall i :: 0 <= i < |w.refunds| ==> IsSystemRefund(w'.refunds[i], t) == IsSystemRefund(w.refunds[i], t)
  {
    forall i | 0 <= i < |w.refunds| ensures IsSystemRefund(w'.refunds[i], t) == IsSystemRefund(w.refunds[i], t) {
      assert RefundMoves(w.refunds[i], w'.refunds[i]);
    }
  }

  lemma MoveKeepsGuarded(key: KeyOf, show: nat -> string, db: Database, m: Move, t: nat)
    requires Inv(db.app) && Guarded(key, db, t) && Possible(db, m) && !(m.Purge? && key(t) in m.gone)
    ensures Inv(Next(key, show, db, m).app) && Guarded(key, Next(key, show, db, m), t)
  {
    hide Inv, Enabled, InitiateOp, Apply, IsSystemRefund, Idempotency.Execute, TxnsMove, RefundsMove;
    var db' := Next(key, show, db, m);
    match m
    case Purge(_) =>
    case Other(a) =>
      OtherKeeps(db.app, a);
      SystemRefundsStay(db.app, db'.app, t);
    case Resolve(mem, amount, hash) =>
      GuardedInitiation(db, key(mem.id), hash, mem, amount, SYSTEM_REASON, SYSTEM_INITIATOR, show);
      NewRowKeepsGuarded(key, db, db', t, mem.id, key(mem.id), SYSTEM_INITIATOR);
    case Request(k, hash, mem, amount, reason, initiator) =>
      GuardedInitiation(db, k, hash, mem, amount, reason, initiator, show);
      NewRowKeepsGuarded(key, db, db', t, mem.id, k, initiator);
  }

  lemma NewRowKeepsGuarded(key: KeyOf, db: Database, db': Database, t: nat, id: nat, k: string, initiator: string)
    requires Guarded(key, db, t) && RefundsMove(db.app, db'.app) && db.keys.Keys <= db'.keys.Keys
    requires initiator == SYSTEM_INITIATOR ==> k == key(id)
    requires db' == db
          || (&& k !in db.keys && k in db'.keys && |db'.app.refunds| == |db.app.refunds| + 1
              && db'.app.refunds[|db.app.refunds|].txn == id && db'.app.refunds[|db.app.refunds|].initiator == initiator)
    ensures Guarded(key, db', t)
  {
    SystemRefundsStay(db.app, db'.app, t);
    hide RefundsMove, SYSTEM_INITIATOR;
    var rs, rs' := db.app.refunds, db'.app.refunds;
    if db' != db && IsSystemRefund(rs'[|rs|], t) {
      assert key(t) !in db.keys;
      assert !HasSystemRefund(rs, t);
      assert forall i :: 0 <= i < |rs| ==> !IsSystemRefund(rs'[i], t);
    }
  }

  /** A resolver that finds the key free and the payment refundable from its committed row
      inserts the refund, and the key answers with it. */
  lemma ResolverInserts(key: KeyOf, show: nat -> string, db: Database, mem: TxnRow, amount: int, hash: string)
    requires Inv(db.app) && mem.id in db.app.txns && db.app.txns[mem.id] == mem && mem.amount <= INT64_MAX
    requires mem.status in {Captured, Settled, PartiallyRefunded, RefundFailed} && key(mem.id) !in db.keys
    requires 0 < amount <= mem.amount - SumActive(db.app.refunds, mem.id)
    ensures Possible(db, Resolve(mem, amount, hash))
    ensures var db' := Next(key, show, db, Resolve(mem, amount, hash));
      && db'.app.refunds == db.app.refunds
           + [RefundRow(mem.id, amount, "cancel_resolution", "system:cancel_resolution", Initiated, 0, 1, false)]
      && db'.keys == db.keys[key(mem.id) := Idempotency.KeyRow(hash, Idempotency.Completed, show(|db.app.refunds|))]
  {
    hide Inv, SumActive, ApplyInitiateRefund;
    CommittedRowFacts(db.app, mem.id);
    assert |SYSTEM_REASON| > 0 && |SYSTEM_INITIATOR| > 0;
    InitiationCommitsIff(db.app, mem, amount, SYSTEM_REASON, SYSTEM_INITIATOR);
  }

  /** Once the key is swept, nothing but the remainder stands in the way of another one. */
  lemma SweptKeyAllowsAnother(key: KeyOf, show: nat -> string, db: Database, gone: set<string>, mem: TxnRow, amount: int, hash: string)
    requires Inv(db.app) && mem.id in db.app.txns && db.app.txns[mem.id] == mem && mem.amount <= INT64_MAX
    requires mem.status in {Captured, Settled, PartiallyRefunded, RefundFailed} && key(mem.id) in gone
    requires 0 < amount <= mem.amount - SumActive(db.app.refunds, mem.id)
    ensures var swept := Next(key, show, db, Purge(gone));
      && swept.app == db.app && Possible(swept, Resolve(mem, amount, hash))
      && |Next(key, show, swept, Resolve(mem, amount, hash)).app.refunds| == |db.app.refunds| + 1
  {
    hide Inv, SumActive, ApplyInitiateRefund, Enabled, Apply;
    ResolverInserts(key, show, db.(keys := db.keys - gone), mem, amount, hash);
  }

  // ------------------------------------------------------------ all runs

  /** While a transaction's key is retained, however many resolvers race, and whatever else
      happens, the system inserts at most one refund for it; and every guarantee of the
      ledger holds of the run. */
  lemma {:induction false} OneSystemRefund(key: KeyOf, show: nat -> string, dbs: seq<Database>, moves: seq<Move>, n: nat, t: nat)
    requires IsGuardedRun(key, show, dbs, moves) && n < |dbs|
    requires forall i :: 0 <= i < n && moves[i].Purge? ==> key(t) !in moves[i].gone
    ensures AtMostOneSystemRefund(dbs[n].app.refunds, t)
    ensures HasSystemRefund(dbs[n].app.refunds, t) ==> key(t) in dbs[n].keys
    ensures Inv(dbs[n].app)
  {
    hide Inv, Next, Possible;
    if n == 0 {
      StartIsGuarded(key, t);
    } else {
      OneSystemRefund(key, show, dbs, moves, n - 1, t);
      MoveKeepsGuarded(key, show, dbs[n - 1], moves[n - 1], t);
    }
  }

  lemma StartIsGuarded(key: KeyOf, t: nat)
    ensures Inv(EMPTY_WORLD) && Guarded(key, Idempotency.Db(map[], EMPTY_WORLD), t)
  {
    forall id: nat ensures RefundEventsOk([], [], id) {}
  }
}
