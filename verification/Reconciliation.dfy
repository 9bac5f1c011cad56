/** Batch reconciliation of a gateway's settlement report with the service's own transactions. */
module Reconciliation {
  import opened Basics
  import opened Sequences
  import opened TransactionDomain
  import opened KeysetPaging

  datatype Internal = Internal(
    id: nat, ref: string, status: Status, amount: int, gatewayAmount: Option<int>, feeTotal: Option<int>)

  datatype ReportEntry = ReportEntry(ref: string, status: string, amount: int, fees: Option<int>)

  datatype Mismatch = StatusMismatch | AmountMismatch | FeeMismatch | MissingInternal | MissingGateway

  datatype Finding = Finding(
    txn: Option<nat>, kind: Mismatch, internalStatus: Option<Status>, gatewayStatus: string,
    internalAmount: int, gatewayAmount: int, internalFees: Option<int>, gatewayFees: Option<int>)

  const SUCCEEDED: string := "succeeded"
  const NOT_FOUND_IN_REPORT: string := "NOT_FOUND_IN_REPORT"

  predicate IsInternalSuccess(s: Status) {
    s == Captured || s == Settled
  }

  /** What the gateway is expected to have settled: the charge, when it is known. */
  function SettledAmount(t: Internal): int {
    t.gatewayAmount.GetOr(t.amount)
  }

  /** Fees of zero or less count as not known. */
  function KnownFees(t: Internal): Option<int> {
    if t.feeTotal.Some? && t.feeTotal.value > 0 then t.feeTotal else None
  }

  // ------------------------------------------------------------ one transaction, one entry

  /** compareTransaction */
  function Compare(t: Internal, e: ReportEntry): Option<Finding> {
    var f := Finding(Some(t.id), StatusMismatch, Some(t.status), e.status, SettledAmount(t), e.amount, KnownFees(t), e.fees);
    if IsInternalSuccess(t.status) && e.status != SUCCEEDED then Some(f)
    else if !IsInternalSuccess(t.status) && e.status == SUCCEEDED then Some(f)
    else if SettledAmount(t) != e.amount then Some(f.(kind := AmountMismatch))
    else if KnownFees(t).Some? && e.fees.Some? && KnownFees(t).value != e.fees.value then Some(f.(kind := FeeMismatch))
    else None
  }

  ghost predicate StatusAgrees(t: Internal, e: ReportEntry) {
    t.status in {Captured, Settled} <==> e.status == "succeeded"
  }

  ghost predicate FeesAgree(t: Internal, e: ReportEntry) {
    t.feeTotal.Some? && t.feeTotal.value > 0 && e.fees.Some? ==> t.feeTotal == e.fees
  }

  /** Both sides tell the same story. */
  ghost predicate Agree(t: Internal, e: ReportEntry) {
    && StatusAgrees(t, e)
    && e.amount == (match t.gatewayAmount case Some(g) => g case None => t.amount)
    && FeesAgree(t, e)
  }

  /** What a finding about a disagreeing pair tells: both sides as they are, and the first thing
      that differs. */
  ghost function Disagreement(t: Internal, e: ReportEntry): Finding {
    var charged := match t.gatewayAmount case Some(g) => g case None => t.amount;
    var fees := match t.feeTotal case Some(x) => (if x > 0 then Some(x) else None) case None => None;
    Finding(Some(t.id),
            if !StatusAgrees(t, e) then StatusMismatch else if charged != e.amount then AmountMismatch else FeeMismatch,
            Some(t.status), e.status, charged, e.amount, fees, e.fees)
  }

  /** Silence means agreement, and a finding names the first thing that differs. */
  lemma CompareDecides(t: Internal, e: ReportEntry)
    ensures Compare(t, e) == None <==> Agree(t, e)
    ensures Compare(t, e).Some? ==> Compare(t, e).value == Disagreement(t, e)
    ensures Compare(t, e).Some? ==>
      var f := Compare(t, e).value;
      && f.txn == Some(t.id) && f.kind in {StatusMismatch, AmountMismatch, FeeMismatch}
      && (f.kind == StatusMismatch <==> !StatusAgrees(t, e))
      && (f.kind == AmountMismatch <==> StatusAgrees(t, e) && f.internalAmount != f.gatewayAmount)
      && (f.kind == FeeMismatch <==> StatusAgrees(t, e) && f.internalAmount == f.gatewayAmount && !FeesAgree(t, e))
  {
  }

  // ------------------------------------------------------------ a whole report

  /** The last transaction that carries a reference: later ones replace earlier ones in the index. */
  function LastWith(txns: seq<Internal>, ref: string): (r: Option<Internal>)
    ensures r.Some? ==> r.value in txns && r.value.ref == ref && ref != ""
    ensures r == None && ref != "" ==> forall t :: t in txns ==> t.ref != ref
  {
    if txns == [] || ref == "" then None
    else if txns[|txns| - 1].ref == ref then Some(txns[|txns| - 1])
    else LastWith(txns[..|txns| - 1], ref)
  }

  function OfEntry(txns: seq<Internal>, e: ReportEntry): seq<Finding> {
    match LastWith(txns, e.ref)
    case None => [Finding(None, MissingInternal, None, e.status, 0, e.amount, None, e.fees)]
    case Some(t) => (match Compare(t, e) case None => [] case Some(f) => [f])
  }

  function OfReport(txns: seq<Internal>, report: seq<ReportEntry>): seq<Finding> {
    if report == [] then []
    else OfReport(txns, report[..|report| - 1]) + OfEntry(txns, report[|report| - 1])
  }

  function Matched(txns: seq<Internal>, report: seq<ReportEntry>): (ids: set<nat>) {
    if report == [] then {}
    else
      Matched(txns, report[..|report| - 1])
      + (match LastWith(txns, report[|report| - 1].ref) case None => {} case Some(t) => {t.id})
  }

  function NotReported(t: Internal): Finding {
    Finding(Some(t.id), MissingGateway, Some(t.status), NOT_FOUND_IN_REPORT, SettledAmount(t), 0, None, None)
  }

  function OfUnmatched(txns: seq<Internal>, matched: set<nat>): seq<Finding> {
    if txns == [] then []
    else
      OfUnmatched(txns[..|txns| - 1], matched)
      + (if txns[|txns| - 1].id in matched then [] else [NotReported(txns[|txns| - 1])])
  }

  function Findings(txns: seq<Internal>, report: seq<ReportEntry>): seq<Finding> {
    OfReport(txns, report) + OfUnmatched(txns, Matched(txns, report))
  }

  // ------------------------------------------------------------ the running code

  method IndexByRef(txns: seq<Internal>) returns (byRef: map<string, Internal>)
    ensures forall ref :: ref in byRef <==> LastWith(txns, ref).Some?
    ensures forall ref :: ref in byRef ==> LastWith(txns, ref) == Some(byRef[ref])
  {
    byRef := map[];
    for i := 0 to |txns|
      invariant forall ref :: ref in byRef <==> LastWith(txns[..i], ref).Some?
      invariant forall ref :: ref in byRef ==> LastWith(txns[..i], ref) == Some(byRef[ref])
    {
      if txns[i].ref != "" {
        byRef := byRef[txns[i].ref := txns[i]];
      }
      forall ref: string
        ensures ref in byRef <==> LastWith(txns[..i + 1], ref).Some?
        ensures ref in byRef ==> LastWith(txns[..i + 1], ref) == Some(byRef[ref])
      {
        LastWithStep(txns, i, ref);
      }
    }
    assert txns[..|txns|] == txns;
  }

  lemma LastWithStep(txns: seq<Internal>, i: nat, ref: string)
    requires i < |txns|
    ensures LastWith(txns[..i + 1], ref) == if ref != "" && txns[i].ref == ref then Some(txns[i]) else LastWith(txns[..i], ref)
  {
    assert txns[..i + 1][..i] == txns[..i];
  }

  /** The comparison of reconcileBatch, once report and transactions are loaded. */
  method ReconcileBatch(txns: seq<Internal>, report: seq<ReportEntry>) returns (entries: seq<Finding>)
    ensures entries == Findings(txns, report)
  {
    hide LastWith, Compare;
    var byRef := IndexByRef(txns);
    entries := [];
    var matched: set<nat> := {};
    for i := 0 to |report|
      invariant entries == OfReport(txns, report[..i]) && matched == Matched(txns, report[..i])
    {
      assert report[..i + 1][..i] == report[..i];
      var e := report[i];
      if e.ref in byRef {
        var t := byRef[e.ref];
        var finding := Compare(t, e);
        if finding.Some? {
          entries := entries + [finding.value];
        }
        matched := matched + {t.id};
      } else {
        entries := entries + [Finding(None, MissingInternal, None, e.status, 0, e.amount, None, e.fees)];
      }
    }
    assert report[..|report|] == report;
    ghost var ofReport := entries;
    assert OfUnmatched(txns[..0], matched) == [];
    for i := 0 to |txns|
      invariant entries == ofReport + OfUnmatched(txns[..i], matched)
    {
      assert txns[..i + 1][..i] == txns[..i];
      if txns[i].id !in matched {
        entries := entries + [NotReported(txns[i])];
      }
    }
    assert txns[..|txns|] == txns;
  }

  // ------------------------------------------------------------ what findings mean

  lemma {:induction false} ReportMembers(txns: seq<Internal>, report: seq<ReportEntry>)
    ensures forall f :: f in OfReport(txns, report) <==> exists e :: e in report && f in OfEntry(txns, e)
    ensures OfReport(txns, report) == [] <==> forall e :: e in report ==> OfEntry(txns, e) == []
  {
    hide OfEntry;
    if report != [] {
      var front, last := report[..|report| - 1], report[|report| - 1];
      assert report == front + [last];
      ReportMembers(txns, front);
      forall f ensures f in OfReport(txns, report) <==> exists e :: e in report && f in OfEntry(txns, e) {
        if f in OfEntry(txns, last) { assert last in report; }
      }
    }
  }

  lemma {:induction false} MatchedMembers(txns: seq<Internal>, report: seq<ReportEntry>)
    ensures forall id :: id in Matched(txns, report) <==>
              exists e :: e in report && LastWith(txns, e.ref).Some? && LastWith(txns, e.ref).value.id == id
  {
    hide LastWith;
    if report != [] {
      var front, last := report[..|report| - 1], report[|report| - 1];
      assert report == front + [last];
      MatchedMembers(txns, front);
      forall id ensures id in Matched(txns, report) <==>
          exists e :: e in report && LastWith(txns, e.ref).Some? && LastWith(txns, e.ref).value.id == id
      {
        if LastWith(txns, last.ref).Some? && LastWith(txns, last.ref).value.id == id { assert last in report; }
      }
    }
  }

  lemma {:induction false} UnmatchedMembers(txns: seq<Internal>, matched: set<nat>)
    ensures forall f :: f in OfUnmatched(txns, matched) <==> exists t :: t in txns && t.id !in matched && f == NotReported(t)
    ensures OfUnmatched(txns, matched) == [] <==> forall t :: t in txns ==> t.id in matched
  {
    hide NotReported;
    if txns != [] {
      var front, last := txns[..|txns| - 1], txns[|txns| - 1];
      assert txns == front + [last];
      UnmatchedMembers(front, matched);
    }
  }

  ghost predicate DistinctIds(txns: seq<Internal>) {
    forall i, j :: 0 <= i < j < |txns| ==> txns[i].id != txns[j].id
  }

  ghost predicate DistinctRefs(txns: seq<Internal>) {
    && (forall i :: 0 <= i < |txns| ==> txns[i].ref != "")
    && (forall i, j :: 0 <= i < j < |txns| ==> txns[i].ref != txns[j].ref)
  }

  /** Every entry has a transaction that agrees with it. */
  ghost predicate EntriesExplained(txns: seq<Internal>, report: seq<ReportEntry>) {
    forall e :: e in report ==> exists t :: t in txns && t.ref == e.ref && Agree(t, e)
  }

  /** Every transaction has an entry. */
  ghost predicate AllReported(txns: seq<Internal>, report: seq<ReportEntry>) {
    forall t :: t in txns ==> exists e :: e in report && e.ref == t.ref
  }

  lemma UniqueHolder(txns: seq<Internal>, t: Internal)
    requires DistinctRefs(txns) && t in txns
    ensures LastWith(txns, t.ref) == Some(t)
  {
    var i :| 0 <= i < |txns| && txns[i] == t;
    var h := LastWith(txns, t.ref).value;
    var j :| 0 <= j < |txns| && txns[j] == h;
    assert i == j;
  }

  lemma SameIdSame(txns: seq<Internal>, t: Internal, u: Internal)
    requires DistinctIds(txns) && t in txns && u in txns && t.id == u.id
    ensures t == u
  {
    var i :| 0 <= i < |txns| && txns[i] == t;
    var j :| 0 <= j < |txns| && txns[j] == u;
    assert i == j;
  }

  /** Nothing is found exactly when the references are usable and unique, every entry matches an
      agreeing transaction, and every transaction is in the report. */
  lemma CleanIff(txns: seq<Internal>, report: seq<ReportEntry>)
    requires DistinctIds(txns)
    ensures Findings(txns, report) == [] <==>
      DistinctRefs(txns) && EntriesExplained(txns, report) && AllReported(txns, report)
  {
    hide Findings, DistinctRefs, EntriesExplained, AllReported;
    if Findings(txns, report) == [] {
      CleanMeans(txns, report);
    }
    if DistinctRefs(txns) && EntriesExplained(txns, report) && AllReported(txns, report) {
      NothingToFind(txns, report);
    }
  }

  lemma CleanMeans(txns: seq<Internal>, report: seq<ReportEntry>)
    requires DistinctIds(txns) && Findings(txns, report) == []
    ensures DistinctRefs(txns) && EntriesExplained(txns, report) && AllReported(txns, report)
  {
    hide OfReport, OfUnmatched, Matched, LastWith, Compare, Agree;
    ReportMembers(txns, report);
    MatchedMembers(txns, report);
    UnmatchedMembers(txns, Matched(txns, report));
    forall t | t in txns ensures LastWith(txns, t.ref) == Some(t) && exists e :: e in report && e.ref == t.ref {
      assert t.id in Matched(txns, report);
      var e :| e in report && LastWith(txns, e.ref).Some? && LastWith(txns, e.ref).value.id == t.id;
      SameIdSame(txns, t, LastWith(txns, e.ref).value);
    }
    forall i, j | 0 <= i < j < |txns| ensures txns[i].ref != txns[j].ref {
      assert LastWith(txns, txns[i].ref) == Some(txns[i]) && LastWith(txns, txns[j].ref) == Some(txns[j]);
    }
    forall e | e in report ensures exists t :: t in txns && t.ref == e.ref && Agree(t, e) {
      assert OfEntry(txns, e) == [];
      var t := LastWith(txns, e.ref).value;
      CompareDecides(t, e);
    }
  }

  lemma NothingToFind(txns: seq<Internal>, report: seq<ReportEntry>)
    requires DistinctRefs(txns) && EntriesExplained(txns, report) && AllReported(txns, report)
    ensures Findings(txns, report) == []
  {
    hide OfReport, OfUnmatched, Matched, LastWith, Compare, Agree;
    ReportMembers(txns, report);
    MatchedMembers(txns, report);
    UnmatchedMembers(txns, Matched(txns, report));
    forall e | e in report ensures OfEntry(txns, e) == [] {
      var t :| t in txns && t.ref == e.ref && Agree(t, e);
      UniqueHolder(txns, t);
      CompareDecides(t, e);
    }
    forall t | t in txns ensures t.id in Matched(txns, report) {
      var e :| e in report && e.ref == t.ref;
      UniqueHolder(txns, t);
    }
  }

  /** With unique references every finding is justified, and everything that deserves one has it. */
  lemma FindingsExact(txns: seq<Internal>, report: seq<ReportEntry>, f: Finding)
    requires DistinctIds(txns) && DistinctRefs(txns)
    ensures f in Findings(txns, report) <==>
      || (exists e, t :: e in report && t in txns && t.ref == e.ref && !Agree(t, e) && f == Disagreement(t, e))
      || (exists e :: && e in report && (forall t :: t in txns ==> t.ref != e.ref)
                      && f == Finding(None, MissingInternal, None, e.status, 0, e.amount, None, e.fees))
      || (exists t :: && t in txns && (forall e :: e in report ==> e.ref != t.ref)
                      && f == Finding(Some(t.id), MissingGateway, Some(t.status), "NOT_FOUND_IN_REPORT",
                                      if t.gatewayAmount.Some? then t.gatewayAmount.value else t.amount, 0, None, None))
  {
    forall t: Internal
      ensures NotReported(t) == Finding(Some(t.id), MissingGateway, Some(t.status), "NOT_FOUND_IN_REPORT",
                                        if t.gatewayAmount.Some? then t.gatewayAmount.value else t.amount, 0, None, None)
    {
    }
    hide OfReport, OfUnmatched, Matched, LastWith, Compare, Agree, NotReported, Disagreement;
    ReportMembers(txns, report);
    MatchedMembers(txns, report);
    UnmatchedMembers(txns, Matched(txns, report));
    forall e | e in report
      ensures f in OfEntry(txns, e) <==>
        || (exists t :: t in txns && t.ref == e.ref && !Agree(t, e) && f == Disagreement(t, e))
        || ((forall t :: t in txns ==> t.ref != e.ref) && f == Finding(None, MissingInternal, None, e.status, 0, e.amount, None, e.fees))
    {
      EntryExact(txns, e, f);
    }
    forall t | t in txns ensures t.id !in Matched(txns, report) <==> forall e :: e in report ==> e.ref != t.ref {
      MatchedExact(txns, report, t);
    }
  }

  lemma EntryExact(txns: seq<Internal>, e: ReportEntry, f: Finding)
    requires DistinctRefs(txns)
    ensures f in OfEntry(txns, e) <==>
      || (exists t :: t in txns && t.ref == e.ref && !Agree(t, e) && f == Disagreement(t, e))
      || ((forall t :: t in txns ==> t.ref != e.ref) && f == Finding(None, MissingInternal, None, e.status, 0, e.amount, None, e.fees))
  {
    hide LastWith, Compare, Agree, Disagreement;
    forall t | t in txns && t.ref == e.ref ensures LastWith(txns, e.ref) == Some(t) {
      UniqueHolder(txns, t);
    }
    if LastWith(txns, e.ref).Some? {
      CompareDecides(LastWith(txns, e.ref).value, e);
    }
  }

  lemma MatchedExact(txns: seq<Internal>, report: seq<ReportEntry>, t: Internal)
    requires DistinctIds(txns) && DistinctRefs(txns) && t in txns
    ensures t.id in Matched(txns, report) <==> exists e :: e in report && e.ref == t.ref
  {
    hide LastWith;
    MatchedMembers(txns, report);
    UniqueHolder(txns, t);
    forall e | e in report && LastWith(txns, e.ref).Some? && LastWith(txns, e.ref).value.id == t.id ensures e.ref == t.ref {
      SameIdSame(txns, t, LastWith(txns, e.ref).value);
    }
  }

  // ------------------------------------------------------------ end to end

  /** reconcileBatch on a fixed table: pages through the period, loads the transactions and
      compares. The result is empty exactly when every entry is explained by a transaction of
      the period and every transaction of the period is reported, one to one. */
  method ReconcilePeriod(c: Codec, table: seq<Row>, inPeriod: Row -> bool, load: nat -> Internal, report: seq<ReportEntry>)
    returns (entries: seq<Finding>, ghost txns: seq<Internal>)
    requires Faithful(c) && Descending(table) && (forall id: nat :: load(id).id == id)
    requires DistinctRows(table)
    ensures |txns| == |Filter(table, inPeriod)| && DistinctIds(txns)
    ensures forall i :: 0 <= i < |txns| ==> txns[i] == load(Filter(table, inPeriod)[i].id)
    ensures entries == Findings(txns, report)
    ensures entries == [] <==> DistinctRefs(txns) && EntriesExplained(txns, report) && AllReported(txns, report)
  {
    var listed := ListAll(c, table, inPeriod, 100);
    var summaries := listed.value;
    DistinctKept(table, inPeriod);
    hide Filter, Descending, Faithful, Findings, DistinctRefs, EntriesExplained, AllReported;
    var full: seq<Internal> := [];
    for i := 0 to |summaries|
      invariant |full| == i && forall j :: 0 <= j < i ==> full[j] == load(summaries[j].id)
    {
      full := full + [load(summaries[i].id)];
    }
    txns := full;
    entries := ReconcileBatch(full, report);
    CleanIff(full, report);
  }

  ghost predicate DistinctRows(rows: seq<Row>) {
    forall i, j :: 0 <= i < j < |rows| ==> rows[i].id != rows[j].id
  }

  lemma {:induction false} DistinctKept(rows: seq<Row>, f: Row -> bool)
    requires DistinctRows(rows)
    ensures DistinctRows(Filter(rows, f))
  {
    if rows != [] {
      var front, last := rows[..|rows| - 1], rows[|rows| - 1];
      DistinctKept(front, f);
      var kept := Filter(front, f);
      forall i | 0 <= i < |kept| ensures kept[i].id != last.id {
        assert kept[i] in front;
        var k :| 0 <= k < |front| && front[k] == kept[i];
        assert rows[k].id != rows[|rows| - 1].id;
      }
      assert Filter(rows, f) == kept + (if f(last) then [last] else []);
    }
  }
}
