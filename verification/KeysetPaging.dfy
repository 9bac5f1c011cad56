/** Listing transactions page by page, newest first, with a cursor that names the last row
    of the page before. */
module KeysetPaging {
  import opened Basics
  import opened Sequences

  datatype Row = Row(created: int, id: nat)

  predicate Below(x: Row, y: Row) {
    x.created < y.created || (x.created == y.created && x.id < y.id)
  }

  /** The table in the order of its index: created_at DESC, id DESC. */
  ghost predicate Descending(rows: seq<Row>) {
    forall i, j :: 0 <= i < j < |rows| ==> Below(rows[j], rows[i])
  }

  // ------------------------------------------------------------ cursors

  /** Time stamps and ids as text. */
  datatype Codec = Codec(
    showTime: int -> string, parseTime: string -> Option<int>,
    showId: nat -> string, parseId: string -> Option<nat>)

  /** Printing then parsing is the identity; a time prints as something, an id without a colon. */
  ghost predicate Faithful(c: Codec) {
    && (forall t :: c.parseTime(c.showTime(t)) == Some(t) && c.showTime(t) != "")
    && (forall i: nat :: c.parseId(c.showId(i)) == Some(i) && ':' !in c.showId(i))
  }

  function LastIndex(s: string, ch: char): (r: int)
    ensures -1 <= r < |s|
    ensures r >= 0 ==> s[r] == ch
    ensures forall i :: r < i < |s| ==> s[i] != ch
  {
    if s == "" then -1
    else if s[|s| - 1] == ch then |s| - 1
    else LastIndex(s[..|s| - 1], ch)
  }

  datatype PagingError = NoSeparator | BadTime | BadId

  function ShowCursor(c: Codec, r: Row): string {
    c.showTime(r.created) + ":" + c.showId(r.id)
  }

  /** parseTxnCursor */
  function ParseCursor(c: Codec, cursor: string): Result<Row, PagingError> {
    var idx := LastIndex(cursor, ':');
    if idx <= 0 then Err(NoSeparator)
    else
      match c.parseTime(cursor[..idx])
      case None => Err(BadTime)
      case Some(created) =>
        match c.parseId(cursor[idx + 1..])
        case None => Err(BadId)
        case Some(id) => Ok(Row(created, id))
  }

  /** Time stamps hold colons; the last one separates. */
  lemma LastColon(a: string, b: string)
    requires ':' !in b
    ensures LastIndex(a + ":" + b, ':') == |a|
    ensures (a + ":" + b)[..|a|] == a && (a + ":" + b)[|a| + 1..] == b
  {
    Joined(a, b);
    hide LastIndex;
    var s := a + ":" + b;
    var r := LastIndex(s, ':');
    assert r >= |a|;
  }

  lemma Joined(a: string, b: string)
    ensures var s := a + ":" + b;
      && |s| == |a| + 1 + |b| && s[|a|] == ':' && s[..|a|] == a && s[|a| + 1..] == b
      && forall i :: |a| < i < |s| ==> s[i] in b
  {
    var s := a + ":" + b;
    assert s[|a| + 1..] == b;
    forall i | |a| < i < |s| ensures s[i] in b {
      assert s[i] == s[|a| + 1..][i - |a| - 1];
    }
  }

  lemma CursorRoundTrip(c: Codec, r: Row)
    requires Faithful(c)
    ensures ParseCursor(c, ShowCursor(c, r)) == Ok(r) && ShowCursor(c, r) != ""
  {
    LastColon(c.showTime(r.created), c.showId(r.id));
  }

  /** A cursor is accepted exactly when it splits at a colon into a time and a colon-free id. */
  lemma CursorAcceptedIff(c: Codec, cursor: string, r: Row)
    ensures ParseCursor(c, cursor) == Ok(r) <==>
      exists t: string, i: string ::
        cursor == t + ":" + i && t != "" && ':' !in i && c.parseTime(t) == Some(r.created) && c.parseId(i) == Some(r.id)
  {
    var idx := LastIndex(cursor, ':');
    if ParseCursor(c, cursor) == Ok(r) {
      var t, i := cursor[..idx], cursor[idx + 1..];
      assert cursor == t + ":" + i;
    }
    forall t: string, i: string | cursor == t + ":" + i && ':' !in i ensures idx == |t| && cursor[..idx] == t && cursor[idx + 1..] == i {
      LastColon(t, i);
    }
  }

  // ------------------------------------------------------------ one page

  datatype Page = Page(rows: seq<Row>, next: Option<string>, hasMore: bool)

  function Selects(f: Row -> bool, after: Option<Row>): Row -> bool {
    (x: Row) => f(x) && (after.Some? ==> Below(x, after.value))
  }

  function BelowRow(r: Row): Row -> bool { (x: Row) => Below(x, r) }

  function First<T>(s: seq<T>, n: nat): seq<T> {
    if |s| <= n then s else s[..n]
  }

  function PageSize(limit: int): (n: nat)
    ensures 1 <= n <= 100
    ensures 1 <= limit <= 100 ==> n == limit
    ensures !(1 <= limit <= 100) ==> n == 50
  {
    if limit <= 0 || limit > 100 then 50 else limit
  }

  function PageOf(c: Codec, selected: seq<Row>, n: nat): Page
    requires n > 0
  {
    if |selected| > n then Page(selected[..n], Some(ShowCursor(c, selected[n - 1])), true)
    else Page(selected, None, false)
  }

  /** The position a request continues from: none for the first page. */
  function Position(c: Codec, cursor: Option<string>): Result<Option<Row>, PagingError> {
    if cursor.Some? && cursor.value != "" then
      match ParseCursor(c, cursor.value)
      case Err(e) => Err(e)
      case Ok(r) => Ok(Some(r))
    else Ok(None)
  }

  /** The page a request gets. */
  function Listed(c: Codec, table: seq<Row>, f: Row -> bool, limit: int, cursor: Option<string>): Result<Page, PagingError> {
    match Position(c, cursor)
    case Err(e) => Err(e)
    case Ok(after) => Ok(PageOf(c, Filter(table, Selects(f, after)), PageSize(limit)))
  }

  /** List: reads one row more than it returns, to see whether there are more. */
  method List(c: Codec, table: seq<Row>, f: Row -> bool, limit: int, cursor: Option<string>) returns (r: Result<Page, PagingError>)
    ensures r == Listed(c, table, f, limit, cursor)
  {
    hide Filter, Selects, ShowCursor, PageOf, PageSize, First, ParseCursor;
    var n := PageSize(limit);
    var after: Option<Row> := None;
    if cursor.Some? && cursor.value != "" {
      var parsed := ParseCursor(c, cursor.value);
      if parsed.Err? {
        return Err(parsed.error);
      }
      after := Some(parsed.value);
    }
    var rows := FirstSelected(table, Selects(f, after), n + 1);
    OneMoreTells(c, Filter(table, Selects(f, after)), n);
    var hasMore := |rows| > n;
    if hasMore {
      rows := rows[..n];
      return Ok(Page(rows, Some(ShowCursor(c, rows[n - 1])), true));
    }
    return Ok(Page(rows, None, false));
  }

  /** The query and the loop over its rows. */
  method FirstSelected(table: seq<Row>, sel: Row -> bool, n: nat) returns (rows: seq<Row>)
    ensures rows == First(Filter(table, sel), n)
  {
    rows := [];
    assert table[..0] == [];
    assert Filter(table[..0], sel) == [] && First<Row>([], n) == [];
    hide Filter, First;
    for i := 0 to |table|
      invariant rows == First(Filter(table[..i], sel), n)
    {
      FilterStep(table, i, sel);
      FirstGrows(Filter(table[..i], sel), table[i], n);
      assert !sel(table[i]) ==> Filter(table[..i + 1], sel) == Filter(table[..i], sel);
      if sel(table[i]) && |rows| < n {
        rows := rows + [table[i]];
      }
    }
    assert table[..|table|] == table;
  }

  lemma FirstGrows(s: seq<Row>, x: Row, n: nat)
    ensures First(s + [x], n) == if |First(s, n)| < n then First(s, n) + [x] else First(s, n)
  {
  }

  lemma OneMoreTells(c: Codec, selected: seq<Row>, n: nat)
    requires n > 0
    ensures var rows := First(selected, n + 1);
      PageOf(c, selected, n)
      == if |rows| > n then Page(rows[..n], Some(ShowCursor(c, rows[..n][n - 1])), true) else Page(rows, None, false)
  {
  }

  // ------------------------------------------------------------ all pages

  lemma NewestFirst(rows: seq<Row>)
    requires Descending(rows)
    ensures forall i, j :: 0 <= i < j < |rows| ==>
      rows[i].created > rows[j].created || (rows[i].created == rows[j].created && rows[i].id > rows[j].id)
  {
  }

  lemma {:induction false} FilterDescending(rows: seq<Row>, f: Row -> bool)
    requires Descending(rows)
    ensures Descending(Filter(rows, f))
  {
    if rows != [] {
      var front, last := rows[..|rows| - 1], rows[|rows| - 1];
      FilterDescending(front, f);
      var kept := Filter(front, f);
      forall i | 0 <= i < |kept| ensures Below(last, kept[i]) {
        assert kept[i] in front;
      }
    }
  }

  /** A cursor narrows the selection that is already there. */
  lemma {:induction false} SelectBelow(rows: seq<Row>, f: Row -> bool, r: Row)
    ensures Filter(rows, Selects(f, Some(r))) == Filter(Filter(rows, f), BelowRow(r))
  {
    if rows != [] {
      var front, last := rows[..|rows| - 1], rows[|rows| - 1];
      SelectBelow(front, f, r);
      FilterConcat(Filter(front, f), if f(last) then [last] else [], BelowRow(r));
    }
  }

  /** The rows below the last one seen are exactly the rest. */
  lemma BelowIsRest(rows: seq<Row>, k: nat)
    requires Descending(rows) && 0 < k <= |rows|
    ensures Filter(rows, BelowRow(rows[k - 1])) == rows[k..]
  {
    hide Filter;
    var p := BelowRow(rows[k - 1]);
    assert rows == rows[..k] + rows[k..];
    forall x | x in rows[..k] ensures !p(x) {
      var i :| 0 <= i < k && rows[i] == x;
      assert i < k - 1 ==> Below(rows[k - 1], rows[i]);
    }
    forall x | x in rows[k..] ensures p(x) {
      var i :| k <= i < |rows| && rows[i] == x;
    }
    FilterConcat(rows[..k], rows[k..], p);
    FilterNone(rows[..k], p);
    FilterAll(rows[k..], p);
  }

  lemma SelectsAll(table: seq<Row>, f: Row -> bool)
    ensures Filter(table, Selects(f, None)) == Filter(table, f)
  {
    SameFilter(table, Selects(f, None), f);
  }

  lemma {:induction false} SameFilter(s: seq<Row>, p: Row -> bool, q: Row -> bool)
    requires forall x :: p(x) == q(x)
    ensures Filter(s, p) == Filter(s, q)
  {
    if s != [] {
      SameFilter(s[..|s| - 1], p, q);
    }
  }

  /** The paging loop of reconcileBatch: on a table that does not change it ends, and collects
      every matching row exactly once, in order, whatever page size is asked for. */
  method ListAll(c: Codec, table: seq<Row>, f: Row -> bool, limit: int) returns (r: Result<seq<Row>, PagingError>)
    requires Faithful(c) && Descending(table)
    ensures r == Ok(Filter(table, f))
    ensures Descending(Filter(table, f))
    ensures forall i, j :: 0 <= i < j < |Filter(table, f)| ==>
              var x, y := Filter(table, f)[i], Filter(table, f)[j];
              x.created > y.created || (x.created == y.created && x.id > y.id)
  {
    ghost var all := Filter(table, f);
    FilterDescending(table, f);
    SelectsAll(table, f);
    NewestFirst(Filter(table, f));
    hide Filter, Descending, Faithful, Listed, Reached;
    var summaries: seq<Row> := [];
    var cursor: Option<string> := None;
    StartReached(c, all);
    while true
      invariant Reached(c, all, summaries, cursor)
      decreases |all| - |summaries|
    {
      NextPage(c, table, f, limit, all, summaries, cursor);
      var result := List(c, table, f, limit, cursor);
      match result {
        case Err(e) =>
          return Err(e);
        case Ok(page) =>
          summaries := summaries + page.rows;
          if !page.hasMore || page.next == None {
            return Ok(summaries);
          }
          cursor := page.next;
      }
    }
  }

  /** A prefix is collected, and the cursor names its last row. */
  ghost predicate Reached(c: Codec, all: seq<Row>, got: seq<Row>, cursor: Option<string>) {
    && |got| <= |all| && got == all[..|got|]
    && (cursor == None ==> got == [])
    && (cursor.Some? ==> got != [] && cursor.value == ShowCursor(c, got[|got| - 1]))
  }

  lemma StartReached(c: Codec, all: seq<Row>)
    ensures Reached(c, all, [], None)
  {
  }

  /** One request more: either everything is collected, or the prefix has grown. */
  lemma NextPage(c: Codec, table: seq<Row>, f: Row -> bool, limit: int, all: seq<Row>, got: seq<Row>, cursor: Option<string>)
    requires Faithful(c) && all == Filter(table, f) == Filter(table, Selects(f, None)) && Descending(all)
    requires Reached(c, all, got, cursor)
    ensures var r := Listed(c, table, f, limit, cursor);
      && r.Ok? && (r.value.hasMore <==> r.value.next.Some?)
      && (if r.value.hasMore
          then Reached(c, all, got + r.value.rows, r.value.next) && |got| < |got + r.value.rows| <= |all|
          else got + r.value.rows == all)
  {
    hide Filter, Descending, Selects, ShowCursor, ParseCursor, PageOf, Faithful;
    var k := |got|;
    if cursor.Some? {
      RestOfTable(c, table, f, all, k);
    } else {
      assert all[k..] == all;
    }
    PageAdvances(c, all, k, PageSize(limit));
  }

  lemma PageAdvances(c: Codec, all: seq<Row>, k: nat, n: nat)
    requires k <= |all| && n > 0
    ensures var page := PageOf(c, all[k..], n); var k' := k + |page.rows|;
      && k' <= |all| && all[..k] + page.rows == all[..k']
      && (page.hasMore <==> page.next.Some?)
      && (page.hasMore ==> k < k' && page.next == Some(ShowCursor(c, all[..k'][k' - 1])))
      && (!page.hasMore ==> all[..k'] == all)
  {
    hide ShowCursor;
  }

  lemma RestOfTable(c: Codec, table: seq<Row>, f: Row -> bool, all: seq<Row>, k: nat)
    requires Faithful(c) && all == Filter(table, f) && Descending(all) && 0 < k <= |all|
    ensures var cursor := ShowCursor(c, all[k - 1]);
      && ParseCursor(c, cursor) == Ok(all[k - 1]) && cursor != ""
      && Filter(table, Selects(f, Some(all[k - 1]))) == all[k..]
  {
    CursorRoundTrip(c, all[k - 1]);
    SelectBelow(table, f, all[k - 1]);
    BelowIsRest(all, k);
  }
}
