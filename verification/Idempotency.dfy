/** The idempotency guard: an operation runs inside the same database transaction that
    reserves and completes its key. */
module Idempotency {
  import opened Basics

  datatype KeyStatus = Processing | Completed

  datatype KeyRow = KeyRow(requestHash: string, status: KeyStatus, response: string)

  /** The key table beside the rest of the database. */
  datatype Db<S> = Db(keys: map<string, KeyRow>, app: S)

  /** A guarded operation: the rest of the database and a response, or an error. */
  type Op<!S> = S -> Option<(S, string)>

  datatype Verdict = Created(response: string) | Replayed(response: string) | InProgress | KeyReused | Error

  /** Reserve, run, complete; or read what an earlier run left. An error rolls everything back. */
  function Execute<S>(db: Db<S>, key: string, hash: string, op: Op<S>): (Db<S>, Verdict) {
    if key !in db.keys then
      match op(db.app)
      case None => (db, Error)
      case Some((app, response)) =>
        (Db(db.keys[key := KeyRow(hash, Completed, response)], app), Created(response))
    else if db.keys[key].requestHash != hash then (db, KeyReused)
    else if db.keys[key].status != Completed then (db, InProgress)
    else (db, Replayed(db.keys[key].response))
  }

  class Guard<S(==)> {
    var db: Db<S>

    constructor (db: Db<S>)
      ensures this.db == db
    {
      this.db := db;
    }

    /** INSERT ... ON CONFLICT DO NOTHING */
    method Reserve(key: string, hash: string) returns (claimed: bool)
      modifies this
      ensures claimed <==> key !in old(db).keys
      ensures db == if claimed then old(db).(keys := old(db).keys[key := KeyRow(hash, Processing, "")]) else old(db)
    {
      if key in db.keys {
        return false;
      }
      db := db.(keys := db.keys[key := KeyRow(hash, Processing, "")]);
      return true;
    }

    method Complete(key: string, response: string)
      modifies this
      ensures db == if key in old(db).keys
                    then old(db).(keys := old(db).keys[key := old(db).keys[key].(response := response, status := Completed)])
                    else old(db)
    {
      if key in db.keys {
        db := db.(keys := db.keys[key := db.keys[key].(response := response, status := Completed)]);
      }
    }

    /** Guard.Execute */
    method Run(key: string, hash: string, op: Op<S>) returns (v: Verdict)
      modifies this
      ensures (db, v) == Execute(old(db), key, hash, op)
      ensures !v.Created? ==> db == old(db)
      ensures v.Created? ==>
        && key !in old(db).keys && op(old(db).app) == Some((db.app, v.response))
        && db.keys == old(db).keys[key := KeyRow(hash, Completed, v.response)]
      ensures v.Replayed? ==> key in old(db).keys && old(db).keys[key] == KeyRow(hash, Completed, v.response)
      ensures v == Error <==> key !in old(db).keys && op(old(db).app) == None
    {
      var begin := db;
      var claimed := Reserve(key, hash);
      if !claimed {
        var row := db.keys[key];
        if row.requestHash != hash {
          return KeyReused;
        }
        if row.status != Completed {
          return InProgress;
        }
        return Replayed(row.response);
      }
      var result := op(db.app);
      match result {
        case None =>
          db := begin;
          return Error;
        case Some((app, response)) =>
          db := db.(app := app);
          Complete(key, response);
          assert db.keys == begin.keys[key := KeyRow(hash, Completed, response)];
          return Created(response);
      }
    }
  }

  // ------------------------------------------------------------ runs

  datatype Event<!S> =
    | Exec(key: string, hash: string, op: Op<S>)
    | Elsewhere(app: S)              // any transaction that leaves the key table alone
    | Purge(gone: set<string>)       // SweepStaleProcessing, DeleteExpired, Release

  function After<S>(db: Db<S>, es: seq<Event<S>>): Db<S> {
    if es == [] then db
    else
      var d := After(db, es[..|es| - 1]);
      match es[|es| - 1]
      case Exec(key, hash, op) => Execute(d, key, hash, op).0
      case Elsewhere(app) => d.(app := app)
      case Purge(gone) => d.(keys := d.keys - gone)
  }

  /** What the n-th event, an execution, answered. */
  function Answer<S>(db: Db<S>, es: seq<Event<S>>, n: nat): Verdict
    requires n < |es| && es[n].Exec?
  {
    Execute(After(db, es[..n]), es[n].key, es[n].hash, es[n].op).1
  }

  ghost predicate Retained<S>(es: seq<Event<S>>, key: string, from: nat) {
    forall i :: from <= i < |es| && es[i].Purge? ==> key !in es[i].gone
  }

  lemma AfterStep<S>(db: Db<S>, es: seq<Event<S>>, n: nat)
    requires n < |es|
    ensures After(db, es[..n + 1]) ==
      match es[n]
      case Exec(key, hash, op) => Execute(After(db, es[..n]), key, hash, op).0
      case Elsewhere(app) => After(db, es[..n]).(app := app)
      case Purge(gone) => After(db, es[..n]).(keys := After(db, es[..n]).keys - gone)
  {
    assert es[..n + 1][..n] == es[..n];
  }

  /** A row stays as it is for as long as its key is retained. */
  lemma {:induction false} RowIsFrozen<S>(db: Db<S>, es: seq<Event<S>>, key: string, i: nat, j: nat)
    requires i <= j <= |es| && Retained(es, key, i) && key in After(db, es[..i]).keys
    ensures key in After(db, es[..j]).keys && After(db, es[..j]).keys[key] == After(db, es[..i]).keys[key]
    decreases j
  {
    if i < j {
      RowIsFrozen(db, es, key, i, j - 1);
      AfterStep(db, es, j - 1);
    }
  }

  /** No committed row written by the guard is in progress. */
  lemma {:induction false} NoneInProgress<S>(db: Db<S>, es: seq<Event<S>>, key: string)
    requires key in db.keys ==> db.keys[key].status == Completed
    ensures key in After(db, es).keys ==> After(db, es).keys[key].status == Completed
  {
    if es != [] {
      NoneInProgress(db, es[..|es| - 1], key);
    }
  }

  /** While the key is retained: once an execution has committed, every later call with the
      same hash gets exactly its response and changes nothing, and a call with another hash
      is refused; so the operation commits at most once. */
  lemma CommitsOnceThenReplays<S>(db: Db<S>, es: seq<Event<S>>, i: nat, j: nat)
    requires i < j < |es| && es[i].Exec? && es[j].Exec? && es[i].key == es[j].key
    requires Retained(es, es[i].key, i) && Answer(db, es, i).Created?
    ensures Answer(db, es, j) ==
            if es[j].hash == es[i].hash then Replayed(Answer(db, es, i).response) else KeyReused
    ensures After(db, es[..j + 1]) == After(db, es[..j])
  {
    AfterStep(db, es, i);
    RowIsFrozen(db, es, es[i].key, i + 1, j);
    AfterStep(db, es, j);
  }

  /** A purged key is free again: the next execution of an operation that succeeds commits. */
  lemma PurgedKeyIsFree<S>(db: Db<S>, es: seq<Event<S>>, gone: set<string>, key: string, hash: string, op: Op<S>)
    requires key in gone && op(After(db, es).app).Some?
    ensures Answer(db, es + [Purge(gone)] + [Exec(key, hash, op)], |es| + 1).Created?
  {
    var purged := es + [Purge(gone)];
    assert purged[..|es|] == es;
    assert (purged + [Exec(key, hash, op)])[..|es| + 1] == purged;
  }

  /** How many executions under a key committed. */
  function Commits<S>(db: Db<S>, es: seq<Event<S>>, key: string): nat {
    if es == [] then 0
    else
      var n := |es| - 1;
      Commits(db, es[..n], key)
      + (if es[n].Exec? && es[n].key == key && Answer(db, es, n).Created? then 1 else 0)
  }

  lemma {:induction false} CommitsAtMostOnce<S>(db: Db<S>, es: seq<Event<S>>, key: string)
    requires Retained(es, key, 0)
    ensures Commits(db, es, key) <= 1
    ensures Commits(db, es, key) == 1 <==> key !in db.keys && key in After(db, es).keys
    ensures key in db.keys ==> key in After(db, es).keys
  {
    if es != [] {
      CommitsAtMostOnce(db, es[..|es| - 1], key);
    }
  }

  // ------------------------------------------------------------ request hashes

  const UNIT_SEPARATOR: char := '\U{001F}'

  /** RequestHash feeds the digest with the parts joined by a separator. */
  function Join(parts: seq<string>): string {
    if parts == [] then ""
    else if |parts| == 1 then parts[0]
    else parts[0] + [UNIT_SEPARATOR] + Join(parts[1..])
  }

  method JoinParts(parts: seq<string>) returns (joined: string)
    ensures joined == Join(parts)
  {
    joined := "";
    assert parts[..0] == [];
    for i := 0 to |parts|
      invariant joined == Join(parts[..i])
    {
      JoinAppend(parts[..i], parts[i]);
      assert parts[..i + 1] == parts[..i] + [parts[i]];
      if i > 0 {
        joined := joined + [UNIT_SEPARATOR];
      }
      joined := joined + parts[i];
    }
    assert parts[..|parts|] == parts;
  }

  lemma {:induction false} JoinAppend(parts: seq<string>, p: string)
    ensures Join(parts + [p]) == if parts == [] then p else Join(parts) + [UNIT_SEPARATOR] + p
  {
    if parts == [] {
      assert parts + [p] == [p];
    } else {
      assert (parts + [p])[1..] == parts[1..] + [p];
      JoinAppend(parts[1..], p);
      if |parts| > 1 {
        assert Join(parts + [p]) == parts[0] + [UNIT_SEPARATOR] + (Join(parts[1..]) + [UNIT_SEPARATOR] + p);
      }
    }
  }

  ghost predicate Plain(parts: seq<string>) {
    forall i :: 0 <= i < |parts| ==> UNIT_SEPARATOR !in parts[i]
  }

  /** Requests with equally many parts, none holding the separator, are told apart. */
  lemma {:induction false} JoinInjective(a: seq<string>, b: seq<string>)
    requires |a| == |b| && Plain(a) && Plain(b) && Join(a) == Join(b)
    ensures a == b
  {
    if |a| >= 2 {
      SameHead(a[0], Join(a[1..]), b[0], Join(b[1..]));
      JoinInjective(a[1..], b[1..]);
      assert a == [a[0]] + a[1..] && b == [b[0]] + b[1..];
    }
  }

  /** The separator after x is the first one. */
  lemma FirstSeparator(x: string, s: string)
    requires UNIT_SEPARATOR !in x
    ensures var u := x + [UNIT_SEPARATOR] + s;
      u[|x|] == UNIT_SEPARATOR && u[..|x|] == x && u[|x| + 1..] == s
      && forall k :: 0 <= k < |x| ==> u[k] != UNIT_SEPARATOR
  {
    var u := x + [UNIT_SEPARATOR] + s;
    assert forall k :: 0 <= k < |x| ==> u[k] == x[k];
  }

  lemma SameHead(x: string, s: string, y: string, t: string)
    requires UNIT_SEPARATOR !in x && UNIT_SEPARATOR !in y
    requires x + [UNIT_SEPARATOR] + s == y + [UNIT_SEPARATOR] + t
    ensures x == y && s == t
  {
    FirstSeparator(x, s);
    FirstSeparator(y, t);
    assert |x| == |y|;
  }

  // How many separators a text holds, and all parts together.

  function Seps(s: string): nat {
    if s == "" then 0 else Seps(s[..|s| - 1]) + (if s[|s| - 1] == UNIT_SEPARATOR then 1 else 0)
  }

  function SumSeps(parts: seq<string>): nat {
    if parts == [] then 0 else Seps(parts[0]) + SumSeps(parts[1..])
  }

  lemma {:induction false} SepsConcat(s: string, t: string)
    ensures Seps(s + t) == Seps(s) + Seps(t)
  {
    if t == "" {
      assert s + t == s;
    } else {
      assert (s + t)[..|s + t| - 1] == s + t[..|t| - 1];
      SepsConcat(s, t[..|t| - 1]);
    }
  }

  lemma {:induction false} NoSeps(s: string)
    ensures Seps(s) == 0 <==> UNIT_SEPARATOR !in s
  {
    if s != "" {
      var front, last := s[..|s| - 1], s[|s| - 1];
      assert s == front + [last];
      NoSeps(front);
    }
  }

  lemma {:induction false} PlainHasNoSeps(parts: seq<string>)
    ensures SumSeps(parts) == 0 <==> Plain(parts)
  {
    if parts != [] {
      NoSeps(parts[0]);
      PlainHasNoSeps(parts[1..]);
      assert parts == [parts[0]] + parts[1..];
      assert Plain(parts) <==> UNIT_SEPARATOR !in parts[0] && Plain(parts[1..]) by {
        assert forall i :: 1 <= i < |parts| ==> parts[i] == parts[1..][i - 1];
      }
    }
  }

  /** Joining adds one separator between any two parts. */
  lemma {:induction false} SepsOfJoin(parts: seq<string>)
    requires parts != []
    ensures Seps(Join(parts)) == SumSeps(parts) + |parts| - 1
  {
    if |parts| == 1 {
      assert SumSeps(parts[1..]) == 0;
    } else {
      SepsOfJoin(parts[1..]);
      SepsConcat(parts[0] + [UNIT_SEPARATOR], Join(parts[1..]));
      SepsConcat(parts[0], [UNIT_SEPARATOR]);
      assert [UNIT_SEPARATOR][..0] == "";
    }
  }

  lemma JoinCons(p: string, parts: seq<string>)
    ensures Join([p] + parts) == if parts == [] then p else p + [UNIT_SEPARATOR] + Join(parts)
  {
    assert ([p] + parts)[1..] == parts;
  }

  lemma JoinHead(p: string, q: string, rest: seq<string>)
    ensures Join([p + q] + rest) == p + Join([q] + rest)
  {
    JoinCons(p + q, rest);
    JoinCons(q, rest);
    if rest != [] {
      assert p + q + [UNIT_SEPARATOR] + Join(rest) == p + (q + [UNIT_SEPARATOR] + Join(rest));
    }
  }

  lemma SplitAtSeparator(s: string) returns (x: string, y: string)
    requires UNIT_SEPARATOR in s
    ensures s == x + [UNIT_SEPARATOR] + y
  {
    var i :| 0 <= i < |s| && s[i] == UNIT_SEPARATOR;
    x, y := s[..i], s[i + 1..];
  }

  /** A cut moved to a separator inside a part gives another request with the same text. */
  lemma {:induction false} Collision(a: seq<string>) returns (b: seq<string>)
    requires |a| >= 2 && !Plain(a)
    ensures |b| == |a| && Join(b) == Join(a) && b != a
  {
    var tail := a[1..];
    assert a == [a[0]] + tail && tail == [a[1]] + a[2..];
    JoinCons(a[0], tail);
    if UNIT_SEPARATOR in a[0] {
      var x, y := SplitAtSeparator(a[0]);
      b := [x] + ([y + [UNIT_SEPARATOR] + a[1]] + a[2..]);
      JoinCons(x, [y + [UNIT_SEPARATOR] + a[1]] + a[2..]);
      JoinHead(y + [UNIT_SEPARATOR], a[1], a[2..]);
      assert Join(b) == x + [UNIT_SEPARATOR] + (y + [UNIT_SEPARATOR] + Join(tail));
      assert b[0] == x && |x| < |a[0]|;
    } else if |a| == 2 {
      assert UNIT_SEPARATOR in a[1];
      var x, y := SplitAtSeparator(a[1]);
      b := [a[0] + [UNIT_SEPARATOR] + x] + [y];
      JoinCons(a[0] + [UNIT_SEPARATOR] + x, [y]);
      assert Join([y]) == y && Join(tail) == a[1];
      assert b[1] == y && |y| < |a[1]|;
    } else {
      var i :| 0 <= i < |a| && UNIT_SEPARATOR in a[i];
      assert tail[i - 1] == a[i];
      var c := Collision(tail);
      b := [a[0]] + c;
      JoinCons(a[0], c);
      assert b[1..] == c;
    }
  }

  /** Two requests that differ and hash alike. */
  lemma SeparatorInPartCollides()
    ensures var a, b := [['\U{001F}'], "b"], ["", ['\U{001F}'] + "b"]; a != b && Join(a) == Join(b)
    ensures Join(["a", "b"]) == "a" + ['\U{001F}'] + "b"
  {
    var a, b := [[UNIT_SEPARATOR], "b"], ["", [UNIT_SEPARATOR] + "b"];
    assert a[0] != b[0];
    assert ["a", "b"][1..] == ["b"];
    assert a[1..] == ["b"] && b[1..] == [[UNIT_SEPARATOR] + "b"];
    assert Join(a) == [UNIT_SEPARATOR] + [UNIT_SEPARATOR] + "b";
    assert Join(b) == "" + [UNIT_SEPARATOR] + ([UNIT_SEPARATOR] + "b");
  }

  /** A request is told apart from every other one with equally many parts if and only if it
      has a single part at most, or none of its own parts holds the separator. */
  lemma ToldApartIff(a: seq<string>)
    ensures (forall b: seq<string> :: |b| == |a| && Join(b) == Join(a) ==> b == a) <==> |a| <= 1 || Plain(a)
  {
    hide Join;
    if |a| <= 1 || Plain(a) {
      forall b: seq<string> | |b| == |a| && Join(b) == Join(a) ensures b == a {
        PlainIsToldApart(a, b);
      }
    } else {
      var b := Collision(a);
    }
  }

  lemma PlainIsToldApart(a: seq<string>, b: seq<string>)
    requires (|a| <= 1 || Plain(a)) && |b| == |a| && Join(b) == Join(a)
    ensures b == a
  {
    if |a| >= 2 {
      SepsOfJoin(a);
      SepsOfJoin(b);
      PlainHasNoSeps(a);
      PlainHasNoSeps(b);
      JoinInjective(a, b);
    }
  }
}
