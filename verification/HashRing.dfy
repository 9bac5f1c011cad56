/** The consistent-hash ring that assigns outbox shards to relay workers. The hash
    is a parameter; positions of virtual nodes are taken to be pairwise distinct,
    since the source's sort leaves the order of equal positions open. */
module HashRing {
  import opened Sequences

  const VNODES_PER_WORKER: nat := 128
  const REPLICATION_FACTOR: nat := 2

  datatype Vnode = Vnode(pos: nat, worker: nat)

  type NodeHash = (nat, nat) -> nat     // worker, virtual node -> position
  type ShardHash = nat -> nat           // shard -> position

  ghost predicate DistinctPositions(h: NodeHash, n: nat) {
    forall w: nat, v: nat, w': nat, v': nat ::
      (w < n && w' < n && v < VNODES_PER_WORKER && v' < VNODES_PER_WORKER && h(w, v) == h(w', v')) ==>
      w == w' && v == v'
  }

  ghost predicate IsNode(h: NodeHash, n: nat, x: Vnode) {
    exists v :: 0 <= v < VNODES_PER_WORKER && x.worker < n && x.pos == h(x.worker, v)
  }

  ghost predicate StrictlySorted(r: seq<Vnode>) {
    forall i, j :: 0 <= i < j < |r| ==> r[i].pos < r[j].pos
  }

  /** The nodes of n workers in the order of their positions. */
  ghost predicate IsRing(r: seq<Vnode>, h: NodeHash, n: nat) {
    StrictlySorted(r) && forall x :: x in r <==> IsNode(h, n, x)
  }

  // ------------------------------------------------------------ sequences

  /** Each value once, in the order of first occurrence. */
  function Dedup(s: seq<nat>): (r: seq<nat>)
    ensures forall x :: x in r <==> x in s
    ensures NoDuplicates(r)
  {
    if s == [] then []
    else
      var d := Dedup(s[..|s| - 1]);
      if s[|s| - 1] in d then d else d + [s[|s| - 1]]
  }

  predicate NoDuplicates(s: seq<nat>) {
    forall i, j :: 0 <= i < j < |s| ==> s[i] != s[j]
  }

  function Workers(s: seq<Vnode>): (r: seq<nat>)
    ensures |r| == |s|
    ensures forall i :: 0 <= i < |s| ==> r[i] == s[i].worker
  {
    seq(|s|, i requires 0 <= i < |s| => s[i].worker)
  }

  function Ahead(at: nat): Vnode -> bool { (x: Vnode) => x.pos >= at }
  function Behind(at: nat): Vnode -> bool { (x: Vnode) => x.pos < at }
  function NotOf(w: nat): Vnode -> bool { (x: Vnode) => x.worker != w }
  function Not(w: nat): nat -> bool { (v: nat) => v != w }

  /** The ring read clockwise from a position, once around. */
  function Clockwise(r: seq<Vnode>, at: nat): seq<Vnode> {
    Filter(r, Ahead(at)) + Filter(r, Behind(at))
  }

  /** All workers in the order a walk from the position meets them. */
  function Meets(r: seq<Vnode>, at: nat): seq<nat> {
    Dedup(Workers(Clockwise(r, at)))
  }

  function Min(a: nat, b: nat): nat { if a < b then a else b }

  /** The owners of the shard at a position: the first distinct workers clockwise. */
  function Owners(r: seq<Vnode>, at: nat, n: nat): seq<nat> {
    if n <= 1 then [0]
    else var m := Meets(r, at); m[..Min(Min(REPLICATION_FACTOR, n), |m|)]
  }

  lemma {:induction false} FilterSorted(r: seq<Vnode>, p: Vnode -> bool)
    requires StrictlySorted(r)
    ensures StrictlySorted(Filter(r, p))
  {
    if r != [] {
      var front := r[..|r| - 1];
      FilterSorted(front, p);
      forall x | x in Filter(front, p) ensures x.pos < r[|r| - 1].pos {
        assert x in front;
      }
    }
  }

  /** A set of nodes has only one order by position. */
  lemma {:induction false} SortedUnique(a: seq<Vnode>, b: seq<Vnode>)
    requires StrictlySorted(a) && StrictlySorted(b) && forall x :: x in a <==> x in b
    ensures a == b
  {
    assert a != [] ==> a[0] in b;
    assert b != [] ==> b[0] in a;
    if a != [] && b != [] {
      var x, y := a[|a| - 1], b[|b| - 1];
      assert x in b && y in a;
      assert x == y;
      var a', b' := a[..|a| - 1], b[..|b| - 1];
      forall z ensures z in a' <==> z in b' {
        assert z in a' <==> z in a && z != x;
        assert z in b' <==> z in b && z != y;
      }
      SortedUnique(a', b');
    }
  }

  // ------------------------------------------------------------ how many owners

  ghost function Elements(s: seq<nat>): set<nat> {
    set x | x in s
  }

  lemma {:induction false} LengthIsSize(s: seq<nat>)
    requires NoDuplicates(s)
    ensures |Elements(s)| == |s|
  {
    if s != [] {
      var front, last := s[..|s| - 1], s[|s| - 1];
      LengthIsSize(front);
      assert Elements(s) == Elements(front) + {last};
      assert last !in front;
    }
  }

  ghost function Range(n: nat): (r: set<nat>)
    ensures |r| == n
    ensures forall x: nat :: x in r <==> x < n
  {
    if n == 0 then {} else Range(n - 1) + {n - 1}
  }

  /** Once around, the walk meets every worker and nobody else. */
  lemma WalkMeetsEveryWorker(r: seq<Vnode>, h: NodeHash, n: nat, at: nat)
    requires IsRing(r, h, n)
    ensures |Meets(r, at)| == n && NoDuplicates(Meets(r, at))
    ensures forall w: nat :: w in Meets(r, at) <==> w < n
  {
    var c := Clockwise(r, at);
    var ws := Workers(c);
    forall w: nat ensures w in ws <==> w < n {
      if w < n {
        var x := Vnode(h(w, 0), w);
        assert IsNode(h, n, x);
        assert x in r && x in c;
        var i :| 0 <= i < |c| && c[i] == x;
        assert ws[i] == w;
      }
      if w in ws {
        var i :| 0 <= i < |ws| && ws[i] == w;
        assert c[i] in r;
        assert IsNode(h, n, c[i]);
      }
    }
    LengthIsSize(Meets(r, at));
    assert Elements(Meets(r, at)) == Range(n);
  }

  /** Every shard has exactly min(2, workers) owners: distinct and in range. */
  lemma OwnersCount(r: seq<Vnode>, h: NodeHash, n: nat, at: nat)
    requires n >= 1 && IsRing(r, h, n)
    ensures |Owners(r, at, n)| == if n == 1 then 1 else 2
    ensures NoDuplicates(Owners(r, at, n))
    ensures forall w: nat :: w in Owners(r, at, n) ==> w < n
  {
    WalkMeetsEveryWorker(r, h, n, at);
    forall w: nat | w in Owners(r, at, n) ensures w < n {
      if n > 1 { assert w in Meets(r, at); }
    }
  }

  // ------------------------------------------------------------ scaling out

  lemma OldRingIsFiltered(r: seq<Vnode>, r': seq<Vnode>, h: NodeHash, n: nat)
    requires IsRing(r, h, n) && IsRing(r', h, n + 1)
    ensures Filter(r', NotOf(n)) == r
  {
    var f := Filter(r', NotOf(n));
    FilterSorted(r', NotOf(n));
    forall x ensures x in f <==> x in r {
      assert x in r' <==> IsNode(h, n + 1, x);
      assert x in r <==> IsNode(h, n, x);
    }
    SortedUnique(f, r);
  }

  lemma ClockwiseCommutes(r: seq<Vnode>, at: nat, p: Vnode -> bool)
    ensures Filter(Clockwise(r, at), p) == Clockwise(Filter(r, p), at)
  {
    var ahead, behind := Ahead(at), Behind(at);
    FilterConcat(Filter(r, ahead), Filter(r, behind), p);
    FilterCommutes(r, ahead, p);
    FilterCommutes(r, behind, p);
  }

  lemma {:induction false} WorkersCommute(s: seq<Vnode>, w: nat)
    ensures Workers(Filter(s, NotOf(w))) == Filter(Workers(s), Not(w))
  {
    if s != [] {
      var front, last := s[..|s| - 1], s[|s| - 1];
      WorkersCommute(front, w);
      assert Workers(s)[..|s| - 1] == Workers(front);
      var p := NotOf(w);
      assert Workers(Filter(s, p)) == Workers(Filter(front, p)) + (if p(last) then [last.worker] else []);
    }
  }

  lemma {:induction false} DedupCommutes(s: seq<nat>, w: nat)
    ensures Dedup(Filter(s, Not(w))) == Filter(Dedup(s), Not(w))
  {
    if s != [] {
      var p := Not(w);
      var front, last := s[..|s| - 1], s[|s| - 1];
      DedupCommutes(front, w);
      var kept := Filter(front, p);
      if last == w {
        assert Filter(s, p) == kept;
        if last !in Dedup(front) { FilterConcat(Dedup(front), [last], p); }
      } else {
        assert Filter(s, p) == kept + [last];
        assert (kept + [last])[..|kept|] == kept;
        if last !in Dedup(front) { FilterConcat(Dedup(front), [last], p); }
      }
    }
  }

  /** With the new worker removed, a walk on the grown ring meets what the old walk met. */
  lemma MeetsCommutes(r: seq<Vnode>, r': seq<Vnode>, h: NodeHash, n: nat, at: nat)
    requires IsRing(r, h, n) && IsRing(r', h, n + 1)
    ensures Meets(r, at) == Filter(Meets(r', at), Not(n))
  {
    var p := NotOf(n);
    OldRingIsFiltered(r, r', h, n);
    ClockwiseCommutes(r', at, p);
    WorkersCommute(Clockwise(r', at), n);
    DedupCommutes(Workers(Clockwise(r', at)), n);
  }

  /** Removing one value from a duplicate-free list costs one place if it was there. */
  lemma {:induction false} WithoutLength(s: seq<nat>, w: nat)
    requires NoDuplicates(s)
    ensures |Filter(s, Not(w))| == |s| - (if w in s then 1 else 0)
  {
    if s != [] {
      WithoutLength(s[..|s| - 1], w);
    }
  }

  /** The first two of a list, against the first two of the list without one value. */
  lemma FirstTwoWithout(m: seq<nat>, m': seq<nat>, n: nat)
    requires NoDuplicates(m') && |m'| >= 2 && m == Filter(m', Not(n))
    ensures var new_ := m'[..2]; var rest := Filter(new_, Not(n));
      && |rest| <= |m| && rest == m[..|rest|]
      && if n in new_ then |rest| == 1 else rest == new_
  {
    var p := Not(n);
    assert m' == m'[..2] + m'[2..];
    FilterConcat(m'[..2], m'[2..], p);
    WithoutLength(m'[..2], n);
    if n !in m'[..2] {
      FilterAll(m'[..2], p);
    }
  }

  /** Growing from n to n + 1 workers never moves a shard between two existing workers:
      its owners are unchanged, or the new worker joins and only the last one leaves. */
  lemma ScaleOutOnlyAddsNewWorker(r: seq<Vnode>, r': seq<Vnode>, h: NodeHash, n: nat, at: nat)
    requires n >= 1 && IsRing(r, h, n) && IsRing(r', h, n + 1)
    ensures var old_, new_ := Owners(r, at, n), Owners(r', at, n + 1);
      var rest := Filter(new_, Not(n));
      if n == 1 then rest == old_ && n in new_
      else new_ == old_ || (n in new_ && 0 < |old_| && rest == old_[..|old_| - 1])
  {
    hide Filter, IsRing, Meets, NoDuplicates, Not;
    var m, m' := Meets(r, at), Meets(r', at);
    WalkMeetsEveryWorker(r, h, n, at);
    WalkMeetsEveryWorker(r', h, n + 1, at);
    MeetsCommutes(r, r', h, n, at);
    FirstTwoWithout(m, m', n);
    assert Owners(r', at, n + 1) == m'[..2];
    if n == 1 {
      assert m == [m[0]] && m[0] in m;
      assert n in m' && m'[..2] == m';
    } else {
      assert Owners(r, at, n) == m[..2];
      assert m[..2][..1] == m[..1];
    }
  }

  // ------------------------------------------------------------ the code

  ghost predicate DistinctPos(s: seq<Vnode>) {
    forall i, j :: 0 <= i < j < |s| ==> s[i].pos != s[j].pos
  }

  /** Stands for sort.Slice by position, on distinct positions. */
  method SortByPosition(s: seq<Vnode>) returns (r: seq<Vnode>)
    requires DistinctPos(s)
    ensures StrictlySorted(r) && |r| == |s| && forall x :: x in r <==> x in s
  {
    r := [];
    for i := 0 to |s|
      invariant StrictlySorted(r) && |r| == i && forall x :: x in r <==> x in s[..i]
    {
      var j := i;
      while j > 0 && r[j - 1].pos > s[i].pos
        invariant 0 <= j <= i
        invariant forall k :: j <= k < i ==> r[k].pos > s[i].pos
      {
        j := j - 1;
      }
      assert j > 0 ==> r[j - 1] in s[..i];
      InsertKeepsOrder(r, s[i], j);
      InsertAddsOne(r, s[i], j);
      assert s[..i + 1] == s[..i] + [s[i]];
      r := r[..j] + [s[i]] + r[j..];
    }
    assert s[..|s|] == s;
  }

  lemma InsertKeepsOrder(r: seq<Vnode>, x: Vnode, j: nat)
    requires StrictlySorted(r) && j <= |r|
    requires (forall k :: j <= k < |r| ==> r[k].pos > x.pos) && (j > 0 ==> r[j - 1].pos < x.pos)
    ensures StrictlySorted(r[..j] + [x] + r[j..])
  {
    var t := r[..j] + [x] + r[j..];
    forall a, b | 0 <= a < b < |t| ensures t[a].pos < t[b].pos {
      assert a < j ==> t[a] == r[a] && r[a].pos <= r[j - 1].pos;
      assert b > j ==> t[b] == r[b - 1];
      assert a > j ==> t[a] == r[a - 1];
      assert b < j ==> t[b] == r[b];
    }
  }

  lemma InsertAddsOne(r: seq<Vnode>, x: Vnode, j: nat)
    requires j <= |r|
    ensures forall y :: y in r[..j] + [x] + r[j..] <==> y in r || y == x
  {
    assert r == r[..j] + r[j..];
  }

  /** sort.Search: the first index whose position is at least the given one. */
  method Search(r: seq<Vnode>, at: nat) returns (i: nat)
    requires StrictlySorted(r)
    ensures i <= |r|
    ensures forall k :: 0 <= k < i ==> r[k].pos < at
    ensures forall k :: i <= k < |r| ==> r[k].pos >= at
  {
    i := 0;
    var j := |r|;
    while i < j
      invariant i <= j <= |r|
      invariant forall k :: 0 <= k < i ==> r[k].pos < at
      invariant forall k :: j <= k < |r| ==> r[k].pos >= at
    {
      var mid := (i + j) / 2;
      if r[mid].pos < at {
        i := mid + 1;
      } else {
        j := mid;
      }
    }
  }

  lemma FilterSplit(r: seq<Vnode>, i: nat, p: Vnode -> bool, q: Vnode -> bool)
    requires i <= |r|
    requires forall k :: 0 <= k < i ==> p(r[k]) && !q(r[k])
    requires forall k :: i <= k < |r| ==> q(r[k]) && !p(r[k])
    ensures Filter(r, p) == r[..i] && Filter(r, q) == r[i..]
  {
    hide Filter;
    assert r == r[..i] + r[i..];
    FilterConcat(r[..i], r[i..], p);
    FilterConcat(r[..i], r[i..], q);
    FilterAll(r[..i], p);
    FilterNone(r[i..], p);
    FilterNone(r[..i], q);
    FilterAll(r[i..], q);
  }

  lemma RotationIsClockwise(r: seq<Vnode>, at: nat, i: nat)
    requires i <= |r|
    requires forall k :: 0 <= k < i ==> r[k].pos < at
    requires forall k :: i <= k < |r| ==> r[k].pos >= at
    ensures Clockwise(r, at) == r[i..] + r[..i]
  {
    FilterSplit(r, i, Behind(at), Ahead(at));
  }

  /** A longer walk only adds to what was met. */
  lemma {:induction false} DedupPrefix(s: seq<nat>, k: nat)
    requires k <= |s|
    ensures Dedup(s[..k]) <= Dedup(s)
  {
    if k < |s| {
      assert s[..|s| - 1][..k] == s[..k];
      DedupPrefix(s[..|s| - 1], k);
    } else {
      assert s[..k] == s;
    }
  }

  /** The nodes appended before worker w's node v. */
  ghost predicate AppendedBefore(h: NodeHash, w: nat, v: nat, x: Vnode) {
    exists u :: 0 <= u < VNODES_PER_WORKER && (x.worker < w || (x.worker == w && u < v)) && x.pos == h(x.worker, u)
  }

  /** The nodes of all workers. */
  method BuildNodes(h: NodeHash, n: nat) returns (nodes: seq<Vnode>)
    requires DistinctPositions(h, n)
    ensures DistinctPos(nodes) && |nodes| == n * 128
    ensures forall x :: x in nodes <==> IsNode(h, n, x)
  {
    nodes := [];
    for w := 0 to n
      invariant DistinctPos(nodes) && |nodes| == w * VNODES_PER_WORKER
      invariant forall x :: x in nodes <==> AppendedBefore(h, w, 0, x)
    {
      for v := 0 to VNODES_PER_WORKER
        invariant DistinctPos(nodes) && |nodes| == w * VNODES_PER_WORKER + v
        invariant forall x :: x in nodes <==> AppendedBefore(h, w, v, x)
      {
        AppendOne(h, n, w, v, nodes);
        nodes := nodes + [Vnode(h(w, v), w)];
      }
      NextWorker(h, w);
    }
    AllAppended(h, n);
  }

  lemma AppendOne(h: NodeHash, n: nat, w: nat, v: nat, nodes: seq<Vnode>)
    requires DistinctPositions(h, n) && w < n && v < VNODES_PER_WORKER
    requires forall x :: x in nodes <==> AppendedBefore(h, w, v, x)
    ensures forall i :: 0 <= i < |nodes| ==> nodes[i].pos != h(w, v)
    ensures forall x :: x in nodes + [Vnode(h(w, v), w)] <==> AppendedBefore(h, w, v + 1, x)
  {
    forall i | 0 <= i < |nodes| ensures nodes[i].pos != h(w, v) {
      assert nodes[i] in nodes && AppendedBefore(h, w, v, nodes[i]);
    }
    forall x ensures x in nodes + [Vnode(h(w, v), w)] <==> AppendedBefore(h, w, v + 1, x) {
      if AppendedBefore(h, w, v + 1, x) && x != Vnode(h(w, v), w) {
        assert AppendedBefore(h, w, v, x);
      }
      if x == Vnode(h(w, v), w) {
        assert 0 <= v < VNODES_PER_WORKER && (x.worker == w && v < v + 1) && x.pos == h(x.worker, v);
      }
    }
  }

  lemma NextWorker(h: NodeHash, w: nat)
    ensures forall x :: AppendedBefore(h, w, VNODES_PER_WORKER, x) <==> AppendedBefore(h, w + 1, 0, x)
  {
  }

  lemma AllAppended(h: NodeHash, n: nat)
    ensures forall x :: AppendedBefore(h, n, 0, x) <==> IsNode(h, n, x)
  {
  }

  /** Where the walk stands after some steps. */
  function At(start: nat, steps: nat, len: nat): int {
    var i := start + steps;
    if i < len then i else if i < 2 * len then i - len else i - 2 * len
  }

  lemma WalkPosition(r: seq<Vnode>, start: nat, steps: nat)
    requires start <= |r| && steps < |r|
    ensures 0 <= At(start, steps, |r|) < |r|
    ensures (r[start..] + r[..start])[steps] == r[At(start, steps, |r|)]
    ensures At(start, steps + 1, |r|)
         == if At(start, steps, |r|) + 1 == |r| then 0 else At(start, steps, |r|) + 1
  {
  }

  lemma DedupStep(ws: seq<nat>, k: nat)
    requires k < |ws|
    ensures Dedup(ws[..k + 1]) == if ws[k] in Dedup(ws[..k]) then Dedup(ws[..k]) else Dedup(ws[..k]) + [ws[k]]
  {
    assert ws[..k + 1][..k] == ws[..k];
  }

  /** The wrap-around walk of replicaSets: it ends, with exactly the owners. */
  method Walk(r: seq<Vnode>, ghost h: NodeHash, n: nat, at: nat) returns (owners: seq<nat>)
    requires n >= 2 && IsRing(r, h, n)
    ensures owners == Owners(r, at, n)
  {
    var idx := Search(r, at);
    RotationIsClockwise(r, at, idx);
    WalkMeetsEveryWorker(r, h, n, at);
    owners := WalkFrom(r, idx, Min(REPLICATION_FACTOR, n), Workers(Clockwise(r, at)));
  }

  /** The walk from an index of the ring, collecting workers it has not seen. */
  method WalkFrom(r: seq<Vnode>, start: nat, rf: nat, ghost ws: seq<nat>) returns (owners: seq<nat>)
    requires start <= |r| && ws == Workers(r[start..] + r[..start]) && 0 < rf <= |Dedup(ws)|
    ensures owners == Dedup(ws)[..rf]
  {
    DedupEmpty();
    assert ws[..0] == [] && (ws == [] ==> Dedup(ws) == []);
    StartPosition(start, |r|);
    hide Dedup, At;
    var idx := start;
    if idx == |r| {
      idx := 0;
    }
    owners := [];
    var seen: set<nat> := {};
    ghost var steps := 0;
    while |owners| < rf
      invariant 0 <= steps <= |r| && idx < |r| && idx == At(start, steps, |r|)
      invariant owners == Dedup(ws[..steps]) && |owners| <= rf
      invariant forall w :: w in seen <==> w in owners
      decreases |r| - steps
    {
      WalkStep(r, ws, start, steps, rf);
      var w := r[idx].worker;
      if w !in seen {
        seen := seen + {w};
        owners := owners + [w];
      }
      idx := idx + 1;
      if idx == |r| {
        idx := 0;
      }
      steps := steps + 1;
    }
    DedupPrefix(ws, steps);
  }

  lemma StartPosition(start: nat, len: nat)
    requires start <= len
    ensures At(start, 0, len) == if start == len then 0 else start
  {
  }

  /** One step of the walk: the end is not reached, and the next worker is met. */
  lemma WalkStep(r: seq<Vnode>, ws: seq<nat>, start: nat, steps: nat, rf: nat)
    requires start <= |r| && steps <= |ws| && ws == Workers(r[start..] + r[..start])
    requires |Dedup(ws[..steps])| < rf <= |Dedup(ws)|
    ensures steps < |ws| == |r|
    ensures var i := At(start, steps, |r|);
      && 0 <= i < |r| && ws[steps] == r[i].worker
      && At(start, steps + 1, |r|) == (if i + 1 == |r| then 0 else i + 1)
    ensures Dedup(ws[..steps + 1]) == if ws[steps] in Dedup(ws[..steps]) then Dedup(ws[..steps]) else Dedup(ws[..steps]) + [ws[steps]]
  {
    hide Dedup, At;
    StillWalking(ws, steps, rf);
    WalkPosition(r, start, steps);
    DedupStep(ws, steps);
  }

  lemma DedupEmpty()
    ensures Dedup([]) == []
  {
  }

  lemma StillWalking(ws: seq<nat>, steps: nat, rf: nat)
    requires steps <= |ws| && |Dedup(ws[..steps])| < rf <= |Dedup(ws)|
    ensures steps < |ws|
  {
    assert ws[..|ws|] == ws;
  }

  lemma SortedNodesAreRing(r: seq<Vnode>, nodes: seq<Vnode>, h: NodeHash, n: nat)
    requires StrictlySorted(r) && forall x :: x in r <==> x in nodes
    requires forall x :: x in nodes <==> IsNode(h, n, x)
    ensures IsRing(r, h, n)
  {
  }

  /** replicaSets: the owners of every shard. */
  method ReplicaSets(h: NodeHash, g: ShardHash, workerCount: int, shardCount: nat) returns (sets: seq<seq<nat>>, ghost ring: seq<Vnode>)
    requires workerCount > 1 ==> DistinctPositions(h, workerCount)
    ensures workerCount > 1 ==> IsRing(ring, h, workerCount)
    ensures |sets| == shardCount
    ensures forall s :: 0 <= s < shardCount ==>
              sets[s] == if workerCount <= 1 then [0] else Owners(ring, g(s), workerCount)
  {
    hide Owners, IsNode, DistinctPositions, DistinctPos, StrictlySorted;
    sets := [];
    ring := [];
    if workerCount <= 1 {
      for s := 0 to shardCount
        invariant |sets| == s && forall i :: 0 <= i < s ==> sets[i] == [0]
      {
        sets := sets + [[0]];
      }
      return;
    }
    var nodes := BuildNodes(h, workerCount);
    var r := SortByPosition(nodes);
    ring := r;
    SortedNodesAreRing(r, nodes, h, workerCount);
    hide IsRing;
    for s := 0 to shardCount
      invariant |sets| == s && forall i :: 0 <= i < s ==> sets[i] == Owners(r, g(i), workerCount)
    {
      var owners := Walk(r, h, workerCount, g(s));
      sets := sets + [owners];
    }
  }

  /** OwnedShards: the shards a worker polls, in increasing order. */
  method OwnedShards(h: NodeHash, g: ShardHash, worker: nat, workerCount: int, shardCount: nat)
    returns (owned: seq<nat>, ghost ring: seq<Vnode>)
    requires workerCount > 1 ==> DistinctPositions(h, workerCount)
    ensures OwnedAre(h, g, worker, workerCount, shardCount, owned, ring)
    ensures forall i, j :: 0 <= i < j < |owned| ==> owned[i] < owned[j]
  {
    var sets;
    sets, ring := ReplicaSets(h, g, workerCount, shardCount);
    owned := [];
    for s := 0 to shardCount
      invariant forall i, j :: 0 <= i < j < |owned| ==> owned[i] < owned[j]
      invariant forall i :: 0 <= i < |owned| ==> owned[i] < s
      invariant forall i: nat :: i in owned <==> i < s && worker in sets[i]
    {
      if worker in sets[s] {
        owned := owned + [s];
      }
    }
  }

  /** What OwnedShards hands to one worker, by the ring it built. */
  ghost predicate OwnedAre(h: NodeHash, g: ShardHash, worker: nat, workerCount: int, shardCount: nat, owned: seq<nat>, ring: seq<Vnode>) {
    && (workerCount > 1 ==> IsRing(ring, h, workerCount))
    && forall s: nat :: s in owned <==>
         s < shardCount && worker in (if workerCount <= 1 then [0] else Owners(ring, g(s), workerCount))
  }

  /** ShardIndex on a 32-bit hash of the aggregate id. */
  function ShardIndex(hash: nat, shardCount: nat): (s: nat)
    requires 2 <= shardCount < 0x1_0000_0000
    ensures s < shardCount && exists q: nat :: hash == q * shardCount + s
  {
    assert hash == (hash / shardCount) * shardCount + hash % shardCount;
    hash % shardCount
  }

  /** All workers build the same ring. */
  lemma SameRing(r: seq<Vnode>, r': seq<Vnode>, h: NodeHash, n: nat)
    requires IsRing(r, h, n) && IsRing(r', h, n)
    ensures r == r'
  {
    forall x ensures x in r <==> x in r' {
      assert x in r <==> IsNode(h, n, x);
      assert x in r' <==> IsNode(h, n, x);
    }
    SortedUnique(r, r');
  }

  /** A worker polls a shard exactly if it is one of its owners on the first worker's ring. */
  lemma PolledIffOwner(h: NodeHash, g: ShardHash, n: nat, shardCount: nat, polled: seq<seq<nat>>, rings: seq<seq<Vnode>>, s: nat, w: nat)
    requires n >= 2 && |polled| == |rings| == n && w < n && s < shardCount
    requires forall v :: 0 <= v < n ==> OwnedAre(h, g, v, n, shardCount, polled[v], rings[v])
    ensures s in polled[w] <==> w in Owners(rings[0], g(s), n)
  {
    hide IsRing, Owners;
    assert OwnedAre(h, g, w, n, shardCount, polled[w], rings[w]) && OwnedAre(h, g, 0, n, shardCount, polled[0], rings[0]);
    SameRing(rings[w], rings[0], h, n);
  }

  /** The shard of every written event is in the sets that OwnedShards returns to exactly
      min(2, workers) of the workers. */
  lemma EveryEventIsPolled(h: NodeHash, g: ShardHash, n: nat, shardCount: nat, hash: nat, polled: seq<seq<nat>>, rings: seq<seq<Vnode>>)
    requires n >= 1 && 2 <= shardCount < 0x1_0000_0000 && |polled| == |rings| == n
    requires forall w :: 0 <= w < n ==> OwnedAre(h, g, w, n, shardCount, polled[w], rings[w])
    ensures |set w | 0 <= w < n && ShardIndex(hash, shardCount) in polled[w]| == if n == 1 then 1 else 2
  {
    var s := ShardIndex(hash, shardCount);
    if n == 1 {
      assert OwnedAre(h, g, 0, n, shardCount, polled[0], rings[0]);
      assert (set w | 0 <= w < n && s in polled[w]) == {0};
    } else {
      hide IsRing, Owners;
      assert OwnedAre(h, g, 0, n, shardCount, polled[0], rings[0]);
      var os := Owners(rings[0], g(s), n);
      OwnersCount(rings[0], h, n, g(s));
      LengthIsSize(os);
      forall w | 0 <= w < n ensures s in polled[w] <==> w in os {
        PolledIffOwner(h, g, n, shardCount, polled, rings, s, w);
      }
      assert (set w | 0 <= w < n && s in polled[w]) == Elements(os);
    }
  }
}
