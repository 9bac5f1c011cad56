/** The transactional outbox, its relay workers and its weekly partitions. Any number
    of workers claim, publish and mark rows, and may stop at any point; a separate job
    creates, detaches and drops partitions by their week. */
module Outbox {
  import opened Basics
  import opened IsoWeek

  datatype RowStatus = Pending | Publishing | Published | Failed

  /** One row of outbox_events; partition None is the default partition. */
  datatype Row = Row(
    payload: string,
    shard: nat,
    createdAt: nat,
    status: RowStatus,
    attempts: nat,
    lockedAt: Option<nat>,
    nextAttempt: int,
    partition: Option<string>
  )

  datatype Stage = Claimed | Delivered | Refused

  /** An event a worker polled, as the worker remembers it. */
  datatype Held = Held(event: nat, payload: string, attempts: nat, stage: Stage)

  datatype DeadLetter = DeadLetter(event: nat, payload: string)

  datatype PartitionState = Attached | Detached | Dropped
  datatype Partition = Partition(start: nat, end: nat, state: PartitionState)

  datatype LogEntry = LogDetach(name: string, at: nat) | LogDrop(name: string)

  /** What CountUnpublished saw in one partition of the database as it was at a time. */
  datatype Count = Count(name: string, at: nat, unpublished: nat)

  datatype System = System(
    now: nat,
    rows: seq<Row>,                 // an event's id is its position
    held: seq<Held>,
    delivered: set<(nat, string)>,  // event and payload of every successful publish
    letters: seq<DeadLetter>,
    parts: map<string, Partition>,
    log: seq<LogEntry>,
    counts: set<Count>,
    maxOpen: nat                    // how long a writing transaction may stay open; never changes
  )

  /** replicaLag bounds the age of what the replica shows that CountUnpublished reads from, and
      maxOpen how long a transaction that writes an event may stay open. */
  datatype Config = Config(claimTTL: nat, maxAttempts: nat, retentionWeeks: nat, dropAfter: nat, replicaLag: nat, maxOpen: nat)

  // ------------------------------------------------------------ outbox writer

  /** The partition of an event created at a time: that of its week if it is attached. */
  function Target(s: System, created: nat): Option<string> {
    var name := PartitionName(WeekStart(created));
    if name in s.parts && s.parts[name].state == Attached then Some(name) else None
  }

  /** The commit of a transaction that wrote an event. The event's creation time is that of the
      transaction's beginning. A detachment waits for writers that already inserted, so the
      partition is still attached at the commit, or the insert went to the default one. */
  function Insert(s: System, payload: string, shard: nat, begin: nat, next: Option<int>): System {
    s.(rows := s.rows + [Row(payload, shard, begin, Pending, 0, None, next.GetOr(begin), Target(s, begin))])
  }

  /** Statements on outbox_events see attached partitions and the default one. */
  predicate Visible(s: System, r: Row) {
    r.partition.Some? ==> r.partition.value in s.parts && s.parts[r.partition.value].state == Attached
  }

  predicate Claimable(s: System, cfg: Config, r: Row, shards: set<nat>) {
    && Visible(s, r) && r.shard in shards && r.nextAttempt <= s.now
    && (r.status == Pending
        || (r.status == Publishing && r.lockedAt.Some? && r.lockedAt.value < s.now - cfg.claimTTL))
  }

  function SetRow(s: System, id: nat, r: Row): System
    requires id < |s.rows|
  {
    s.(rows := s.rows[id := r])
  }

  /** PollPending, one row: claim it and remember it. */
  function Poll(s: System, id: nat): System
    requires id < |s.rows|
  {
    var r := s.rows[id];
    SetRow(s, id, r.(status := Publishing, lockedAt := Some(s.now)))
      .(held := s.held + [Held(id, r.payload, r.attempts, Claimed)])
  }

  predicate Markable(s: System, id: nat) {
    id < |s.rows| && Visible(s, s.rows[id]) && s.rows[id].status == Publishing
  }

  function MarkPublished(s: System, id: nat): System {
    if Markable(s, id) then SetRow(s, id, s.rows[id].(status := Published, lockedAt := None)) else s
  }

  function MarkFailed(s: System, id: nat, nextAttempt: int): System {
    if Markable(s, id) then
      SetRow(s, id, s.rows[id].(status := Pending, attempts := s.rows[id].attempts + 1,
                                nextAttempt := nextAttempt, lockedAt := None))
    else s
  }

  /** The row and its dead letter change together. */
  function MarkExhausted(s: System, id: nat): System {
    if Markable(s, id) then
      SetRow(s, id, s.rows[id].(status := Failed, lockedAt := None))
        .(letters := s.letters + [DeadLetter(id, s.rows[id].payload)])
    else s
  }

  /** The worker hears from the publisher. */
  function Answer(s: System, k: nat, ok: bool): System
    requires k < |s.held|
  {
    var h := s.held[k];
    s.(held := s.held[k := h.(stage := if ok then Delivered else Refused)],
       delivered := if ok then s.delivered + {(h.event, h.payload)} else s.delivered)
  }

  /** The marking half of processEvent. */
  function Mark(s: System, cfg: Config, k: nat, nextAttempt: int): System
    requires k < |s.held|
  {
    var h := s.held[k];
    match h.stage
    case Claimed => s
    case Delivered => MarkPublished(s, h.event)
    case Refused =>
      if h.attempts + 1 >= cfg.maxAttempts then MarkExhausted(s, h.event) else MarkFailed(s, h.event, nextAttempt)
  }

  // ------------------------------------------------------------ partition manager

  /** CREATE TABLE IF NOT EXISTS ... PARTITION OF for one week. */
  function Create(s: System, start: nat): System {
    var name := PartitionName(start);
    if !ValidName(name) || (name in s.parts && s.parts[name].state != Dropped) then s
    else s.(parts := s.parts[name := Partition(start, start + WEEK, Attached)])
  }

  predicate Unpublished(r: Row) {
    r.status != Published
  }

  function CountIn(rows: seq<Row>, name: string): nat {
    if rows == [] then 0
    else CountIn(rows[..|rows| - 1], name)
         + (var r := rows[|rows| - 1]; if r.partition == Some(name) && Unpublished(r) then 1 else 0)
  }

  function Observe(s: System, name: string): System {
    s.(counts := s.counts + {Count(name, s.now, CountIn(s.rows, name))})
  }

  /** detachStale's test of one name: old enough, and an observed count of zero. */
  predicate MayDetach(cfg: Config, clock: nat, c: Count) {
    var end := WeekEndFromName(c.name);
    end.Some? && end.value < WeekStart(clock) - WEEK * cfg.retentionWeeks && c.unpublished == 0 && ValidName(c.name)
  }

  function Detach(s: System, name: string): System {
    if name in s.parts && s.parts[name].state == Attached then
      s.(parts := s.parts[name := s.parts[name].(state := Detached)])
    else s
  }

  /** PartitionsDetachedBefore. */
  predicate DropDue(s: System, name: string, cutoff: int) {
    (exists i :: 0 <= i < |s.log| && s.log[i].LogDetach? && s.log[i].name == name && s.log[i].at < cutoff)
    && LogDrop(name) !in s.log
  }

  function Drop(s: System, name: string): System {
    if name in s.parts then s.(parts := s.parts[name := s.parts[name].(state := Dropped)]) else s
  }

  // ------------------------------------------------------------ actions

  datatype Action =
    | Tick(seconds: nat)
    | Write(payload: string, shard: nat, begin: nat, next: Option<int>)
    | ReplayLetter(letter: nat, shard: nat, begin: nat)
    | PollRow(id: nat, shards: set<nat>)
    | PublisherAnswers(k: nat, ok: bool)
    | MarkRow(k: nat, nextAttempt: int)
    | CreatePartition(start: nat)
    | CountUnpublished(name: string)
    | DetachPartition(count: Count, clock: nat)
    | LogDetached(name: string)
    | DropPartition(name: string)
    | LogDropped(name: string)

  /** A count may come from a lagging replica. */
  ghost predicate Enabled(s: System, cfg: Config, a: Action) {
    match a
    case Write(_, _, begin, _) => begin <= s.now <= begin + s.maxOpen
    case ReplayLetter(l, _, begin) => l < |s.letters| && begin <= s.now <= begin + s.maxOpen
    case PollRow(id, shards) => id < |s.rows| && Claimable(s, cfg, s.rows[id], shards)
    case PublisherAnswers(k, _) => k < |s.held| && s.held[k].stage == Claimed
    case MarkRow(k, _) => k < |s.held|
    case CreatePartition(start) => start == WeekStart(start) && start >= WeekStart(s.now)
    case DetachPartition(c, clock) =>
      c in s.counts && clock <= s.now && MayDetach(cfg, clock, c) && c.at + cfg.replicaLag >= clock
    case LogDetached(name) => name in s.parts && s.parts[name].state == Detached
    case DropPartition(name) => DropDue(s, name, s.now - cfg.dropAfter)
    case _ => true
  }

  function Apply(s: System, cfg: Config, a: Action): System
    requires a.ReplayLetter? ==> a.letter < |s.letters|
    requires a.PollRow? ==> a.id < |s.rows|
    requires a.PublisherAnswers? || a.MarkRow? ==> a.k < |s.held|
  {
    match a
    case Tick(d) => s.(now := s.now + d)
    case Write(p, shard, begin, next) => Insert(s, p, shard, begin, next)
    case ReplayLetter(l, shard, begin) => Insert(s, s.letters[l].payload, shard, begin, None)
    case PollRow(id, _) => Poll(s, id)
    case PublisherAnswers(k, ok) => Answer(s, k, ok)
    case MarkRow(k, next) => Mark(s, cfg, k, next)
    case CreatePartition(start) => Create(s, start)
    case CountUnpublished(name) => Observe(s, name)
    case DetachPartition(c, _) => Detach(s, c.name)
    case LogDetached(name) => s.(log := s.log + [LogDetach(name, s.now)])
    case DropPartition(name) => Drop(s, name)
    case LogDropped(name) => s.(log := s.log + [LogDrop(name)])
  }

  ghost predicate Step(s: System, cfg: Config, a: Action, s': System) {
    Enabled(s, cfg, a) && s' == Apply(s, cfg, a)
  }

  // ------------------------------------------------------------ the invariant

  function CountLetters(letters: seq<DeadLetter>, id: nat): nat {
    if letters == [] then 0
    else CountLetters(letters[..|letters| - 1], id) + (if letters[|letters| - 1].event == id then 1 else 0)
  }

  ghost predicate RowOk(s: System, id: nat)
    requires id < |s.rows|
  {
    var r := s.rows[id];
    && r.createdAt <= s.now
    && (r.status == Published ==> (id, r.payload) in s.delivered)
    && CountLetters(s.letters, id) == (if r.status == Failed then 1 else 0)
    && (r.partition.Some? ==>
          var name := r.partition.value;
          && name in s.parts && s.parts[name].start <= r.createdAt < s.parts[name].end
          && (s.parts[name].state != Attached ==> r.status == Published))
  }

  ghost predicate PartOk(s: System, name: string)
    requires name in s.parts
  {
    var p := s.parts[name];
    && p.start == WeekStart(p.start) && p.end == p.start + WEEK && name == PartitionName(p.start) && ValidName(name)
    && (p.state != Attached ==> p.end <= WeekStart(s.now))
  }

  /** A count of zero taken when no transaction begun in the week can be open stays true. */
  ghost predicate CountOk(s: System, c: Count) {
    c.at <= s.now
    && (c.unpublished == 0 && c.name in s.parts && c.at >= s.parts[c.name].end + s.maxOpen ==>
          forall i :: 0 <= i < |s.rows| && s.rows[i].partition == Some(c.name) ==> s.rows[i].status == Published)
  }

  ghost predicate HeldOk(s: System, h: Held) {
    h.event < |s.rows| && h.payload == s.rows[h.event].payload
    && (h.stage == Delivered ==> (h.event, h.payload) in s.delivered)
  }

  ghost predicate LettersOk(s: System) {
    && (forall i :: 0 <= i < |s.letters| ==>
          s.letters[i].event < |s.rows| && s.letters[i].payload == s.rows[s.letters[i].event].payload)
    && (forall id: nat :: id >= |s.rows| ==> CountLetters(s.letters, id) == 0)
  }

  ghost predicate Inv(s: System) {
    && (forall id :: 0 <= id < |s.rows| ==> RowOk(s, id))
    && (forall name :: name in s.parts ==> PartOk(s, name))
    && (forall c :: c in s.counts ==> CountOk(s, c))
    && (forall k :: 0 <= k < |s.held| ==> HeldOk(s, s.held[k]))
    && LettersOk(s)
    && (forall i :: 0 <= i < |s.log| && s.log[i].LogDetach? ==>
          s.log[i].name in s.parts && s.parts[s.log[i].name].state != Attached)
  }

  /** What one step may do to a row: published and failed rows are final. */
  ghost predicate RowMoves(r: Row, r': Row) {
    && r'.payload == r.payload && r'.shard == r.shard && r'.createdAt == r.createdAt && r'.partition == r.partition
    && (r.status in {Published, Failed} ==> r'.status == r.status)
  }

  ghost predicate RowsMove(s: System, s': System) {
    |s.rows| <= |s'.rows| && forall i :: 0 <= i < |s.rows| ==> RowMoves(s.rows[i], s'.rows[i])
  }

  ghost predicate Kept(s: System, s': System) {
    Inv(s') && RowsMove(s, s')
  }

  lemma CountLettersAppend(letters: seq<DeadLetter>, l: DeadLetter, id: nat)
    ensures CountLetters(letters + [l], id) == CountLetters(letters, id) + (if l.event == id then 1 else 0)
  {
    assert (letters + [l])[..|letters|] == letters;
  }

  lemma {:induction false} CountZero(rows: seq<Row>, name: string)
    ensures CountIn(rows, name) == 0 <==>
            forall i :: 0 <= i < |rows| && rows[i].partition == Some(name) ==> rows[i].status == Published
  {
    if rows != [] {
      var front := rows[..|rows| - 1];
      CountZero(front, name);
      assert forall i :: 0 <= i < |front| ==> front[i] == rows[i];
    }
  }

  lemma WeekStartMonotone(t: nat, u: nat)
    requires t <= u
    ensures WeekStart(t) <= WeekStart(u)
  {
    var a, b := WeekStart(t), WeekStart(u);
    if a > b {
      assert a % WEEK == 0 && b % WEEK == 0;
      SameMultipleGap(a, b);
    }
  }

  lemma SameMultipleGap(a: nat, b: nat)
    requires a % WEEK == 0 && b % WEEK == 0 && a > b
    ensures a >= b + WEEK
  {
  }

  /** The name of a partition gives back its week. */
  lemma NameGivesWeek(s: System, name: string)
    requires name in s.parts && PartOk(s, name)
    ensures WeekEndFromName(name) == Some(s.parts[name].end)
  {
    hide IsoYearWeek, WeekStart, PartitionName, WeekEndFromName, ValidName;
    var start := s.parts[name].start;
    NameValidUpTo9999(start);
    NamingRoundTrip(start);
  }

  lemma TickKeeps(s: System, d: nat)
    requires Inv(s)
    ensures Kept(s, s.(now := s.now + d))
  {
    hide WeekStart, PartitionName;
    var s' := s.(now := s.now + d);
    WeekStartMonotone(s.now, s'.now);
    forall id | 0 <= id < |s'.rows| ensures RowOk(s', id) { assert RowOk(s, id); }
    forall name | name in s'.parts ensures PartOk(s', name) { assert PartOk(s, name); }
    forall c | c in s'.counts ensures CountOk(s', c) { assert CountOk(s, c); }
    forall k | 0 <= k < |s'.held| ensures HeldOk(s', s'.held[k]) { assert HeldOk(s, s.held[k]); }
  }

  /** An insert goes to the partition of the week its transaction began in, which no finished
      count covers. */
  lemma InsertKeeps(s: System, payload: string, shard: nat, begin: nat, next: Option<int>)
    requires Inv(s) && begin <= s.now <= begin + s.maxOpen
    ensures Kept(s, Insert(s, payload, shard, begin, next))
  {
    var s' := Insert(s, payload, shard, begin, next);
    var n := |s.rows|;
    hide WeekStart, PartitionName;
    var start := WeekStart(begin);
    if s'.rows[n].partition.Some? {
      var name := s'.rows[n].partition.value;
      assert PartOk(s, name);
      WeekStartIdempotent(begin);
      SameNameSameWeek(s.parts[name].start, start);
      forall c | c in s.counts && c.name == name ensures c.at < s.parts[name].end + s.maxOpen {
        assert CountOk(s, c);
      }
    }
    forall id | 0 <= id < |s'.rows| ensures RowOk(s', id) {
      if id < n { assert RowOk(s, id); }
    }
    forall name | name in s'.parts ensures PartOk(s', name) { assert PartOk(s, name); }
    forall c | c in s'.counts ensures CountOk(s', c) { assert CountOk(s, c); }
    forall k | 0 <= k < |s'.held| ensures HeldOk(s', s'.held[k]) { assert HeldOk(s, s.held[k]); }
  }

  lemma WeekStartIdempotent(t: nat)
    ensures WeekStart(WeekStart(t)) == WeekStart(t)
    ensures WeekStart(t) <= t < WeekStart(t) + WEEK
  {
    SameMultiple(WeekStart(t), WeekStart(WeekStart(t)));
  }

  lemma SameNameSameWeek(a: nat, b: nat)
    requires a == WeekStart(a) && b == WeekStart(b) && PartitionName(a) == PartitionName(b) && ValidName(PartitionName(a))
    ensures a == b
  {
    NameValidUpTo9999(a);
    NameValidUpTo9999(b);
    NamesTileTime(a, b);
  }

  /** Changing one visible row that is not yet published. */
  lemma RowWriteKeeps(s: System, id: nat, r: Row, s': System)
    requires Inv(s) && id < |s.rows| && Visible(s, s.rows[id]) && s.rows[id].status in {Pending, Publishing}
    requires s' == s.(rows := s.rows[id := r], held := s'.held, letters := s'.letters)
    requires r == s.rows[id].(status := r.status, lockedAt := r.lockedAt, attempts := r.attempts, nextAttempt := r.nextAttempt)
    requires r.status == Published ==> (id, r.payload) in s.delivered
    requires forall k :: 0 <= k < |s'.held| ==> HeldOk(s', s'.held[k])
    requires if r.status == Failed then s'.letters == s.letters + [DeadLetter(id, r.payload)] else s'.letters == s.letters
    ensures Kept(s, s')
  {
    hide WeekStart, PartitionName;
    forall j: nat ensures CountLetters(s'.letters, j) == CountLetters(s.letters, j) + (if r.status == Failed && j == id then 1 else 0) {
      if r.status == Failed { CountLettersAppend(s.letters, DeadLetter(id, r.payload), j); }
    }
    hide CountLetters, CountOk;
    forall j | 0 <= j < |s'.rows| ensures RowOk(s', j) { assert RowOk(s, j); }
    hide RowOk;
    forall name | name in s'.parts ensures PartOk(s', name) { assert PartOk(s, name); }
    hide PartOk;
    forall c | c in s'.counts ensures CountOk(s', c) { CountSurvivesWrite(s, id, r, s', c); }
  }

  /** A count of zero that stays true says nothing of a partition with this row. */
  lemma CountSurvivesWrite(s: System, id: nat, r: Row, s': System, c: Count)
    requires CountOk(s, c) && id < |s.rows| && s.rows[id].status != Published && r.partition == s.rows[id].partition
    requires s' == s.(rows := s.rows[id := r], held := s'.held, letters := s'.letters)
    ensures CountOk(s', c)
  {
    if r.partition == Some(c.name) {
      assert s.rows[id].partition == Some(c.name);
    }
  }

  lemma PollKeeps(s: System, cfg: Config, id: nat, shards: set<nat>)
    requires Inv(s) && id < |s.rows| && Claimable(s, cfg, s.rows[id], shards)
    ensures Kept(s, Poll(s, id))
  {
    var s' := Poll(s, id);
    forall k | 0 <= k < |s'.held| ensures HeldOk(s', s'.held[k]) {
      if k < |s.held| { assert HeldOk(s, s.held[k]); }
    }
    RowWriteKeeps(s, id, s'.rows[id], s');
  }

  lemma AnswerKeeps(s: System, k: nat, ok: bool)
    requires Inv(s) && k < |s.held|
    ensures Kept(s, Answer(s, k, ok))
  {
    hide WeekStart, PartitionName;
    var s' := Answer(s, k, ok);
    forall l | 0 <= l < |s'.held| ensures HeldOk(s', s'.held[l]) { assert HeldOk(s, s.held[l]); }
    forall id | 0 <= id < |s'.rows| ensures RowOk(s', id) { assert RowOk(s, id); }
    forall name | name in s'.parts ensures PartOk(s', name) { assert PartOk(s, name); }
    forall c | c in s'.counts ensures CountOk(s', c) { assert CountOk(s, c); }
  }

  lemma MarkKeeps(s: System, cfg: Config, k: nat, nextAttempt: int)
    requires Inv(s) && k < |s.held|
    ensures Kept(s, Mark(s, cfg, k, nextAttempt))
  {
    var s' := Mark(s, cfg, k, nextAttempt);
    var h := s.held[k];
    assert HeldOk(s, h);
    if s' != s {
      forall l | 0 <= l < |s'.held| ensures HeldOk(s', s'.held[l]) { assert HeldOk(s, s.held[l]); }
      RowWriteKeeps(s, h.event, s'.rows[h.event], s');
    }
  }

  /** A new partition is for this week or a later one, so its name was never detached. */
  lemma CreateKeeps(s: System, start: nat)
    requires Inv(s) && start == WeekStart(start) && start >= WeekStart(s.now)
    ensures Kept(s, Create(s, start))
  {
    var name := PartitionName(start);
    hide WeekStart, PartitionName, ValidName;
    var s' := Create(s, start);
    if s' != s {
      if name in s.parts {
        assert PartOk(s, name);
        SameNameSameWeek(s.parts[name].start, start);
      }
      forall id | 0 <= id < |s'.rows| ensures RowOk(s', id) { assert RowOk(s, id); }
      forall n | n in s'.parts ensures PartOk(s', n) { if n != name { assert PartOk(s, n); } }
      forall c | c in s'.counts ensures CountOk(s', c) { assert CountOk(s, c); NoRowsIn(s, name); }
      forall k | 0 <= k < |s'.held| ensures HeldOk(s', s'.held[k]) { assert HeldOk(s, s.held[k]); }
    }
  }

  /** Rows only ever sit in known partitions. */
  lemma NoRowsIn(s: System, name: string)
    requires Inv(s) && name !in s.parts
    ensures forall i :: 0 <= i < |s.rows| ==> s.rows[i].partition != Some(name)
  {
    forall i | 0 <= i < |s.rows| ensures s.rows[i].partition != Some(name) { assert RowOk(s, i); }
  }

  lemma ObserveKeeps(s: System, name: string)
    requires Inv(s)
    ensures Kept(s, Observe(s, name))
  {
    hide WeekStart, PartitionName;
    var s' := Observe(s, name);
    CountZero(s.rows, name);
    forall id | 0 <= id < |s'.rows| ensures RowOk(s', id) { assert RowOk(s, id); }
    forall n | n in s'.parts ensures PartOk(s', n) { assert PartOk(s, n); }
    forall c | c in s'.counts ensures CountOk(s', c) { if c in s.counts { assert CountOk(s, c); } }
    forall k | 0 <= k < |s'.held| ensures HeldOk(s', s'.held[k]) { assert HeldOk(s, s.held[k]); }
  }

  /** Detaching or dropping a partition whose rows are all published. */
  lemma RetireKeeps(s: System, name: string, state: PartitionState)
    requires Inv(s) && name in s.parts && state != Attached
    requires s.parts[name].end <= WeekStart(s.now)
    requires forall i :: 0 <= i < |s.rows| && s.rows[i].partition == Some(name) ==> s.rows[i].status == Published
    ensures Kept(s, s.(parts := s.parts[name := s.parts[name].(state := state)]))
  {
    hide WeekStart, PartitionName, ValidName;
    var s' := s.(parts := s.parts[name := s.parts[name].(state := state)]);
    forall id | 0 <= id < |s'.rows| ensures RowOk(s', id) { assert RowOk(s, id); }
    forall n | n in s'.parts ensures PartOk(s', n) { assert PartOk(s, n); }
    forall c | c in s'.counts ensures CountOk(s', c) { assert CountOk(s, c); }
    forall k | 0 <= k < |s'.held| ensures HeldOk(s', s'.held[k]) { assert HeldOk(s, s.held[k]); }
  }

  lemma DetachKeeps(s: System, cfg: Config, c: Count, clock: nat)
    requires Inv(s) && c in s.counts && clock <= s.now && MayDetach(cfg, clock, c)
    requires c.at >= WeekEndFromName(c.name).value + s.maxOpen
    ensures Kept(s, Detach(s, c.name))
  {
    hide WeekStart, PartitionName, WeekEndFromName, ValidName;
    if Detach(s, c.name) != s {
      assert PartOk(s, c.name) && CountOk(s, c);
      NameGivesWeek(s, c.name);
      WeekStartMonotone(clock, s.now);
      RetireKeeps(s, c.name, Detached);
    }
  }

  /** Replica lag and the age of open writers together never exceed the weeks that are kept, and
      one more. */
  predicate LagFits(cfg: Config) {
    cfg.replicaLag + cfg.maxOpen <= WEEK * (cfg.retentionWeeks + 1)
  }

  /** Then a count that permits detaching was taken after the week was over for every writer. */
  lemma CountedAfterWeek(s: System, cfg: Config, c: Count, clock: nat)
    requires LagFits(cfg) && MayDetach(cfg, clock, c) && c.at + cfg.replicaLag >= clock
    requires c.name in s.parts && PartOk(s, c.name)
    ensures c.at >= WeekEndFromName(c.name).value + cfg.maxOpen
  {
    hide WeekEndFromName, PartitionName, ValidName, WeekStart;
    NameGivesWeek(s, c.name);
    var end: nat := s.parts[c.name].end;
    assert end % WEEK == 0 by { WeekEndIsWhole(s.parts[c.name].start); }
    var kept := end + WEEK * cfg.retentionWeeks;
    assert kept % WEEK == 0 by { WholeSum(end, cfg.retentionWeeks); }
    SameMultipleGap(WeekStart(clock), kept);
  }

  lemma WeekEndIsWhole(start: nat)
    requires start == WeekStart(start)
    ensures (start + WEEK) % WEEK == 0
  {
  }

  lemma WholeSum(a: nat, k: nat)
    requires a % WEEK == 0
    ensures (a + WEEK * k) % WEEK == 0
  {
    assert a == WEEK * (a / WEEK);
    assert a + WEEK * k == WEEK * (a / WEEK + k);
  }

  lemma DropKeeps(s: System, name: string, cutoff: int)
    requires Inv(s) && DropDue(s, name, cutoff)
    ensures Kept(s, Drop(s, name))
  {
    hide WeekStart, PartitionName;
    var i :| 0 <= i < |s.log| && s.log[i].LogDetach? && s.log[i].name == name && s.log[i].at < cutoff;
    assert PartOk(s, name);
    forall j | 0 <= j < |s.rows| && s.rows[j].partition == Some(name) ensures s.rows[j].status == Published {
      assert RowOk(s, j);
    }
    RetireKeeps(s, name, Dropped);
  }

  lemma LogKeeps(s: System, e: LogEntry)
    requires Inv(s) && (e.LogDetach? ==> e.name in s.parts && s.parts[e.name].state != Attached)
    ensures Kept(s, s.(log := s.log + [e]))
  {
    hide WeekStart, PartitionName;
    var s' := s.(log := s.log + [e]);
    forall id | 0 <= id < |s'.rows| ensures RowOk(s', id) { assert RowOk(s, id); }
    forall n | n in s'.parts ensures PartOk(s', n) { assert PartOk(s, n); }
    forall c | c in s'.counts ensures CountOk(s', c) { assert CountOk(s, c); }
    forall k | 0 <= k < |s'.held| ensures HeldOk(s', s'.held[k]) { assert HeldOk(s, s.held[k]); }
  }

  lemma LaggedDetachKeeps(s: System, cfg: Config, c: Count, clock: nat)
    requires LagFits(cfg) && Inv(s) && s.maxOpen == cfg.maxOpen && Enabled(s, cfg, DetachPartition(c, clock))
    ensures Kept(s, Detach(s, c.name))
  {
    hide WeekStart, PartitionName, WeekEndFromName, ValidName, LagFits, RowOk;
    if c.name in s.parts {
      CountedAfterWeek(s, cfg, c, clock);
      DetachKeeps(s, cfg, c, clock);
    }
  }

  lemma StepKeeps(s: System, cfg: Config, a: Action, s': System)
    requires LagFits(cfg) && Inv(s) && s.maxOpen == cfg.maxOpen && Step(s, cfg, a, s')
    ensures Kept(s, s') && s'.maxOpen == s.maxOpen
  {
    hide Inv, RowsMove;
    match a
    case Tick(d) => TickKeeps(s, d);
    case Write(p, shard, begin, next) => InsertKeeps(s, p, shard, begin, next);
    case ReplayLetter(l, shard, begin) => InsertKeeps(s, s.letters[l].payload, shard, begin, None);
    case PollRow(id, shards) => PollKeeps(s, cfg, id, shards);
    case PublisherAnswers(k, ok) => AnswerKeeps(s, k, ok);
    case MarkRow(k, next) => MarkKeeps(s, cfg, k, next);
    case CreatePartition(start) => CreateKeeps(s, start);
    case CountUnpublished(name) => ObserveKeeps(s, name);
    case DetachPartition(c, clock) => LaggedDetachKeeps(s, cfg, c, clock);
    case LogDetached(name) => LogKeeps(s, LogDetach(name, s.now));
    case DropPartition(name) => DropKeeps(s, name, s.now - cfg.dropAfter);
    case LogDropped(name) => LogKeeps(s, LogDrop(name));
  }

  // ------------------------------------------------------------ runs

  /** An empty outbox over partitions that all belong to whole weeks. */
  ghost predicate Init(s: System) {
    s == System(s.now, [], [], {}, [], s.parts, [], {}, s.maxOpen)
    && forall name :: name in s.parts ==> PartOk(s, name) && s.parts[name].state == Attached
  }

  ghost predicate IsRun(cfg: Config, ss: seq<System>, acts: seq<Action>) {
    |ss| == |acts| + 1 && Init(ss[0]) && ss[0].maxOpen == cfg.maxOpen
    && forall i :: 0 <= i < |acts| ==> Step(ss[i], cfg, acts[i], ss[i + 1])
  }

  lemma {:induction false} RunKeeps(cfg: Config, ss: seq<System>, acts: seq<Action>, n: nat)
    requires LagFits(cfg) && IsRun(cfg, ss, acts) && n < |ss|
    ensures Inv(ss[n]) && ss[n].maxOpen == cfg.maxOpen && (n > 0 ==> RowsMove(ss[n - 1], ss[n]))
  {
    hide Step, LagFits;
    if n > 0 {
      RunKeeps(cfg, ss, acts, n - 1);
      StepKeeps(ss[n - 1], cfg, acts[n - 1], ss[n]);
    }
  }

  /** A published row was published; a failed row has exactly one dead letter, carrying its
      payload; other rows have none. */
  lemma DeliveredOrDeadLettered(cfg: Config, ss: seq<System>, acts: seq<Action>, n: nat, id: nat)
    requires LagFits(cfg) && IsRun(cfg, ss, acts) && n < |ss| && id < |ss[n].rows|
    ensures ss[n].rows[id].status == Published ==> (id, ss[n].rows[id].payload) in ss[n].delivered
    ensures CountLetters(ss[n].letters, id) == (if ss[n].rows[id].status == Failed then 1 else 0)
    ensures forall i :: 0 <= i < |ss[n].letters| && ss[n].letters[i].event == id ==>
              ss[n].letters[i].payload == ss[n].rows[id].payload
  {
    RunKeeps(cfg, ss, acts, n);
    assert RowOk(ss[n], id);
  }

  /** No pending, publishing or failed row is ever in a detached or dropped partition. */
  lemma NothingUndeliveredIsDropped(cfg: Config, ss: seq<System>, acts: seq<Action>, n: nat, id: nat)
    requires LagFits(cfg) && IsRun(cfg, ss, acts) && n < |ss| && id < |ss[n].rows|
    requires ss[n].rows[id].status in {Pending, Publishing, Failed}
    ensures Visible(ss[n], ss[n].rows[id])
    ensures ss[n].rows[id].partition.Some? ==>
      var name := ss[n].rows[id].partition.value; name in ss[n].parts && ss[n].parts[name].state == Attached
  {
    RunKeeps(cfg, ss, acts, n);
    assert RowOk(ss[n], id);
  }

  /** Published and failed are final, and an event keeps its payload and its partition. */
  lemma {:induction false} OutcomesAreFinal(cfg: Config, ss: seq<System>, acts: seq<Action>, i: nat, j: nat, id: nat)
    requires LagFits(cfg) && IsRun(cfg, ss, acts) && i <= j < |ss| && id < |ss[i].rows|
    ensures id < |ss[j].rows| && RowMoves(ss[i].rows[id], ss[j].rows[id])
    decreases j
  {
    hide Inv, Step, Init, LagFits;
    if i < j {
      OutcomesAreFinal(cfg, ss, acts, i, j - 1, id);
      RunKeeps(cfg, ss, acts, j);
      assert RowMoves(ss[j - 1].rows[id], ss[j].rows[id]);
    }
  }
}
