/** How far behind the replica may be that the partition manager counts on, and how long writers
    may stay open. */
module OutboxLag {
  import opened Basics
  import opened IsoWeek
  import opened Outbox

  ghost predicate Loses(ss: seq<System>, acts: seq<Action>) {
    |ss| == |acts| + 1
    && exists id :: 0 <= id < |ss[|acts|].rows| && ss[|acts|].rows[id].status == Pending
                    && !Visible(ss[|acts|], ss[|acts|].rows[id])
  }

  /** The first week and its partition. */
  lemma FirstWeek()
    ensures WeekStart(0) == 0 && WeekStart(WEEK - 1) == 0
    ensures ValidName(PartitionName(0)) && WeekEndFromName(PartitionName(0)) == Some(WEEK)
  {
    hide WeekEndFromName, PartitionName, ValidName, IsoYearWeek, WeekStart;
    YearOne();
    NameValidUpTo9999(0);
    NamingRoundTrip(0);
  }

  lemma YearOne()
    ensures WeekStart(0) == 0 && WeekStart(WEEK - 1) == 0 && IsoYearWeek(0).0 == 1
  {
  }

  function Start(cfg: Config): System { System(0, [], [], {}, [], map[], [], {}, cfg.maxOpen) }

  function FirstPartition(state: PartitionState): Partition { Partition(0, WEEK, state) }

  /** An event whose transaction began in the last second of the first week. */
  function LateRow(name: string): Row {
    Row("event", 0, WEEK - 1, Pending, 0, None, WEEK - 1, Some(name))
  }

  /** The system at a time, once the partition is there. */
  function At(cfg: Config, now: nat, name: string, rows: seq<Row>, counts: set<Count>, state: PartitionState): System {
    System(now, rows, [], {}, [], map[name := FirstPartition(state)], [], counts, cfg.maxOpen)
  }

  ghost predicate IsFirst(name: string) {
    && name == PartitionName(0) && ValidName(name) && WeekEndFromName(name) == Some(WEEK)
    && WeekStart(0) == 0 && WeekStart(WEEK - 1) == 0
  }

  lemma CreateStep(cfg: Config, name: string)
    requires IsFirst(name)
    ensures Step(Start(cfg), cfg, CreatePartition(0), At(cfg, 0, name, [], {}, Attached))
  {
    hide PartitionName, WeekStart, WeekEndFromName, ValidName;
  }

  lemma CountStep(cfg: Config, name: string, at: nat)
    ensures Step(At(cfg, at, name, [], {}, Attached), cfg, CountUnpublished(name), At(cfg, at, name, [], {Count(name, at, 0)}, Attached))
  {
    assert CountIn([], name) == 0;
  }

  lemma WriteStep(cfg: Config, name: string, counts: set<Count>, at: nat)
    requires IsFirst(name) && WEEK - 1 <= at <= WEEK - 1 + cfg.maxOpen
    ensures Step(At(cfg, at, name, [], counts, Attached), cfg, Write("event", 0, WEEK - 1, None),
                 At(cfg, at, name, [LateRow(name)], counts, Attached))
  {
    hide PartitionName, WeekStart, WeekEndFromName, ValidName;
  }

  lemma TickStep(cfg: Config, name: string, rows: seq<Row>, counts: set<Count>, from: nat, d: nat)
    ensures Step(At(cfg, from, name, rows, counts, Attached), cfg, Tick(d), At(cfg, from + d, name, rows, counts, Attached))
  {
  }

  lemma DetachStep(cfg: Config, name: string, rows: seq<Row>, at: nat, now: nat)
    requires IsFirst(name) && WeekStart(now) == now == WEEK * (cfg.retentionWeeks + 2)
    requires at <= now <= at + cfg.replicaLag
    ensures var c := Count(name, at, 0);
      Step(At(cfg, now, name, rows, {c}, Attached), cfg, DetachPartition(c, now), At(cfg, now, name, rows, {c}, Detached))
  {
    hide PartitionName, WeekStart, WeekEndFromName, ValidName;
    var c := Count(name, at, 0);
    var s := At(cfg, now, name, rows, {c}, Attached);
    assert MayDetach(cfg, now, c);
    assert s.parts[name := FirstPartition(Detached)] == map[name := FirstPartition(Detached)];
  }

  /** The partition of the first week; a count while a writer of that week is still open; the
      writer's commit; and, when the partition is old enough, its detachment on the strength of
      that count. */
  lemma StaleCountDetaches(cfg: Config, name: string, at: nat, now: nat)
    requires IsFirst(name) && WeekStart(now) == now == WEEK * (cfg.retentionWeeks + 2)
    requires WEEK - 1 <= at <= WEEK - 1 + cfg.maxOpen && at <= now <= at + cfg.replicaLag
    ensures exists ss: seq<System>, acts: seq<Action> :: IsRun(cfg, ss, acts) && Loses(ss, acts)
  {
    hide IsFirst, Step;
    var c := Count(name, at, 0);
    var rows, cs := [LateRow(name)], {c};
    var acts := [CreatePartition(0), Tick(at), CountUnpublished(name), Write("event", 0, WEEK - 1, None), Tick(now - at),
                 DetachPartition(c, now)];
    var first, last := Start(cfg), At(cfg, now, name, rows, cs, Detached);
    var ss := [first, At(cfg, 0, name, [], {}, Attached), At(cfg, at, name, [], {}, Attached), At(cfg, at, name, [], cs, Attached),
               At(cfg, at, name, rows, cs, Attached), At(cfg, now, name, rows, cs, Attached), last];
    CreateStep(cfg, name);
    TickStep(cfg, name, [], {}, 0, at);
    CountStep(cfg, name, at);
    WriteStep(cfg, name, cs, at);
    TickStep(cfg, name, rows, cs, at, now - at);
    DetachStep(cfg, name, rows, at, now);
    assert !Visible(last, last.rows[0]) && last.rows[0].status == Pending;
    assert Init(first) && first.maxOpen == cfg.maxOpen;
    hide At, Start;
    forall i | 0 <= i < |acts| ensures Step(ss[i], cfg, acts[i], ss[i + 1]) {
      assert i == 0 || i == 1 || i == 2 || i == 3 || i == 4 || i == 5;
    }
    assert |ss| == |acts| + 1;
    assert ss[0] == first;
    assert IsRun(cfg, ss, acts);
    assert ss[|acts|] == last;
    assert Loses(ss, acts);
  }

  /** Nothing undelivered is ever detached or dropped, in any run, if and only if the replica's
      lag and the age of open writers together are at most the retention period and one week. */
  lemma SafeIffLagFits(cfg: Config)
    ensures (forall ss: seq<System>, acts: seq<Action> :: IsRun(cfg, ss, acts) ==> !Loses(ss, acts)) <==> LagFits(cfg)
  {
    hide WeekStart, PartitionName, WeekEndFromName, ValidName, IsRun, Loses;
    if LagFits(cfg) {
      forall ss: seq<System>, acts: seq<Action> | IsRun(cfg, ss, acts) ensures !Loses(ss, acts) {
        NothingLost(cfg, ss, acts);
      }
    } else {
      FirstWeek();
      WholeWeek(cfg.retentionWeeks + 2);
      var now := WEEK * (cfg.retentionWeeks + 2);
      var latest := WEEK - 1 + cfg.maxOpen;
      StaleCountDetaches(cfg, PartitionName(0), if latest < now then latest else now, now);
    }
  }

  lemma WholeWeek(k: nat)
    ensures WeekStart(WEEK * k) == WEEK * k
  {
    assert (WEEK * k) % WEEK == 0;
    SameMultiple(WEEK * k, WeekStart(WEEK * k));
  }

  lemma NothingLost(cfg: Config, ss: seq<System>, acts: seq<Action>)
    requires LagFits(cfg) && IsRun(cfg, ss, acts)
    ensures !Loses(ss, acts)
  {
    var s := ss[|acts|];
    forall id | 0 <= id < |s.rows| && s.rows[id].status == Pending ensures Visible(s, s.rows[id]) {
      NothingUndeliveredIsDropped(cfg, ss, acts, |acts|, id);
    }
  }
}
