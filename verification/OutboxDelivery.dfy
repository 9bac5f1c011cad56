/** From the write of an event to its delivery: whole runs of the outbox. */
module OutboxDelivery {
  import opened Basics
  import opened IsoWeek
  import opened Outbox

  /** The publisher accepted an event, with its payload, at step m. */
  ghost predicate Accepted(ss: seq<System>, acts: seq<Action>, m: nat, id: nat, payload: string) {
    && m < |acts| && m < |ss| && acts[m].PublisherAnswers? && acts[m].ok && acts[m].k < |ss[m].held|
    && ss[m].held[acts[m].k].event == id && ss[m].held[acts[m].k].payload == payload
  }

  /** Only an acceptance by the publisher counts as a delivery. */
  lemma {:induction false} DeliveredWasAccepted(cfg: Config, ss: seq<System>, acts: seq<Action>, n: nat, id: nat, payload: string)
    requires IsRun(cfg, ss, acts) && n < |ss|
    ensures (id, payload) in ss[n].delivered <==> exists m: nat :: m < n && Accepted(ss, acts, m, id, payload)
  {
    hide Poll, Mark, Create, Detach, Drop, Observe, Insert;
    if n > 0 {
      DeliveredWasAccepted(cfg, ss, acts, n - 1, id, payload);
      StepDelivers(ss[n - 1], cfg, acts[n - 1], ss[n], id, payload);
      assert (id, payload) in ss[n].delivered <==>
             (id, payload) in ss[n - 1].delivered || Accepted(ss, acts, n - 1, id, payload);
    }
  }

  lemma StepDelivers(s: System, cfg: Config, a: Action, s': System, id: nat, payload: string)
    requires Step(s, cfg, a, s')
    ensures (id, payload) in s'.delivered <==>
      (id, payload) in s.delivered
      || (a.PublisherAnswers? && a.ok && a.k < |s.held| && s.held[a.k].event == id && s.held[a.k].payload == payload)
  {
    hide WeekStart, PartitionName, ValidName, WeekEndFromName, CountIn;
  }

  /** A row that is due can be delivered: any worker with its shard may poll it, the publisher
      may accept it, and the worker then marks it published. */
  lemma DueRowCanBeDelivered(s: System, cfg: Config, id: nat, shards: set<nat>) returns (s1: System, s2: System, s3: System)
    requires id < |s.rows| && s.rows[id].shard in shards && s.rows[id].nextAttempt <= s.now && s.rows[id].status == Pending
    requires s.rows[id].partition.Some? ==>
      s.rows[id].partition.value in s.parts && s.parts[s.rows[id].partition.value].state == Attached
    ensures var k := |s.held|;
      Step(s, cfg, PollRow(id, shards), s1) && Step(s1, cfg, PublisherAnswers(k, true), s2) && Step(s2, cfg, MarkRow(k, 0), s3)
    ensures id < |s3.rows| && s3.rows[id] == s.rows[id].(status := Published, lockedAt := None)
    ensures (id, s.rows[id].payload) in s3.delivered
  {
    s1 := Poll(s, id);
    s2 := Outbox.Answer(s1, |s.held|, true);
    s3 := Mark(s2, cfg, |s.held|, 0);
  }

  /** Events can be written at any time, and a detached partition that was logged long enough ago
      can be dropped. */
  lemma JobsCanGoOn(s: System, cfg: Config, payload: string, shard: nat, name: string)
    ensures Enabled(s, cfg, Write(payload, shard, s.now, None))
    ensures name in s.parts && s.parts[name].state == Detached ==> Enabled(s, cfg, LogDetached(name))
    ensures LogDrop(name) !in s.log ==>
      var later := s.(log := s.log + [LogDetach(name, s.now)], now := s.now + cfg.dropAfter + 1);
      Enabled(later, cfg, DropPartition(name))
  {
    var later := s.(log := s.log + [LogDetach(name, s.now)], now := s.now + cfg.dropAfter + 1);
    assert later.log[|s.log|] == LogDetach(name, s.now);
  }

  /** A written event is one new row, as it was written; it lies in the partition of the week its
      transaction began in, if that is attached, and in the default partition otherwise. */
  lemma WriteAddsRow(cfg: Config, ss: seq<System>, acts: seq<Action>, n: nat)
    requires IsRun(cfg, ss, acts) && n < |acts| && acts[n].Write?
    ensures var a, name := acts[n], PartitionName(WeekStart(acts[n].begin));
      var attached := name in ss[n].parts && ss[n].parts[name].state == Attached;
      ss[n + 1].rows == ss[n].rows + [Row(a.payload, a.shard, a.begin, Pending, 0, None,
                                          if a.next.Some? then a.next.value else a.begin, if attached then Some(name) else None)]
  {
    hide WeekStart, PartitionName;
    assert Step(ss[n], cfg, acts[n], ss[n + 1]);
  }

  /** A replayed dead letter is written again, as a new event with the letter's payload. */
  lemma ReplayAddsRow(cfg: Config, ss: seq<System>, acts: seq<Action>, n: nat)
    requires IsRun(cfg, ss, acts) && n < |acts| && acts[n].ReplayLetter?
    ensures var a := acts[n];
      && a.letter < |ss[n].letters| && |ss[n + 1].rows| == |ss[n].rows| + 1 && ss[n + 1].rows[..|ss[n].rows|] == ss[n].rows
      && var r := ss[n + 1].rows[|ss[n].rows|];
         r.payload == ss[n].letters[a.letter].payload && r.shard == a.shard && r.status == Pending && r.attempts == 0
         && r.createdAt == a.begin
    ensures ss[n + 1].letters == ss[n].letters
  {
    hide WeekStart, PartitionName;
    assert Step(ss[n], cfg, acts[n], ss[n + 1]);
  }

  /** No event is lost: in every later state it is there with its payload and shard, and either
      the publisher accepted it, or it has exactly one dead letter with its payload, or it is
      waiting in a partition that is still attached. */
  lemma NoEventIsLost(cfg: Config, ss: seq<System>, acts: seq<Action>, i: nat, j: nat)
    requires LagFits(cfg) && IsRun(cfg, ss, acts) && i < j < |ss| && acts[i].Write?
    ensures var id := |ss[i].rows|;
      && id < |ss[j].rows| && ss[j].rows[id].payload == acts[i].payload && ss[j].rows[id].shard == acts[i].shard
      && match ss[j].rows[id].status
         case Published => exists m: nat :: m < j && Accepted(ss, acts, m, id, acts[i].payload)
         case Failed => CountLetters(ss[j].letters, id) == 1
         case _ =>
           ss[j].rows[id].partition.Some? ==>
             ss[j].rows[id].partition.value in ss[j].parts && ss[j].parts[ss[j].rows[id].partition.value].state == Attached
  {
    hide WeekStart, PartitionName, Step, Init, CountLetters, LagFits, Accepted;
    var id := |ss[i].rows|;
    WriteAddsRow(cfg, ss, acts, i);
    OutcomesAreFinal(cfg, ss, acts, i + 1, j, id);
    DeliveredOrDeadLettered(cfg, ss, acts, j, id);
    DeliveredWasAccepted(cfg, ss, acts, j, id, acts[i].payload);
    if ss[j].rows[id].status in {Pending, Publishing, Failed} {
      NothingUndeliveredIsDropped(cfg, ss, acts, j, id);
    }
  }
}
