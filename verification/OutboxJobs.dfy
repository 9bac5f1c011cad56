/** The relay worker and the partition manager as running code, each shown to take only
    steps of the outbox protocol. */
module OutboxJobs {
  import opened Basics
  import opened IsoWeek
  import opened Outbox

  /** What a worker running alone leaves of a row it polled. */
  function AfterAttempt(cfg: Config, r: Row, ok: bool, next: int): Row {
    if ok then r.(status := Published, lockedAt := None)
    else if r.attempts + 1 >= cfg.maxAttempts then r.(status := Failed, lockedAt := None)
    else r.(status := Pending, attempts := r.attempts + 1, nextAttempt := next, lockedAt := None)
  }

  /** A row was claimable, is now locked, and the worker holds it as it was. */
  ghost predicate Took(cfg: Config, before: System, after: System, shards: set<nat>, id: nat, h: Held) {
    && id < |before.rows| == |after.rows|
    && Claimable(before, cfg, before.rows[id], shards)
    && h == Held(id, before.rows[id].payload, before.rows[id].attempts, Claimed)
    && after.rows[id] == before.rows[id].(status := Publishing, lockedAt := Some(after.now))
  }

  lemma SameClaims(before: System, s: System, cfg: Config, r: Row, shards: set<nat>)
    requires s == before.(rows := s.rows, held := s.held)
    ensures Claimable(s, cfg, r, shards) == Claimable(before, cfg, r, shards)
  {
  }

  /** The order of polling: fewest attempts first, then oldest. */
  predicate NotAfter(a: Row, b: Row) {
    a.attempts < b.attempts || (a.attempts == b.attempts && a.createdAt <= b.createdAt)
  }

  /** The polled rows are taken, the others untouched, and no claimable row left over comes
      before a polled one. */
  ghost predicate Batch(cfg: Config, before: System, s: System, shards: set<nat>, polled: seq<nat>, first: nat) {
    && s == before.(rows := s.rows, held := s.held) && |s.rows| == |before.rows| && |s.held| == first + |polled|
    && Distinct(polled)
    && (forall i :: 0 <= i < |polled| ==> Took(cfg, before, s, shards, polled[i], s.held[first + i]))
    && (forall id :: 0 <= id < |s.rows| && id !in polled ==> s.rows[id] == before.rows[id])
    && (forall i, id :: (0 <= i < |polled| && 0 <= id < |before.rows| && id !in polled && Claimable(before, cfg, before.rows[id], shards)) ==>
          NotAfter(before.rows[polled[i]], before.rows[id]))
  }

  ghost predicate IsNext(cfg: Config, s: System, shards: set<nat>, id: nat) {
    && id < |s.rows| && Claimable(s, cfg, s.rows[id], shards)
    && forall j :: 0 <= j < |s.rows| && Claimable(s, cfg, s.rows[j], shards) ==> NotAfter(s.rows[id], s.rows[j])
  }

  /** What is claimable after some polling is what was claimable before and is not polled. */
  lemma StillClaimable(cfg: Config, before: System, s: System, shards: set<nat>, polled: seq<nat>, first: nat, id: nat)
    requires Batch(cfg, before, s, shards, polled, first) && id < |s.rows|
    ensures Claimable(s, cfg, s.rows[id], shards) <==> id !in polled && Claimable(before, cfg, before.rows[id], shards)
    ensures id !in polled ==> s.rows[id] == before.rows[id]
  {
    hide NotAfter;
    SameClaims(before, s, cfg, s.rows[id], shards);
    if id in polled {
      var i :| 0 <= i < |polled| && polled[i] == id;
      assert Took(cfg, before, s, shards, polled[i], s.held[first + i]);
    }
  }

  /** One more row is taken, and those taken before stay taken. */
  lemma BatchGrows(cfg: Config, before: System, s: System, shards: set<nat>, polled: seq<nat>, first: nat, id: nat)
    requires Batch(cfg, before, s, shards, polled, first) && IsNext(cfg, s, shards, id)
    ensures Batch(cfg, before, Poll(s, id), shards, polled + [id], first)
  {
    var s', polled' := Poll(s, id), polled + [id];
    forall j | 0 <= j < |s.rows|
      ensures Claimable(s, cfg, s.rows[j], shards) <==> j !in polled && Claimable(before, cfg, before.rows[j], shards)
      ensures j !in polled ==> s.rows[j] == before.rows[j]
    {
      StillClaimable(cfg, before, s, shards, polled, first, j);
    }
    hide Claimable, NotAfter;
    forall i | 0 <= i < |polled'| ensures Took(cfg, before, s', shards, polled'[i], s'.held[first + i]) {
      if i < |polled| {
        assert Took(cfg, before, s, shards, polled[i], s.held[first + i]);
      }
    }
    forall i, j | 0 <= i < |polled'| && 0 <= j < |before.rows| && j !in polled' && Claimable(before, cfg, before.rows[j], shards)
      ensures NotAfter(before.rows[polled'[i]], before.rows[j])
    {
      assert j !in polled;
      assert i == |polled| ==> NotAfter(s.rows[id], s.rows[j]);
    }
  }

  /** The fields of polled rows, and of those left over. */
  lemma BatchMeans(cfg: Config, before: System, s: System, shards: set<nat>, polled: seq<nat>, first: nat)
    requires Batch(cfg, before, s, shards, polled, first)
    ensures s.now == before.now && s.parts == before.parts && forall i :: 0 <= i < |polled| ==> polled[i] < |before.rows|
    ensures forall i :: 0 <= i < |polled| ==>
      var r := before.rows[polled[i]];
      && r.shard in shards && r.nextAttempt <= before.now
      && (r.status == Pending || (r.status == Publishing && r.lockedAt.Some? && r.lockedAt.value < before.now - cfg.claimTTL))
    ensures forall id :: 0 <= id < |before.rows| && id !in polled ==>
      var r := before.rows[id];
      (&& r.shard in shards && r.nextAttempt <= before.now
       && (r.status == Pending || (r.status == Publishing && r.lockedAt.Some? && r.lockedAt.value < before.now - cfg.claimTTL))
       && (r.partition.Some? ==> r.partition.value in before.parts && before.parts[r.partition.value].state == Attached)) ==>
        && Claimable(before, cfg, r, shards)
        && forall i :: 0 <= i < |polled| ==>
             var p := before.rows[polled[i]];
             p.attempts < r.attempts || (p.attempts == r.attempts && p.createdAt <= r.createdAt)
  {
    forall i | 0 <= i < |polled| ensures polled[i] < |before.rows| && Claimable(before, cfg, before.rows[polled[i]], shards) {
      assert Took(cfg, before, s, shards, polled[i], s.held[first + i]);
    }
    forall i, id | 0 <= i < |polled| && 0 <= id < |before.rows| && id !in polled && Claimable(before, cfg, before.rows[id], shards)
      ensures NotAfter(before.rows[polled[i]], before.rows[id])
    {
    }
  }

  /** When nothing is claimable any more, nothing was left over. */
  lemma NothingLeft(cfg: Config, before: System, s: System, shards: set<nat>, polled: seq<nat>, first: nat)
    requires Batch(cfg, before, s, shards, polled, first)
    requires forall j :: 0 <= j < |s.rows| ==> !Claimable(s, cfg, s.rows[j], shards)
    ensures forall id :: 0 <= id < |before.rows| && id !in polled ==> !Claimable(before, cfg, before.rows[id], shards)
  {
    hide Batch, Claimable;
    forall id | 0 <= id < |before.rows| && id !in polled ensures !Claimable(before, cfg, before.rows[id], shards) {
      SameLength(cfg, before, s, shards, polled, first);
      StillClaimable(cfg, before, s, shards, polled, first, id);
    }
  }

  lemma NextIsClaimable(cfg: Config, s: System, shards: set<nat>, id: nat)
    requires IsNext(cfg, s, shards, id)
    ensures id < |s.rows| && Claimable(s, cfg, s.rows[id], shards)
  {
  }

  lemma SameLength(cfg: Config, before: System, s: System, shards: set<nat>, polled: seq<nat>, first: nat)
    requires Batch(cfg, before, s, shards, polled, first)
    ensures |s.rows| == |before.rows|
  {
  }

  /** The polled rows before the i-th have their outcome, the others are still locked. */
  ghost predicate Processed(cfg: Config, before: System, mid: System, s: System, polled: seq<nat>, first: nat, i: nat,
                            publisher: nat -> bool, backoff: nat -> int)
  {
    && i <= |polled| && |s.rows| == |mid.rows| && s.parts == mid.parts
    && |s.held| == |mid.held| == first + |polled|
    && (forall j :: first + i <= j < |mid.held| ==> s.held[j] == mid.held[j])
    && (forall id :: 0 <= id < |s.rows| && id !in polled[..i] ==> s.rows[id] == mid.rows[id])
    && (forall j :: 0 <= j < i ==>
          && polled[j] < |s.rows| == |before.rows|
          && s.rows[polled[j]] == AfterAttempt(cfg, before.rows[polled[j]], publisher(polled[j]), backoff(polled[j])))
  }

  ghost predicate Distinct(ids: seq<nat>) {
    forall i, j :: 0 <= i < j < |ids| ==> ids[i] != ids[j]
  }

  /** What the worker may rely on when it comes to the next row it took. */
  lemma NextIsLocked(cfg: Config, before: System, mid: System, s: System, shards: set<nat>, polled: seq<nat>, first: nat, i: nat,
                     publisher: nat -> bool, backoff: nat -> int)
    requires Processed(cfg, before, mid, s, polled, first, i, publisher, backoff) && i < |polled| && Distinct(polled)
    requires Took(cfg, before, mid, shards, polled[i], mid.held[first + i]) && mid.parts == before.parts
    ensures first + i < |s.held| && s.held[first + i].event == polled[i] < |s.rows| == |before.rows|
    ensures var id, r := polled[i], before.rows[polled[i]];
      && s.held[first + i].attempts == r.attempts
      && s.rows[id] == r.(status := Publishing, lockedAt := s.rows[id].lockedAt)
      && Visible(s, s.rows[id])
  {
    hide AfterAttempt;
    assert polled[i] !in polled[..i];
  }

  lemma NoneProcessed(cfg: Config, before: System, mid: System, polled: seq<nat>, first: nat,
                      publisher: nat -> bool, backoff: nat -> int)
    requires |mid.held| == first + |polled|
    ensures Processed(cfg, before, mid, mid, polled, first, 0, publisher, backoff)
  {
  }

  lemma AllProcessed(cfg: Config, before: System, mid: System, s: System, polled: seq<nat>, first: nat,
                     publisher: nat -> bool, backoff: nat -> int)
    requires Processed(cfg, before, mid, s, polled, first, |polled|, publisher, backoff) && |mid.rows| == |before.rows|
    requires forall id :: 0 <= id < |mid.rows| && id !in polled ==> mid.rows[id] == before.rows[id]
    ensures |s.rows| == |before.rows| && forall i :: 0 <= i < |polled| ==> polled[i] < |s.rows|
    ensures forall i :: 0 <= i < |polled| ==>
              s.rows[polled[i]] == AfterAttempt(cfg, before.rows[polled[i]], publisher(polled[i]), backoff(polled[i]))
    ensures forall id :: 0 <= id < |s.rows| && id !in polled ==> s.rows[id] == before.rows[id]
  {
    hide AfterAttempt;
    assert polled[..|polled|] == polled;
  }

  lemma OneMoreProcessed(cfg: Config, before: System, mid: System, s: System, s': System, polled: seq<nat>, first: nat, i: nat,
                         publisher: nat -> bool, backoff: nat -> int)
    requires Processed(cfg, before, mid, s, polled, first, i, publisher, backoff) && i < |polled| && Distinct(polled)
    requires polled[i] < |s.rows| == |before.rows|
    requires |s'.rows| == |s.rows| && |s'.held| == |s.held| && s'.parts == s.parts
    requires forall j :: 0 <= j < |s.held| && j != first + i ==> s'.held[j] == s.held[j]
    requires forall id :: 0 <= id < |s.rows| && id != polled[i] ==> s'.rows[id] == s.rows[id]
    requires s'.rows[polled[i]] == AfterAttempt(cfg, before.rows[polled[i]], publisher(polled[i]), backoff(polled[i]))
    ensures Processed(cfg, before, mid, s', polled, first, i + 1, publisher, backoff)
  {
    hide AfterAttempt;
    assert polled[..i + 1] == polled[..i] + [polled[i]];
  }

  class Jobs {
    var s: System
    const cfg: Config

    constructor (cfg: Config, s: System)
      ensures this.cfg == cfg && this.s == s
    {
      this.cfg := cfg;
      this.s := s;
    }

    // ---------------------------------------------------------- relay worker

    /** The first claimable row in the order of polling. */
    method FindNext(shards: set<nat>) returns (next: Option<nat>)
      ensures next.Some? ==> IsNext(cfg, s, shards, next.value)
      ensures next == None ==> forall j :: 0 <= j < |s.rows| ==> !Claimable(s, cfg, s.rows[j], shards)
    {
      hide Claimable;
      next := None;
      for id := 0 to |s.rows|
        invariant next == None ==> forall j :: 0 <= j < id ==> !Claimable(s, cfg, s.rows[j], shards)
        invariant next.Some? ==> next.value < id && Claimable(s, cfg, s.rows[next.value], shards)
        invariant next.Some? ==>
                    forall j :: 0 <= j < id && Claimable(s, cfg, s.rows[j], shards) ==> NotAfter(s.rows[next.value], s.rows[j])
      {
        if Claimable(s, cfg, s.rows[id], shards) && (next == None || !NotAfter(s.rows[next.value], s.rows[id])) {
          next := Some(id);
        }
      }
    }

    /** PollPending: claims the first rows the worker may take, up to the batch size. */
    method PollPending(shards: set<nat>, batchSize: nat) returns (polled: seq<nat>, first: nat)
      requires Inv(s)
      modifies this
      ensures Inv(s) && first == |old(s).held|
      ensures Batch(cfg, old(s), s, shards, polled, first) && |polled| <= batchSize
      ensures forall i :: 0 <= i < |polled| ==> polled[i] < |old(s).rows|
      ensures forall i :: 0 <= i < |polled| ==>
                var r := old(s).rows[polled[i]];
                && r.shard in shards && r.nextAttempt <= s.now
                && (r.status == Pending
                    || (r.status == Publishing && r.lockedAt.Some? && r.lockedAt.value < s.now - cfg.claimTTL))
      ensures forall id :: 0 <= id < |s.rows| && id !in polled ==>
                var r := old(s).rows[id];
                (&& r.shard in shards && r.nextAttempt <= s.now
                 && (r.status == Pending
                     || (r.status == Publishing && r.lockedAt.Some? && r.lockedAt.value < s.now - cfg.claimTTL))
                 && (r.partition.Some? ==> r.partition.value in s.parts && s.parts[r.partition.value].state == Attached)) ==>
                  && |polled| == batchSize
                  && forall i :: 0 <= i < |polled| ==>
                       var p := old(s).rows[polled[i]];
                       p.attempts < r.attempts || (p.attempts == r.attempts && p.createdAt <= r.createdAt)
    {
      polled := [];
      first := |s.held|;
      ghost var before := s;
      assert Batch(cfg, before, s, shards, polled, first);
      hide Inv, Batch, IsNext, Claimable, Poll;
      while |polled| < batchSize
        invariant Inv(s) && Batch(cfg, before, s, shards, polled, first) && |polled| <= batchSize
        decreases batchSize - |polled|
      {
        var next := FindNext(shards);
        SameLength(cfg, before, s, shards, polled, first);
        if next == None {
          NothingLeft(cfg, before, s, shards, polled, first);
          BatchMeans(cfg, before, s, shards, polled, first);
          return;
        }
        var id := next.value;
        NextIsClaimable(cfg, s, shards, id);
        PollKeeps(s, cfg, id, shards);
        BatchGrows(cfg, before, s, shards, polled, first, id);
        s := Poll(s, id);
        polled := polled + [id];
      }
      SameLength(cfg, before, s, shards, polled, first);
      BatchMeans(cfg, before, s, shards, polled, first);
    }

    /** processEvent, given the publisher's answer. */
    method ProcessEvent(k: nat, ok: bool, nextAttempt: int) returns (published: bool)
      requires k < |s.held|
      modifies this
      ensures s == Mark(Answer(old(s), k, ok), cfg, k, nextAttempt)
      ensures published <==> ok && Markable(old(s), old(s).held[k].event)
    {
      var e := s.held[k];
      s := Answer(s, k, ok);
      if ok {
        published := Markable(s, e.event);
        s := MarkPublished(s, e.event);
        return;
      }
      if e.attempts + 1 >= cfg.maxAttempts {
        s := MarkExhausted(s, e.event);
        return false;
      }
      s := MarkFailed(s, e.event, nextAttempt);
      return false;
    }

    /** processEvent on a row the worker still has locked. */
    method AttemptLocked(k: nat, ok: bool, next: int, ghost r: Row) returns (published: bool)
      requires Inv(s) && k < |s.held| && s.held[k].event < |s.rows| && s.held[k].attempts == r.attempts
      requires Visible(s, s.rows[s.held[k].event])
      requires s.rows[s.held[k].event] == r.(status := Publishing, lockedAt := s.rows[s.held[k].event].lockedAt)
      modifies this
      ensures Inv(s) && published == ok
      ensures |s.rows| == |old(s).rows| && |s.held| == |old(s).held| && s.parts == old(s).parts
      ensures forall j :: 0 <= j < |s.held| && j != k ==> s.held[j] == old(s).held[j]
      ensures forall i :: 0 <= i < |s.rows| && i != old(s).held[k].event ==> s.rows[i] == old(s).rows[i]
      ensures s.rows[old(s).held[k].event] == AfterAttempt(cfg, r, ok, next)
    {
      hide Inv, Mark, Answer;
      AttemptWrites(s, cfg, k, ok, next, r);
      AttemptKeeps(s, cfg, k, ok, next);
      published := ProcessEvent(k, ok, next);
    }

    /** RunOnce with no other worker in between: every polled row gets the outcome of its
        own publish, and the counters say how many. */
    method RunOnce(shards: set<nat>, batchSize: nat, publisher: nat -> bool, backoff: nat -> int)
      returns (count: nat, published: nat, polled: seq<nat>)
      requires Inv(s)
      modifies this
      ensures Inv(s) && count == |polled| && |s.rows| == |old(s).rows|
      ensures published == Successes(polled, publisher)
      ensures forall i :: 0 <= i < |polled| ==> polled[i] < |s.rows|
      ensures forall i :: 0 <= i < |polled| ==>
                s.rows[polled[i]] == AfterAttempt(cfg, old(s).rows[polled[i]], publisher(polled[i]), backoff(polled[i]))
      ensures forall id :: 0 <= id < |s.rows| && id !in polled ==> s.rows[id] == old(s).rows[id]
      ensures |polled| <= batchSize
      ensures |polled| < batchSize ==> forall id :: 0 <= id < |s.rows| && id !in polled ==>
                var r := old(s).rows[id];
                !(&& r.shard in shards && r.nextAttempt <= old(s).now && r.status == Pending
                  && (r.partition.Some? ==> r.partition.value in old(s).parts && old(s).parts[r.partition.value].state == Attached))
    {
      hide Inv, AfterAttempt, Visible, Took, Claimable, Processed;
      var first;
      polled, first := PollPending(shards, batchSize);
      ghost var before, mid := old(s), s;
      NoneProcessed(cfg, before, mid, polled, first, publisher, backoff);
      count := |polled|;
      published := 0;
      for i := 0 to |polled|
        invariant Inv(s) && Processed(cfg, before, mid, s, polled, first, i, publisher, backoff)
        invariant published == Successes(polled[..i], publisher)
      {
        var id := polled[i];
        ghost var at := s;
        NextIsLocked(cfg, before, mid, s, shards, polled, first, i, publisher, backoff);
        SuccessesStep(polled, i, publisher);
        var done := AttemptLocked(first + i, publisher(id), backoff(id), before.rows[id]);
        OneMoreProcessed(cfg, before, mid, at, s, polled, first, i, publisher, backoff);
        if done {
          published := published + 1;
        }
      }
      assert polled[..|polled|] == polled;
      AllProcessed(cfg, before, mid, s, polled, first, publisher, backoff);
    }

    // ---------------------------------------------------------- partition manager

    /** preCreate: from now on for the given number of weeks there is no gap. */
    method PreCreate(weeksAhead: nat)
      requires Inv(s)
      modifies this
      ensures Inv(s) && s == old(s).(parts := s.parts)
      ensures forall name :: name in old(s).parts ==> name in s.parts && s.parts[name] == old(s).parts[name]
      ensures forall t: nat :: WeekStart(s.now) <= t < WeekStart(s.now) + (weeksAhead + 1) * WEEK ==>
                ValidName(PartitionName(WeekStart(t))) ==> Covers(s, WeekStart(t))
    {
      hide WeekStart, PartitionName, ValidName, Inv, Create;
      var base := WeekStart(s.now);
      for i := 0 to weeksAhead + 1
        invariant Inv(s) && s == old(s).(parts := s.parts)
        invariant forall name :: name in old(s).parts ==> name in s.parts && s.parts[name] == old(s).parts[name]
        invariant forall j :: 0 <= j < i ==> ValidName(PartitionName(base + j * WEEK)) ==> Covers(s, base + j * WEEK)
      {
        var start := base + i * WEEK;
        WholeWeeks(s.now, i);
        CreateKeeps(s, start);
        CreateCovers(s, start);
        CreateOnlyParts(s, start);
        s := Create(s, start);
      }
      forall t: nat | base <= t < base + (weeksAhead + 1) * WEEK
        ensures ValidName(PartitionName(WeekStart(t))) ==> Covers(s, WeekStart(t))
      {
        var j := WeekIndex(s.now, t, weeksAhead);
      }
    }

    /** PartitionsDetachedBefore: a detachment logged before the cutoff, and no drop logged. */
    method FindDropDue(name: string, cutoff: int) returns (due: bool)
      ensures due <==>
        (exists i :: 0 <= i < |s.log| && s.log[i].LogDetach? && s.log[i].name == name && s.log[i].at < cutoff)
        && forall i :: 0 <= i < |s.log| ==> s.log[i] != LogDrop(name)
      ensures due <==> DropDue(s, name, cutoff)
    {
      var detached, dropped := false, false;
      for i := 0 to |s.log|
        invariant detached <==> exists j :: 0 <= j < i && s.log[j].LogDetach? && s.log[j].name == name && s.log[j].at < cutoff
        invariant dropped <==> exists j :: 0 <= j < i && s.log[j] == LogDrop(name)
      {
        if s.log[i].LogDetach? && s.log[i].name == name && s.log[i].at < cutoff {
          detached := true;
        }
        if s.log[i] == LogDrop(name) {
          dropped := true;
        }
      }
      return detached && !dropped;
    }

    /** dropDetached for one partition: it is dropped, and the drop logged, exactly if it was
        detached long enough ago. */
    method DropOne(name: string)
      requires Inv(s)
      modifies this
      ensures Inv(s) && s == old(s).(parts := s.parts, log := s.log)
      ensures var due := (exists i :: (0 <= i < |old(s).log| && old(s).log[i].LogDetach? && old(s).log[i].name == name
                                       && old(s).log[i].at < s.now - cfg.dropAfter))
                         && LogDrop(name) !in old(s).log;
        if due
        then name in old(s).parts && s.parts == old(s).parts[name := old(s).parts[name].(state := Dropped)]
             && s.log == old(s).log + [LogDrop(name)]
        else s == old(s)
    {
      hide Inv;
      var due := FindDropDue(name, s.now - cfg.dropAfter);
      if due {
        DropAndLogKeeps(s, name, s.now - cfg.dropAfter);
        s := Drop(s, name);
        s := s.(log := s.log + [LogDrop(name)]);
      }
    }

    /** detachStale on counts from the replica: exactly the old partitions that were counted
        empty of undelivered rows are detached. */
    method DetachStale(names: seq<string>, clock: nat, counted: string -> Count)
      requires Inv(s) && LagFits(cfg) && s.maxOpen == cfg.maxOpen && clock <= s.now
      requires forall i :: 0 <= i < |names| ==>
                 var c := counted(names[i]); c in s.counts && c.name == names[i] && c.at + cfg.replicaLag >= clock
      modifies this
      ensures Inv(s) && s == old(s).(parts := s.parts) && s.parts.Keys == old(s).parts.Keys
      ensures forall name :: name in s.parts ==>
                s.parts[name] == if name in names && old(s).parts[name].state == Attached
                                    && old(s).parts[name].end < WeekStart(clock) - WEEK * cfg.retentionWeeks
                                    && counted(name).unpublished == 0
                                 then old(s).parts[name].(state := Detached) else old(s).parts[name]
    {
      hide Inv, WeekStart, WeekEndFromName, ValidName, LagFits;
      for i := 0 to |names|
        invariant Inv(s) && s == old(s).(parts := s.parts) && s.parts.Keys == old(s).parts.Keys
        invariant forall name :: name in s.parts ==>
                    s.parts[name] == if name in names[..i] && old(s).parts[name].state == Attached
                                        && old(s).parts[name].end < WeekStart(clock) - WEEK * cfg.retentionWeeks
                                        && counted(name).unpublished == 0
                                     then old(s).parts[name].(state := Detached) else old(s).parts[name]
      {
        var name := names[i];
        assert names[..i + 1] == names[..i] + [name];
        DetachDecision(s, name);
        var end := WeekEndFromName(name);
        if end.Some? && end.value < WeekStart(clock) - WEEK * cfg.retentionWeeks && ValidName(name) {
          if counted(name).unpublished == 0 {
            LaggedDetachKeeps(s, cfg, counted(name), clock);
            s := Detach(s, name);
          }
        }
      }
      assert names[..|names|] == names;
    }
  }

  ghost predicate Covers(s: System, start: nat) {
    var name := PartitionName(start);
    name in s.parts && s.parts[name] == Partition(start, start + WEEK, Attached)
  }

  function Successes(ids: seq<nat>, publisher: nat -> bool): nat {
    if ids == [] then 0
    else Successes(ids[..|ids| - 1], publisher) + (if publisher(ids[|ids| - 1]) then 1 else 0)
  }

  lemma SuccessesStep(ids: seq<nat>, i: nat, publisher: nat -> bool)
    requires i < |ids|
    ensures Successes(ids[..i + 1], publisher) == Successes(ids[..i], publisher) + (if publisher(ids[i]) then 1 else 0)
  {
    assert ids[..i + 1][..i] == ids[..i];
  }

  /** An answered and marked event keeps the invariant. */
  lemma AttemptKeeps(s: System, cfg: Config, k: nat, ok: bool, next: int)
    requires Inv(s) && k < |s.held|
    ensures Inv(Mark(Answer(s, k, ok), cfg, k, next))
  {
    hide Inv, Mark, RowsMove;
    AnswerKeeps(s, k, ok);
    MarkKeeps(Answer(s, k, ok), cfg, k, next);
  }

  /** It writes the one row, if that is still locked, and nothing else of the rows. */
  lemma AttemptWrites(s: System, cfg: Config, k: nat, ok: bool, next: int, r: Row)
    requires k < |s.held| && s.held[k].event < |s.rows| && s.held[k].attempts == r.attempts
    requires Visible(s, s.rows[s.held[k].event])
    requires s.rows[s.held[k].event] == r.(status := Publishing, lockedAt := s.rows[s.held[k].event].lockedAt)
    ensures Markable(s, s.held[k].event)
    ensures var s' := Mark(Answer(s, k, ok), cfg, k, next); var id := s.held[k].event;
      && |s'.rows| == |s.rows| && |s'.held| == |s.held| && s'.parts == s.parts
      && (forall j :: 0 <= j < |s.held| && j != k ==> s'.held[j] == s.held[j])
      && (forall i :: 0 <= i < |s.rows| && i != id ==> s'.rows[i] == s.rows[i])
      && s'.rows[id] == AfterAttempt(cfg, r, ok, next)
  {
  }

  lemma WholeWeeks(t: nat, i: nat)
    ensures WeekStart(WeekStart(t) + i * WEEK) == WeekStart(t) + i * WEEK
  {
    var a := WeekStart(t);
    assert (a + i * WEEK) % WEEK == 0;
    SameMultiple(a + i * WEEK, WeekStart(a + i * WEEK));
  }

  lemma CreateCovers(s: System, start: nat)
    requires Inv(s) && start == WeekStart(start) && start >= WeekStart(s.now)
    ensures ValidName(PartitionName(start)) ==> Covers(Create(s, start), start)
    ensures forall name :: name in s.parts ==>
              name in Create(s, start).parts && Create(s, start).parts[name] == s.parts[name]
  {
    var name := PartitionName(start);
    hide WeekStart, PartitionName, ValidName;
    if name in s.parts {
      assert PartOk(s, name);
      SameNameSameWeek(s.parts[name].start, start);
    }
  }

  lemma CreateOnlyParts(s: System, start: nat)
    ensures Create(s, start) == s.(parts := Create(s, start).parts)
  {
  }

  lemma WeekIndex(now: nat, t: nat, weeks: nat) returns (j: nat)
    requires WeekStart(now) <= t < WeekStart(now) + (weeks + 1) * WEEK
    ensures 0 <= j < weeks + 1 && WeekStart(t) == WeekStart(now) + j * WEEK
  {
    hide WeekStart;
    var a, b := WeekStart(now), WeekStart(t);
    WeekStartMonotone(a, t);
    WeekStartIdempotent(now);
    j := (b - a) / WEEK;
    MultipleOfWeek(a, b);
  }

  lemma MultipleOfWeek(a: nat, b: nat)
    requires a % WEEK == 0 && b % WEEK == 0
    ensures b == a + (b - a) / WEEK * WEEK
  {
    assert a == a / WEEK * WEEK && b == b / WEEK * WEEK;
    assert b - a == (b / WEEK - a / WEEK) * WEEK;
  }

  lemma DueIsKnown(s: System, name: string, cutoff: int)
    requires Inv(s) && exists i :: 0 <= i < |s.log| && s.log[i].LogDetach? && s.log[i].name == name && s.log[i].at < cutoff
    ensures name in s.parts
  {
  }

  lemma DropAndLogKeeps(s: System, name: string, cutoff: int)
    requires Inv(s) && DropDue(s, name, cutoff)
    ensures name in s.parts && Inv(Drop(s, name).(log := Drop(s, name).log + [LogDrop(name)]))
  {
    DueIsKnown(s, name, cutoff);
    hide Inv, DropDue, RowsMove;
    DropKeeps(s, name, cutoff);
    LogKeeps(Drop(s, name), LogDrop(name));
  }

  /** The name's own week decides, for every partition there is. */
  lemma DetachDecision(s: System, name: string)
    requires Inv(s)
    ensures name in s.parts ==> WeekEndFromName(name) == Some(s.parts[name].end) && ValidName(name)
  {
    if name in s.parts {
      assert PartOk(s, name);
      NameGivesWeek(s, name);
    }
  }
}
