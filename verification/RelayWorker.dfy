/** A relay worker polls the shards that the ring gives it. */
module RelayWorker {
  import opened Basics
  import opened HashRing
  import opened Outbox
  import opened OutboxJobs

  function ToSet(ids: seq<nat>): (r: set<nat>)
    ensures forall x :: x in r <==> x in ids
  {
    set x | x in ids
  }

  /** Who owns a shard on a ring. */
  ghost predicate Owns(ring: seq<Vnode>, g: ShardHash, workerCount: int, worker: nat, shard: nat) {
    worker in (if workerCount <= 1 then [0] else Owners(ring, g(shard), workerCount))
  }

  /** Every row that is polled belongs to a shard of the worker; and unless the batch is full,
      every due and visible row of its shards is polled. */
  method PollOwned(jobs: Jobs, h: NodeHash, g: ShardHash, worker: nat, workerCount: int, shardCount: nat, batchSize: nat)
    returns (polled: seq<nat>, ghost ring: seq<Vnode>)
    requires Outbox.Inv(jobs.s) && (workerCount > 1 ==> DistinctPositions(h, workerCount))
    modifies jobs
    ensures Outbox.Inv(jobs.s) && (workerCount > 1 ==> IsRing(ring, h, workerCount)) && |polled| <= batchSize
    ensures forall i :: 0 <= i < |polled| ==> polled[i] < |old(jobs.s).rows|
    ensures forall i :: 0 <= i < |polled| ==>
              old(jobs.s).rows[polled[i]].shard < shardCount
              && Owns(ring, g, workerCount, worker, old(jobs.s).rows[polled[i]].shard)
    ensures |polled| < batchSize ==> forall id :: 0 <= id < |old(jobs.s).rows| ==>
              var r := old(jobs.s).rows[id];
              (&& r.shard < shardCount && Owns(ring, g, workerCount, worker, r.shard)
               && r.status == Pending && r.nextAttempt <= old(jobs.s).now
               && (r.partition.Some? ==>
                     r.partition.value in old(jobs.s).parts && old(jobs.s).parts[r.partition.value].state == Attached)) ==> id in polled
  {
    hide Outbox.Inv, IsRing, Owners, Batch, DistinctPositions;
    var owned;
    owned, ring := OwnedShards(h, g, worker, workerCount, shardCount);
    ghost var before := jobs.s;
    var first;
    polled, first := jobs.PollPending(ToSet(owned), batchSize);
    SizesAgree(jobs.cfg, before, jobs.s, ToSet(owned), polled, first);
  }

  lemma SizesAgree(cfg: Config, before: System, s: System, shards: set<nat>, polled: seq<nat>, first: nat)
    requires Batch(cfg, before, s, shards, polled, first)
    ensures |s.rows| == |before.rows| && s.now == before.now && s.parts == before.parts
  {
  }
}
