/** The gateway circuit breaker: the scripts that change the stored record, against the
    transition table and cooldown of the domain object. */
module Breaker {
  import opened Basics

  datatype State = Closed | Open | HalfOpen

  /** The domain's transition table. */
  predicate InTable(from: State, to: State) {
    match from
    case Closed => to == Open
    case Open => to == HalfOpen
    case HalfOpen => to == Closed || to == Open
  }

  /** CooldownDuration, in seconds. */
  function CooldownDuration(failures: int): int {
    var n := if failures <= 0 then 1 else if failures > 4 then 4 else failures;
    var d := 60 * Pow2(n - 1);
    if d > 240 then 240 else d
  }

  function Pow2(n: nat): (r: nat)
    ensures r >= 1
  {
    if n == 0 then 1 else 2 * Pow2(n - 1)
  }

  // ------------------------------------------------------------ the domain object

  class CircuitBreaker {
    var state: State
    var cooldownUntil: int      // 0 for none
    var failures: int

    constructor (state: State, failures: int)
      ensures this.state == state && this.failures == failures && cooldownUntil == 0
    {
      this.state, this.failures, this.cooldownUntil := state, failures, 0;
    }

    method Transition(to: State, now: int) returns (ok: bool)
      modifies this
      ensures ok <==> InTable(old(state), to)
      ensures !ok ==> state == old(state) && failures == old(failures) && cooldownUntil == old(cooldownUntil)
      ensures ok ==> state == to && failures == NextFailures(old(failures), to)
                     && cooldownUntil == NextCooldown(old(failures), to, now)
    {
      if !InTable(state, to) {
        return false;
      }
      var from := state;
      state := to;
      if to == Open {
        failures := failures + 1;
        cooldownUntil := now + CooldownDuration(failures);
      } else if from == Open && to == HalfOpen {
        cooldownUntil := 0;
      } else {
        failures := 0;
        cooldownUntil := 0;
      }
      return true;
    }
  }

  /** What CircuitBreakerStore.Transition passes to the script. */
  function NextFailures(failures: int, to: State): int {
    match to
    case Open => failures + 1
    case Closed => 0
    case HalfOpen => failures
  }

  function NextCooldown(failures: int, to: State, now: int): int {
    if to == Open then now + CooldownDuration(NextFailures(failures, to)) else 0
  }

  // ------------------------------------------------------------ the scripts

  /** The stored record; an absent one, or an absent field, reads as closed with no failures. */
  datatype Record = Record(state: State, cooldownUntil: int, failures: int, score: int)

  const CLOSED_RECORD := Record(Closed, 0, 0, 0)

  function TransitionScript(raw: Record, to: State, cooldown: int, fails: int): Record {
    if (raw.state == Closed && to == Open) || (raw.state == Open && to == HalfOpen)
       || (raw.state == HalfOpen && (to == Closed || to == Open))
    then raw.(state := to, cooldownUntil := cooldown, failures := fails)
    else raw
  }

  /** floor(60 * 2 ^ (fails - 1)), at most 240. */
  function ScriptCooldown(fails: nat): int
    requires fails >= 1
  {
    var secs := 60 * Pow2(fails - 1);
    if secs > 240 then 240 else secs
  }

  function FailureScript(raw: Record, threshold: int, now: int): Record
    requires raw.failures >= 0
  {
    var fails := raw.failures + 1;
    if raw.state == HalfOpen || (raw.state == Closed && fails >= threshold) then
      raw.(state := Open, failures := fails, cooldownUntil := now + ScriptCooldown(fails))
    else
      raw.(failures := fails)
  }

  function SuccessScript(raw: Record): Record {
    raw.(state := if raw.state == HalfOpen then Closed else raw.state, failures := 0, cooldownUntil := 0)
  }

  function ScoreScript(raw: Record, score: int): Record {
    raw.(score := score)
  }

  /** The script's cooldown is the domain's, for every count of failures. */
  lemma CooldownsAgree(n: int)
    ensures CooldownDuration(n) == (if n <= 1 then 60 else if n == 2 then 120 else 240)
    ensures n >= 1 ==> ScriptCooldown(n) == CooldownDuration(n)
  {
    assert Pow2(0) == 1 && Pow2(1) == 2 && Pow2(2) == 4 && Pow2(3) == 8;
    if n > 4 {
      Pow2Grows(3, n - 1);
    }
  }

  lemma {:induction false} Pow2Grows(a: nat, b: nat)
    requires a <= b
    ensures Pow2(a) <= Pow2(b)
  {
    if a < b {
      Pow2Grows(a, b - 1);
    }
  }

  // ------------------------------------------------------------ runs

  /** What happens to one gateway's record. A Move carries the failure count of the copy
      the caller had read, which may be stale. */
  datatype Event =
    | Failure(now: int)
    | Success
    | Move(heldFailures: nat, to: State, at: int)
    | Score(value: int)

  function Next(r: Record, threshold: int, e: Event): (r': Record)
    requires r.failures >= 0
    ensures r'.failures >= 0
  {
    match e
    case Failure(now) => FailureScript(r, threshold, now)
    case Success => SuccessScript(r)
    case Move(held, to, at) => TransitionScript(r, to, NextCooldown(held, to, at), NextFailures(held, to))
    case Score(v) => ScoreScript(r, v)
  }

  function Run(threshold: int, es: seq<Event>): (r: Record)
    ensures r.failures >= 0
  {
    if es == [] then CLOSED_RECORD else Next(Run(threshold, es[..|es| - 1]), threshold, es[|es| - 1])
  }

  /** Failures recorded since the last success, or since the breaker was last closed. */
  function FailuresSince(threshold: int, es: seq<Event>): nat {
    if es == [] then 0
    else
      var before, e := es[..|es| - 1], es[|es| - 1];
      if e.Success? || (Run(threshold, before).state != Closed && Run(threshold, es).state == Closed) then 0
      else FailuresSince(threshold, before) + (if e.Failure? then 1 else 0)
  }

  /** Every run of the scripts is a stuttering path in the domain's table. */
  lemma ScriptsFollowTable(threshold: int, es: seq<Event>, n: nat)
    requires n < |es|
    ensures var s, s' := Run(threshold, es[..n]).state, Run(threshold, es[..n + 1]).state; s' == s || InTable(s, s')
  {
    assert es[..n + 1][..n] == es[..n];
  }

  /** An open breaker is left only by a move to half-open: neither failures nor successes close it. */
  lemma OpenWaitsForProbe(threshold: int, es: seq<Event>, e: Event)
    requires Run(threshold, es).state == Open
    ensures Run(threshold, []).state == Closed
    ensures var r, r' := Run(threshold, es), Run(threshold, es + [e]);
      && r'.state == (if e.Move? && e.to == HalfOpen then HalfOpen else Open)
      && (e.Failure? ==> r' == r.(failures := r.failures + 1))
      && (e.Success? ==> r' == r.(failures := 0, cooldownUntil := 0))
  {
    assert (es + [e])[..|es|] == es;
  }

  /** While closed, the stored count is the number of failures since the last success or
      close, and it is below the threshold. */
  lemma {:induction false} ClosedCountsFailures(threshold: int, es: seq<Event>)
    requires threshold >= 1
    ensures var r := Run(threshold, es);
      r.state == Closed ==> r.failures == FailuresSince(threshold, es) < threshold
  {
    if es != [] {
      ClosedCountsFailures(threshold, es[..|es| - 1]);
    }
  }

  /** So it opens exactly on the threshold-th failure, with the domain's cooldown for it. */
  lemma OpensExactlyAtThreshold(threshold: int, es: seq<Event>, now: int)
    requires threshold >= 1 && Run(threshold, es).state == Closed
    ensures var r' := Run(threshold, es + [Failure(now)]);
      && (r'.state == Open <==> FailuresSince(threshold, es) + 1 == threshold)
      && (r'.state == Open ==> r'.cooldownUntil == now + CooldownDuration(threshold))
  {
    ClosedCountsFailures(threshold, es);
    assert (es + [Failure(now)])[..|es|] == es;
    CooldownsAgree(threshold);
  }

  /** A half-open breaker reopens on any failure and closes on any success. */
  lemma HalfOpenDecides(threshold: int, es: seq<Event>, now: int)
    requires Run(threshold, es).state == HalfOpen
    ensures Run(threshold, es + [Failure(now)]).state == Open
    ensures Run(threshold, es + [Success]) == Run(threshold, es).(state := Closed, failures := 0, cooldownUntil := 0)
    ensures Run(threshold, es + [Failure(now)]).cooldownUntil
         == now + CooldownDuration(Run(threshold, es).failures + 1)
  {
    assert (es + [Failure(now)])[..|es|] == es && (es + [Success])[..|es|] == es;
    CooldownsAgree(Run(threshold, es).failures + 1);
  }

  /** The store behind the scripts. */
  class BreakerStore {
    var raw: Option<Record>

    constructor ()
      ensures raw == None && Stored().state == Closed && Stored().failures == 0 && Stored().cooldownUntil == 0
    {
      raw := None;
    }

    function Stored(): Record
      reads this
    {
      if raw.Some? then raw.value else CLOSED_RECORD
    }

    /** RecordFailure: whether it didOpen, and the count. */
    method RecordFailure(threshold: int, now: int) returns (didOpen: bool, fails: int)
      requires Stored().failures >= 0
      modifies this
      ensures Stored() == Next(old(Stored()), threshold, Failure(now))
      ensures didOpen <==> old(Stored()).state != Open && Stored().state == Open
      ensures fails == Stored().failures
    {
      var cb := if raw.Some? then raw.value else CLOSED_RECORD;
      fails := cb.failures + 1;
      didOpen := false;
      if cb.state == HalfOpen || (cb.state == Closed && fails >= threshold) {
        var secs := 60 * Pow2(fails - 1);
        if secs > 240 {
          secs := 240;
        }
        cb := cb.(state := Open, cooldownUntil := now + secs);
        didOpen := true;
      }
      raw := Some(cb.(failures := fails));
    }

    method RecordSuccess()
      requires Stored().failures >= 0
      modifies this
      ensures Stored() == Next(old(Stored()), 0, Success)
    {
      var cb := if raw.Some? then raw.value else CLOSED_RECORD;
      if cb.state == HalfOpen {
        cb := cb.(state := Closed);
      }
      raw := Some(cb.(failures := 0, cooldownUntil := 0));
    }

    /** SetLastKnownScore: the state and the count are not its business. */
    method SetScore(score: int)
      requires Stored().failures >= 0
      modifies this
      ensures Stored() == Next(old(Stored()), 0, Score(score))
      ensures Stored() == old(Stored()).(score := score)
    {
      var cb := if raw.Some? then raw.value else CLOSED_RECORD;
      raw := Some(Record(cb.state, cb.cooldownUntil, cb.failures, score));
    }

    /** Transition: moves the record if its own state allows, then follows on the caller's object. */
    method Transition(cb: CircuitBreaker, to: State, now: int) returns (ok: bool)
      requires cb.failures >= 0 && Stored().failures >= 0
      modifies this, cb
      ensures Stored() == Next(old(Stored()), 0, Move(old(cb.failures), to, now))
      ensures ok <==> InTable(old(Stored()).state, to)
      ensures ok ==> cb.state == Stored().state == to && cb.failures == Stored().failures
                     && cb.cooldownUntil == Stored().cooldownUntil
      ensures !ok ==> cb.state == old(cb.state) && cb.failures == old(cb.failures)
    {
      var newFails := cb.failures;
      if to == Open {
        newFails := newFails + 1;
      } else if to == Closed {
        newFails := 0;
      }
      var cooldown := 0;
      if to == Open {
        cooldown := now + CooldownDuration(newFails);
      }
      var before := if raw.Some? then raw.value else CLOSED_RECORD;
      if !InTable(before.state, to) {
        return false;
      }
      raw := Some(before.(state := to, cooldownUntil := cooldown, failures := newFails));
      cb.state := to;
      cb.failures := newFails;
      cb.cooldownUntil := cooldown;
      return true;
    }
  }
}
