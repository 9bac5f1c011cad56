/** The rate limiter's token-bucket script. Tokens and rates are real numbers, time is
    whole milliseconds. One call draws on several buckets at once, all or none. */
module TokenBucket {
  import opened Basics

  datatype Bucket = Bucket(tokens: real, lastMs: int)

  type Store = map<string, Bucket>

  datatype Limit = Limit(capacity: real, rate: real)   // rate is tokens per second

  const MIN_REFILL_RATE := 0.000000001

  /** Allow never passes the script a rate of zero or less. */
  function EffectiveRate(ratePerSec: real): (r: real)
    ensures r > 0.0
    ensures ratePerSec > 0.0 ==> r == ratePerSec
    ensures ratePerSec <= 0.0 ==> r == 0.000000001
  {
    if ratePerSec <= 0.0 then MIN_REFILL_RATE else ratePerSec
  }

  function Ceil(x: real): int { -((-x).Floor) }

  function MinR(a: real, b: real): real { if a < b then a else b }

  /** Seconds a bucket is kept after its last use. */
  function Ttl(l: Limit): int {
    if l.rate <= 0.0 then 3600 else Ceil(l.capacity / l.rate) + 10
  }

  function Gain(l: Limit, elapsedMs: int): real {
    (if elapsedMs > 0 then elapsedMs as real else 0.0) / 1000.0 * l.rate
  }

  /** The tokens of a bucket at a time, before anything is taken; an absent bucket is full. */
  function Level(s: Store, l: Limit, k: string, now: int): real {
    if k in s then MinR(l.capacity, s[k].tokens + Gain(l, now - s[k].lastMs)) else l.capacity
  }

  predicate Allowed(s: Store, l: Limit, keys: seq<string>, now: int, requested: real) {
    forall i :: 0 <= i < |keys| ==> Level(s, l, keys[i], now) >= requested
  }

  /** The wait one bucket asks for. */
  function Wait(s: Store, l: Limit, k: string, now: int, requested: real): int {
    var have := Level(s, l, k, now);
    if have >= requested then 0
    else if l.rate <= 0.0 then Ttl(l) * 1000
    else Ceil((requested - have) / l.rate * 1000.0)
  }

  function MaxWait(s: Store, l: Limit, keys: seq<string>, now: int, requested: real): int {
    if keys == [] then 0
    else
      var w := Wait(s, l, keys[|keys| - 1], now, requested);
      var m := MaxWait(s, l, keys[..|keys| - 1], now, requested);
      if w > m then w else m
  }

  /** The store after a call: every named bucket is refilled, and drawn on if the call is allowed. */
  function After(s: Store, l: Limit, keys: seq<string>, now: int, requested: real): Store {
    var spent := if Allowed(s, l, keys, now, requested) then requested else 0.0;
    s + map k | k in keys :: Bucket(Level(s, l, k, now) - spent, now)
  }

  /** The script reads one bucket and refills it. */
  method Refill(s: Store, l: Limit, k: string, now: int) returns (tokens: real)
    ensures tokens == Level(s, l, k, now)
  {
    var last := now;
    tokens := l.capacity;
    if k in s {
      tokens, last := s[k].tokens, s[k].lastMs;
    }
    var elapsed := (if now - last > 0 then (now - last) as real else 0.0) / 1000.0;
    tokens := MinR(l.capacity, tokens + elapsed * l.rate);
  }

  /** The script writes every bucket back. */
  method WriteBack(s: Store, l: Limit, keys: seq<string>, now: int, refilled: seq<real>, spent: real) returns (s': Store)
    requires |refilled| == |keys| && forall j :: 0 <= j < |keys| ==> refilled[j] == Level(s, l, keys[j], now)
    ensures s' == s + map k | k in keys :: Bucket(Level(s, l, k, now) - spent, now)
  {
    hide Level;
    s' := s;
    for i := 0 to |keys|
      invariant forall k :: k in s' <==> k in s || k in keys[..i]
      invariant forall k :: k in s' ==>
                  s'[k] == if k in keys[..i] then Bucket(Level(s, l, k, now) - spent, now) else s[k]
    {
      s' := s'[keys[i] := Bucket(refilled[i] - spent, now)];
      assert keys[..i + 1] == keys[..i] + [keys[i]];
    }
    assert keys[..|keys|] == keys;
  }

  /** The script: refill and decide in one loop, write back in another. */
  method Script(s: Store, l: Limit, keys: seq<string>, now: int, requested: real)
    returns (s': Store, allowed: bool, maxWait: int)
    ensures allowed == Allowed(s, l, keys, now, requested)
    ensures maxWait == MaxWait(s, l, keys, now, requested)
    ensures s' == After(s, l, keys, now, requested)
  {
    hide Level, Ceil;
    var refilled: seq<real> := [];
    allowed := true;
    maxWait := 0;
    assert keys[..0] == [];
    for i := 0 to |keys|
      invariant |refilled| == i && forall j :: 0 <= j < i ==> refilled[j] == Level(s, l, keys[j], now)
      invariant allowed == Allowed(s, l, keys[..i], now, requested)
      invariant maxWait == MaxWait(s, l, keys[..i], now, requested)
    {
      var tokens := Refill(s, l, keys[i], now);
      refilled := refilled + [tokens];
      OneMoreKey(s, l, keys, i, now, requested);
      WaitNeverNegative(s, l, keys[..i], now, requested);
      if tokens < requested {
        allowed := false;
        var wait;
        if l.rate <= 0.0 {
          wait := Ttl(l) * 1000;
        } else {
          wait := Ceil((requested - tokens) / l.rate * 1000.0);
        }
        if wait > maxWait {
          maxWait := wait;
        }
      }
    }
    assert keys[..|keys|] == keys;
    s' := WriteBack(s, l, keys, now, refilled, if allowed then requested else 0.0);
  }

  lemma OneMoreKey(s: Store, l: Limit, keys: seq<string>, i: nat, now: int, requested: real)
    requires i < |keys|
    ensures Allowed(s, l, keys[..i + 1], now, requested) <==>
            Allowed(s, l, keys[..i], now, requested) && Level(s, l, keys[i], now) >= requested
    ensures MaxWait(s, l, keys[..i + 1], now, requested)
         == (var w, m := Wait(s, l, keys[i], now, requested), MaxWait(s, l, keys[..i], now, requested);
             if w > m then w else m)
  {
    hide Level;
    var ks := keys[..i + 1];
    assert ks[..i] == keys[..i] && ks[i] == keys[i];
  }

  lemma {:induction false} WaitNeverNegative(s: Store, l: Limit, keys: seq<string>, now: int, requested: real)
    ensures MaxWait(s, l, keys, now, requested) >= 0
  {
    if keys != [] {
      WaitNeverNegative(s, l, keys[..|keys| - 1], now, requested);
    }
  }

  // ------------------------------------------------------------ bounds

  /** Every bucket holds between nothing and its capacity, and was last used by now. */
  ghost predicate Valid(s: Store, l: Limit, now: int) {
    l.capacity >= 0.0 && l.rate > 0.0
    && forall k :: k in s ==> 0.0 <= s[k].tokens <= l.capacity && s[k].lastMs <= now
  }

  lemma GainFacts(l: Limit, a: int, b: int)
    requires l.rate > 0.0
    ensures Gain(l, a) >= 0.0
    ensures a >= 0 && b >= 0 ==> Gain(l, a + b) == Gain(l, a) + Gain(l, b)
  {
    if a >= 0 && b >= 0 {
      assert (a + b) as real == a as real + b as real;
      Product(a as real / 1000.0, b as real / 1000.0, l.rate);
      assert (a as real + b as real) / 1000.0 == a as real / 1000.0 + b as real / 1000.0;
    }
    NonNegative(if a > 0 then a as real / 1000.0 else 0.0, l.rate);
  }

  lemma Product(x: real, y: real, r: real)
    ensures (x + y) * r == x * r + y * r
  {
  }

  lemma NonNegative(x: real, r: real)
    requires x >= 0.0 && r > 0.0
    ensures x * r >= 0.0
  {
  }

  lemma LevelBounds(s: Store, l: Limit, k: string, now: int)
    requires Valid(s, l, now)
    ensures 0.0 <= Level(s, l, k, now) <= l.capacity
  {
    if k in s { GainFacts(l, now - s[k].lastMs, 0); }
  }

  /** Tokens stay between zero and the capacity. */
  lemma CallKeepsValid(s: Store, l: Limit, keys: seq<string>, now: int, requested: real)
    requires Valid(s, l, now) && requested >= 0.0
    ensures Valid(After(s, l, keys, now, requested), l, now)
  {
    var s' := After(s, l, keys, now, requested);
    forall k | k in s' ensures 0.0 <= s'[k].tokens <= l.capacity && s'[k].lastMs <= now {
      LevelBounds(s, l, k, now);
      if k in keys {
        var i :| 0 <= i < |keys| && keys[i] == k;
        assert Allowed(s, l, keys, now, requested) ==> Level(s, l, keys[i], now) >= requested;
      }
    }
  }

  /** Waiting refills a bucket by at most the rate, and never above its capacity. */
  lemma LevelGrows(s: Store, l: Limit, k: string, t: int, u: int)
    requires Valid(s, l, t) && t <= u
    ensures Level(s, l, k, u) == MinR(l.capacity, Level(s, l, k, t) + Gain(l, u - t))
  {
    GainFacts(l, u - t, 0);
    if k in s {
      GainFacts(l, t - s[k].lastMs, u - t);
      GainFacts(l, t - s[k].lastMs, 0);
    }
  }

  // ------------------------------------------------------------ runs and windows

  datatype Call = Call(keys: seq<string>, now: int)

  ghost predicate Monotone(calls: seq<Call>) {
    forall i, j :: 0 <= i < j < |calls| ==> calls[i].now <= calls[j].now
  }

  /** The store after a run of one-token calls from an empty store. */
  function Run(l: Limit, calls: seq<Call>): Store {
    if calls == [] then map[]
    else
      var c := calls[|calls| - 1];
      After(Run(l, calls[..|calls| - 1]), l, c.keys, c.now, 1.0)
  }

  function Admits(l: Limit, calls: seq<Call>, i: nat): bool
    requires i < |calls|
  {
    Allowed(Run(l, calls[..i]), l, calls[i].keys, calls[i].now, 1.0)
  }

  /** The calls on a key admitted at or after a time. */
  function AdmittedSince(l: Limit, calls: seq<Call>, k: string, since: int): nat {
    if calls == [] then 0
    else
      var n := |calls| - 1;
      AdmittedSince(l, calls[..n], k, since)
      + (if calls[n].now >= since && k in calls[n].keys && Admits(l, calls, n) then 1 else 0)
  }

  lemma {:induction false} RunValid(l: Limit, calls: seq<Call>, now: int)
    requires l.capacity >= 0.0 && l.rate > 0.0 && Monotone(calls)
    requires calls != [] ==> calls[|calls| - 1].now <= now
    ensures Valid(Run(l, calls), l, now)
  {
    if calls != [] {
      var n := |calls| - 1;
      var c := calls[n];
      RunValid(l, calls[..n], c.now);
      CallKeepsValid(Run(l, calls[..n]), l, c.keys, c.now, 1.0);
    }
  }

  /** What was admitted since a time, plus what is left, is at most a full bucket and the refill. */
  lemma {:induction false} WindowPotential(l: Limit, calls: seq<Call>, k: string, since: int, now: int)
    requires l.capacity >= 0.0 && l.rate > 0.0 && Monotone(calls) && since <= now
    requires calls != [] ==> calls[|calls| - 1].now <= now
    ensures AdmittedSince(l, calls, k, since) as real + Level(Run(l, calls), l, k, now)
            <= l.capacity + Gain(l, now - since)
  {
    GainFacts(l, now - since, 0);
    RunValid(l, calls, now);
    LevelBounds(Run(l, calls), l, k, now);
    if calls != [] {
      var n := |calls| - 1;
      var c := calls[n];
      var front := calls[..n];
      var before, after := Run(l, front), Run(l, calls);
      RunValid(l, front, c.now);
      RunValid(l, calls, c.now);
      if c.now < since {
        NoneAdmitted(l, calls, k, since);
      } else {
        WindowPotential(l, front, k, since, c.now);
        CallLevel(before, l, c.keys, c.now, k);
        LevelGrows(after, l, k, c.now, now);
        GainFacts(l, c.now - since, now - c.now);
      }
    }
  }

  lemma {:induction false} NoneAdmitted(l: Limit, calls: seq<Call>, k: string, since: int)
    requires Monotone(calls) && calls != [] && calls[|calls| - 1].now < since
    ensures AdmittedSince(l, calls, k, since) == 0
  {
    var n := |calls| - 1;
    if n > 0 {
      NoneAdmitted(l, calls[..n], k, since);
    }
  }

  /** An admitted call takes one token from each of its buckets; nothing else changes a level. */
  lemma CallLevel(s: Store, l: Limit, keys: seq<string>, now: int, k: string)
    requires Valid(s, l, now)
    ensures var taken := if k in keys && Allowed(s, l, keys, now, 1.0) then 1.0 else 0.0;
            Level(After(s, l, keys, now, 1.0), l, k, now) == Level(s, l, k, now) - taken
  {
    LevelBounds(s, l, k, now);
    GainFacts(l, 0, 0);
    assert Gain(l, 0) == 0.0;
  }

  /** For every key and every window [since, now] of a run with a monotone clock, the calls
      admitted on the key number at most the capacity plus the refill over the window. */
  lemma AdmittedWithinWindow(capacity: real, ratePerSec: real, calls: seq<Call>, k: string, since: int, now: int)
    requires capacity >= 0.0 && Monotone(calls) && since <= now
    requires calls != [] ==> calls[|calls| - 1].now <= now
    ensures var l := Limit(capacity, EffectiveRate(ratePerSec));
            AdmittedSince(l, calls, k, since) as real <= l.capacity + l.rate * ((now - since) as real / 1000.0)
  {
    hide Run, AdmittedSince, Level, EffectiveRate;
    var l := Limit(capacity, EffectiveRate(ratePerSec));
    WindowPotential(l, calls, k, since, now);
    RunValid(l, calls, now);
    LevelBounds(Run(l, calls), l, k, now);
  }

  // ------------------------------------------------------------ what cannot be noticed

  /** Two stores no later call can tell apart. */
  ghost predicate Same(l: Limit, a: Store, b: Store, now: int) {
    forall k, t :: t >= now ==> Level(a, l, k, t) == Level(b, l, k, t)
  }

  /** Indistinguishable stores decide alike and stay indistinguishable. */
  lemma SameDecides(l: Limit, a: Store, b: Store, keys: seq<string>, now: int, requested: real)
    requires Same(l, a, b, now)
    ensures Allowed(a, l, keys, now, requested) == Allowed(b, l, keys, now, requested)
    ensures MaxWait(a, l, keys, now, requested) == MaxWait(b, l, keys, now, requested)
    ensures Same(l, After(a, l, keys, now, requested), After(b, l, keys, now, requested), now)
  {
    SameWait(l, a, b, keys, now, requested);
    assert Allowed(a, l, keys, now, requested) == Allowed(b, l, keys, now, requested);
    hide After, Level, Allowed, MaxWait;
    var a', b' := After(a, l, keys, now, requested), After(b, l, keys, now, requested);
    forall k, t | t >= now ensures Level(a', l, k, t) == Level(b', l, k, t) {
      LevelAfter(a, l, keys, now, requested, k, t);
      LevelAfter(b, l, keys, now, requested, k, t);
      assert Level(a, l, k, now) == Level(b, l, k, now) && Level(a, l, k, t) == Level(b, l, k, t);
    }
  }

  lemma LevelAfter(s: Store, l: Limit, keys: seq<string>, now: int, requested: real, k: string, t: int)
    ensures var spent := if Allowed(s, l, keys, now, requested) then requested else 0.0;
      Level(After(s, l, keys, now, requested), l, k, t)
      == if k in keys then MinR(l.capacity, Level(s, l, k, now) - spent + Gain(l, t - now)) else Level(s, l, k, t)
  {
  }

  lemma {:induction false} SameWait(l: Limit, a: Store, b: Store, keys: seq<string>, now: int, requested: real)
    requires Same(l, a, b, now)
    ensures MaxWait(a, l, keys, now, requested) == MaxWait(b, l, keys, now, requested)
  {
    if keys != [] {
      SameWait(l, a, b, keys[..|keys| - 1], now, requested);
    }
  }

  /** A denied call spends nothing from any bucket: no later call can tell it was made. */
  lemma DeniedSpendsNothing(s: Store, l: Limit, keys: seq<string>, now: int, requested: real)
    requires Valid(s, l, now) && !Allowed(s, l, keys, now, requested)
    ensures Same(l, After(s, l, keys, now, requested), s, now)
  {
    var s' := After(s, l, keys, now, requested);
    forall k, t | t >= now ensures Level(s', l, k, t) == Level(s, l, k, t) {
      LevelGrows(s, l, k, now, t);
    }
  }

  /** Forgetting a bucket once its time to live is over cannot be noticed either. */
  lemma ExpiryIsInvisible(s: Store, l: Limit, k: string, now: int)
    requires Valid(s, l, now) && k in s && now >= s[k].lastMs + Ttl(l) * 1000
    ensures Same(l, s - {k}, s, now)
  {
    var b := s[k];
    forall j, t | t >= now ensures Level(s - {k}, l, j, t) == Level(s, l, j, t) {
      if j == k {
        FullAfterTtl(l, t - b.lastMs);
      }
    }
  }

  /** A bucket is kept ten to eleven seconds beyond the time an empty one takes to fill; one that
      does not refill, an hour, which is also the wait it asks for. */
  lemma KeptBeyondFull(s: Store, l: Limit, k: string, now: int, requested: real)
    ensures l.rate > 0.0 ==> (Ttl(l) - 10) as real * l.rate >= l.capacity > (Ttl(l) - 11) as real * l.rate
    ensures l.rate <= 0.0 ==> Ttl(l) == 3600 && Wait(s, l, k, now, requested) in {0, 3600000}
  {
    if l.rate > 0.0 {
      var x := l.capacity / l.rate;
      var d := Ceil(x);
      assert x * l.rate == l.capacity;
      CeilBound(x, d - 1);
      AtLeast(x, d as real, l.rate);
      StrictlyPositive(x - (d - 1) as real, l.rate);
    }
  }

  lemma FullAfterTtl(l: Limit, elapsed: int)
    requires l.capacity >= 0.0 && l.rate > 0.0 && elapsed >= Ttl(l) * 1000
    ensures Gain(l, elapsed) >= l.capacity
  {
    var c := l.capacity / l.rate;
    CeilBound(c, 0);
    assert c * l.rate == l.capacity;
    assert c >= 0.0 by { if c < 0.0 { NegativeProduct(c, l.rate); } }
    var secs := elapsed as real / 1000.0;
    assert elapsed as real >= 1000.0 * (Ceil(c) as real);
    assert secs >= c;
    AtLeast(c, secs, l.rate);
  }

  lemma CeilBound(x: real, d: int)
    ensures Ceil(x) as real >= x
    ensures d as real >= x <==> d >= Ceil(x)
  {
  }

  lemma NegativeProduct(x: real, r: real)
    requires x < 0.0 && r > 0.0
    ensures x * r < 0.0
  {
  }

  lemma AtLeast(x: real, y: real, r: real)
    requires x <= y && r > 0.0
    ensures x * r <= y * r
  {
    NonNegative(y - x, r);
  }

  datatype Event = Use(keys: seq<string>, now: int) | Expire(key: string, now: int)

  ghost predicate Timely(es: seq<Event>) {
    forall i, j :: 0 <= i < j < |es| ==> es[i].now <= es[j].now
  }

  /** The store that forgets: it may drop a bucket any time after its time to live. */
  function Forgetful(l: Limit, es: seq<Event>): Store {
    if es == [] then map[]
    else
      var s := Forgetful(l, es[..|es| - 1]);
      match es[|es| - 1]
      case Use(keys, now) => After(s, l, keys, now, 1.0)
      case Expire(k, now) => if k in s && now >= s[k].lastMs + Ttl(l) * 1000 then s - {k} else s
  }

  /** The store that never forgets. */
  function Faithful(l: Limit, es: seq<Event>): Store {
    if es == [] then map[]
    else
      var s := Faithful(l, es[..|es| - 1]);
      match es[|es| - 1]
      case Use(keys, now) => After(s, l, keys, now, 1.0)
      case Expire(_, _) => s
  }

  lemma {:induction false} ForgetfulSame(l: Limit, es: seq<Event>, now: int)
    requires l.capacity >= 0.0 && l.rate > 0.0 && Timely(es)
    requires es != [] ==> es[|es| - 1].now <= now
    ensures Valid(Forgetful(l, es), l, now)
    ensures Same(l, Forgetful(l, es), Faithful(l, es), now)
  {
    if es != [] {
      var n := |es| - 1;
      var e := es[n];
      ForgetfulSame(l, es[..n], e.now);
      var a, b := Forgetful(l, es[..n]), Faithful(l, es[..n]);
      match e
      case Use(keys, t) =>
        CallKeepsValid(a, l, keys, t, 1.0);
        SameDecides(l, a, b, keys, t, 1.0);
      case Expire(k, t) =>
        if k in a && t >= a[k].lastMs + Ttl(l) * 1000 {
          ExpiryIsInvisible(a, l, k, t);
        }
    }
  }

  /** Key expiry is invisible: after any run, the forgetful and the faithful store give the
      same decision and the same wait to the next call. */
  lemma ExpiryChangesNoDecision(capacity: real, ratePerSec: real, es: seq<Event>, keys: seq<string>, now: int)
    requires capacity >= 0.0 && Timely(es) && (es != [] ==> es[|es| - 1].now <= now)
    ensures var l := Limit(capacity, EffectiveRate(ratePerSec));
      Allowed(Forgetful(l, es), l, keys, now, 1.0) == Allowed(Faithful(l, es), l, keys, now, 1.0)
      && MaxWait(Forgetful(l, es), l, keys, now, 1.0) == MaxWait(Faithful(l, es), l, keys, now, 1.0)
  {
    var l := Limit(capacity, EffectiveRate(ratePerSec));
    ForgetfulSame(l, es, now);
    SameDecides(l, Forgetful(l, es), Faithful(l, es), keys, now, 1.0);
  }

  // The script itself also has a branch for a rate of zero or less, which Allow never reaches.

  ghost predicate SameAnswer(l: Limit, es: seq<Event>, keys: seq<string>, now: int) {
    Allowed(Forgetful(l, es), l, keys, now, 1.0) == Allowed(Faithful(l, es), l, keys, now, 1.0)
    && MaxWait(Forgetful(l, es), l, keys, now, 1.0) == MaxWait(Faithful(l, es), l, keys, now, 1.0)
  }

  ghost predicate InTime(es: seq<Event>, now: int) {
    Timely(es) && (es != [] ==> es[|es| - 1].now <= now)
  }

  /** For the script as it stands, with any rate, expiry is invisible in all runs if and only if
      the bucket refills or can never admit a call. */
  lemma ExpiryInvisibleIff(l: Limit)
    requires l.capacity >= 0.0
    ensures (forall es: seq<Event>, keys: seq<string>, now: int :: InTime(es, now) ==> SameAnswer(l, es, keys, now))
            <==> l.rate > 0.0 || l.capacity < 1.0
  {
    hide Forgetful, Faithful, Same;
    if l.rate > 0.0 || l.capacity < 1.0 {
      forall es: seq<Event>, keys: seq<string>, now: int | InTime(es, now) ensures SameAnswer(l, es, keys, now) {
        if l.rate > 0.0 {
          ForgetfulSame(l, es, now);
          SameDecides(l, Forgetful(l, es), Faithful(l, es), keys, now, 1.0);
        } else {
          NeverAdmits(l, Forgetful(l, es), Faithful(l, es), keys, now);
        }
      }
    } else {
      ExpiryVisible(l);
    }
  }

  lemma {:induction false} NeverAdmits(l: Limit, a: Store, b: Store, keys: seq<string>, now: int)
    requires l.capacity < 1.0 && l.rate <= 0.0
    ensures Allowed(a, l, keys, now, 1.0) == Allowed(b, l, keys, now, 1.0) == (keys == [])
    ensures MaxWait(a, l, keys, now, 1.0) == MaxWait(b, l, keys, now, 1.0)
  {
    if keys != [] {
      NeverAdmits(l, a, b, keys[..|keys| - 1], now);
      assert Level(a, l, keys[0], now) < 1.0 && Level(b, l, keys[0], now) < 1.0;
    }
  }

  function Uses(k: string, n: nat): (es: seq<Event>)
    ensures |es| == n && forall i :: 0 <= i < n ==> es[i] == Use([k], 0)
  {
    seq(n, _ => Use([k], 0))
  }

  lemma TakeOne(l: Limit, s: Store, k: string, left: real)
    requires if k in s then s == map[k := Bucket(left, 0)] else s == map[] && left == l.capacity
    requires 1.0 <= left <= l.capacity
    ensures After(s, l, [k], 0, 1.0) == map[k := Bucket(left - 1.0, 0)]
  {
    assert Gain(l, 0) == 0.0;
    assert Level(s, l, k, 0) == left;
    hide Level;
    assert Allowed(s, l, [k], 0, 1.0);
    assert k in [k];
  }

  lemma {:induction false} UsesDrain(l: Limit, k: string, n: nat)
    requires n as real <= l.capacity
    ensures Forgetful(l, Uses(k, n)) == Faithful(l, Uses(k, n))
         == if n == 0 then map[] else map[k := Bucket(l.capacity - n as real, 0)]
  {
    hide After;
    if n > 0 {
      UsesDrain(l, k, n - 1);
      assert Uses(k, n)[..n - 1] == Uses(k, n - 1);
      TakeOne(l, Faithful(l, Uses(k, n - 1)), k, l.capacity - (n - 1) as real);
    }
  }

  /** Once the bucket is drained it stays so; an hour later it is forgotten, and full again. */
  lemma ExpiryVisible(l: Limit)
    requires l.capacity >= 1.0 && l.rate <= 0.0
    ensures exists es: seq<Event>, keys: seq<string>, now: int :: InTime(es, now) && !SameAnswer(l, es, keys, now)
  {
    hide Forgetful, Faithful, Level, Allowed, MaxWait, Uses, InTime;
    var k: string, n, hour := "", l.capacity.Floor, 3600000;
    var left := l.capacity - n as real;
    var es := Uses(k, n) + [Expire(k, hour)];
    UsesDrain(l, k, n);
    LastForgets(l, k, n, es);
    DrainedStays(l, k, left, hour);
    UsesInTime(k, n, hour);
    assert !SameAnswer(l, es, [k], hour);
  }

  lemma UsesInTime(k: string, n: nat, later: int)
    requires later >= 0
    ensures InTime(Uses(k, n) + [Expire(k, later)], later)
  {
  }

  lemma LastForgets(l: Limit, k: string, n: nat, es: seq<Event>)
    requires l.rate <= 0.0 && es == Uses(k, n) + [Expire(k, 3600000)]
    requires Forgetful(l, Uses(k, n)) == Faithful(l, Uses(k, n)) == map[k := Bucket(l.capacity - n as real, 0)]
    ensures Faithful(l, es) == map[k := Bucket(l.capacity - n as real, 0)] && Forgetful(l, es) == map[]
  {
    assert es[..n] == Uses(k, n);
    var s: Store := map[k := Bucket(l.capacity - n as real, 0)];
    assert s - {k} == map[];
  }

  lemma DrainedStays(l: Limit, k: string, left: real, now: int)
    requires left < 1.0 <= l.capacity && l.rate <= 0.0 && now >= 0
    ensures !Allowed(map[k := Bucket(left, 0)], l, [k], now, 1.0) && Allowed(map[], l, [k], now, 1.0)
  {
    NotPositive(now as real / 1000.0, l.rate);
    assert Gain(l, now) <= 0.0;
    var s: Store := map[k := Bucket(left, 0)];
    assert Level(s, l, [k][0], now) < 1.0;
  }

  lemma NotPositive(x: real, r: real)
    requires x >= 0.0 && r <= 0.0
    ensures x * r <= 0.0
  {
  }

  // ------------------------------------------------------------ the wait

  lemma Threshold(rate: real, gap: real, d: int)
    requires rate > 0.0 && gap > 0.0 && d >= 0
    ensures d as real / 1000.0 * rate >= gap <==> d >= Ceil(gap / rate * 1000.0)
  {
    var x := gap / rate;
    assert x * rate == gap;
    CeilBound(x * 1000.0, d);
    var secs := d as real / 1000.0;
    if secs >= x { AtLeast(x, secs, rate); }
    if secs < x { NonNegative(x - secs, rate); StrictlyPositive(x - secs, rate); }
    assert d as real >= x * 1000.0 <==> secs >= x;
  }

  lemma StrictlyPositive(x: real, r: real)
    requires x > 0.0 && r > 0.0
    ensures x * r > 0.0
  {
  }

  /** One bucket, left alone after a denied call, has enough exactly from its wait on. */
  lemma BucketReadyAfterWait(s: Store, l: Limit, k: string, now: int, requested: real, d: int)
    requires Valid(s, l, now) && 0.0 <= requested <= l.capacity && d >= 0
    ensures Level(s, l, k, now + d) >= requested <==> d >= Wait(s, l, k, now, requested)
  {
    LevelGrows(s, l, k, now, now + d);
    var have := Level(s, l, k, now);
    GainFacts(l, d, 0);
    if have < requested {
      Threshold(l.rate, requested - have, d);
      assert Gain(l, d) == d as real / 1000.0 * l.rate;
    }
  }

  lemma {:induction false} AllReadyAfterMaxWait(s: Store, l: Limit, keys: seq<string>, now: int, requested: real, d: int)
    requires Valid(s, l, now) && 0.0 <= requested <= l.capacity && d >= 0
    ensures Allowed(s, l, keys, now + d, requested) <==> d >= MaxWait(s, l, keys, now, requested)
  {
    if keys != [] {
      var n := |keys| - 1;
      AllReadyAfterMaxWait(s, l, keys[..n], now, requested, d);
      BucketReadyAfterWait(s, l, keys[n], now, requested, d);
      assert Allowed(s, l, keys, now + d, requested) <==>
             Allowed(s, l, keys[..n], now + d, requested) && Level(s, l, keys[n], now + d) >= requested;
    }
  }

  /** The wait returned with a denial is the least number of whole milliseconds after which
      the same call, with none in between, is admitted; if a single call asks for more than
      the capacity, no wait is long enough. */
  lemma WaitIsLeast(s: Store, l: Limit, keys: seq<string>, now: int, requested: real, d: int)
    requires Valid(s, l, now) && requested >= 0.0 && d >= 0 && !Allowed(s, l, keys, now, requested)
    ensures var s' := After(s, l, keys, now, requested); var wait := MaxWait(s, l, keys, now, requested);
      if requested <= l.capacity
      then (Allowed(s', l, keys, now + d, requested) <==> d >= wait)
      else !Allowed(s', l, keys, now + d, requested)
  {
    var s' := After(s, l, keys, now, requested);
    DeniedSpendsNothing(s, l, keys, now, requested);
    CallKeepsValid(s, l, keys, now, requested);
    if requested <= l.capacity {
      SameWait(l, s', s, keys, now, requested);
      AllReadyAfterMaxWait(s', l, keys, now, requested, d);
    } else {
      LevelBounds(s', l, keys[0], now + d);
    }
  }
}
