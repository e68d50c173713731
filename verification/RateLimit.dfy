/**
 The sliding-window limiter (app/rate_limit.py), and the limiter it must be indistinguishable from: one
 that keeps every admitted timestamp for ever.

 The clock reading is an argument; runs take it non-decreasing in lock order.
 */
module RateLimit {
  import opened Common

  const MAX_TRACKED_KEYS := 10000

  /** One call of `allow`.  The window is in whole seconds, the clock is not. */
  datatype Call = Call(key: string, limit: int, window: int, now: real) {
    function Cutoff(): real { now - window as real }
  }

  /** `Crashed` is the IndexError of `bucket[0]` on an empty bucket, reached when the limit is not positive. */
  datatype Decision = Allowed | Refused(retryAfter: int) | Crashed

  type Events = map<string, seq<real>>

  function Ceil(x: real): int { -((-x).Floor) }

  function RetryAfter(oldest: real, c: Call): int { Max(1, Ceil(oldest + c.window as real - c.now)) }

  function Decide(live: seq<real>, c: Call): Decision {
    if |live| < c.limit then Allowed
    else if live == [] then Crashed
    else Refused(RetryAfter(live[0], c))
  }

  // ---------- what the implementation does ----------

  function Prune(bucket: seq<real>, cutoff: real): seq<real> {
    if bucket != [] && bucket[0] <= cutoff then Prune(bucket[1..], cutoff) else bucket
  }

  predicate Expired(bucket: seq<real>, cutoff: real) { bucket == [] || bucket[|bucket| - 1] <= cutoff }

  function Evict(events: Events, cutoff: real): Events {
    map k | k in events && !Expired(events[k], cutoff) :: events[k]
  }

  function Bucket(events: Events, key: string): seq<real> { if key in events then events[key] else [] }

  function Tidied(events: Events, c: Call): Events {
    if |events| >= MAX_TRACKED_KEYS then Evict(events, c.Cutoff()) else events
  }

  function Current(events: Events, c: Call): seq<real> { Prune(Bucket(Tidied(events, c), c.key), c.Cutoff()) }

  function Verdict(events: Events, c: Call): Decision { Decide(Current(events, c), c) }

  function After(events: Events, c: Call): Events {
    var bucket := Current(events, c);
    Tidied(events, c)[c.key := if |bucket| < c.limit then bucket + [c.now] else bucket]
  }

  class SlidingWindowRateLimiter {
    var events: Events

    constructor ()
      ensures events == map[]
    {
      events := map[];
    }

    method EvictExpired(cutoff: real)
      modifies this
      ensures events == Evict(old(events), cutoff)
    {
      ghost var before := events;
      var todo := events.Keys;
      while todo != {}
        invariant todo <= before.Keys
        invariant events == map k | k in before && (k in todo || !Expired(before[k], cutoff)) :: before[k]
        decreases todo
      {
        var k :| k in todo;
        if Expired(events[k], cutoff) { events := events - {k}; }
        todo := todo - {k};
      }
    }

    method Allow(key: string, limit: int, window: int, now: real) returns (d: Decision)
      modifies this
      ensures d == Verdict(old(events), Call(key, limit, window, now))
      ensures events == After(old(events), Call(key, limit, window, now))
    {
      hide Evict, Expired, Ceil, Max;
      var cutoff := now - window as real;
      if |events| >= MAX_TRACKED_KEYS { EvictExpired(cutoff); }
      if key !in events { events := events[key := []]; }
      ghost var tidied, bucket := events, events[key];
      while events[key] != [] && events[key][0] <= cutoff
        invariant key in events && Prune(events[key], cutoff) == Prune(bucket, cutoff)
        invariant events == tidied[key := events[key]]
        decreases |events[key]|
      {
        events := events[key := events[key][1..]];
      }
      if |events[key]| >= limit {
        if events[key] == [] { return Crashed; }
        return Refused(Max(1, Ceil(events[key][0] + window as real - now)));
      }
      events := events[key := events[key] + [now]];
      return Allowed;
    }
  }

  // ---------- the reference: nothing is ever forgotten ----------

  /** Every element above `cutoff`. */
  function Above(times: seq<real>, cutoff: real): seq<real> {
    if times == [] then []
    else (if times[0] > cutoff then [times[0]] else []) + Above(times[1..], cutoff)
  }

  /** Every timestamp ever admitted for each key. */
  type Log = map<string, seq<real>>

  function RefVerdict(log: Log, c: Call): Decision { Decide(Above(Bucket(log, c.key), c.Cutoff()), c) }

  function RefAfter(log: Log, c: Call): Log {
    if RefVerdict(log, c).Allowed? then log[c.key := Bucket(log, c.key) + [c.now]] else log
  }

  // ---------- runs ----------

  function Run(calls: seq<Call>): Events {
    if calls == [] then map[] else After(Run(calls[..|calls| - 1]), calls[|calls| - 1])
  }

  function RefRun(calls: seq<Call>): Log {
    if calls == [] then map[] else RefAfter(RefRun(calls[..|calls| - 1]), calls[|calls| - 1])
  }

  /** One window length for every call, and a clock that does not run backwards. */
  ghost predicate Orderly(calls: seq<Call>, window: int) {
    && (forall i :: 0 <= i < |calls| ==> calls[i].window == window)
    && forall i, j :: 0 <= i < j < |calls| ==> calls[i].now <= calls[j].now
  }

  // ---------- pruning ----------

  ghost predicate Sorted(s: seq<real>) { forall i, j :: 0 <= i < j < |s| ==> s[i] <= s[j] }

  /** On sorted timestamps, dropping the dead prefix is dropping everything dead. */
  lemma {:induction false} PruneIsAbove(s: seq<real>, cutoff: real)
    requires Sorted(s)
    ensures Prune(s, cutoff) == Above(s, cutoff)
  {
    if s != [] {
      PruneIsAbove(s[1..], cutoff);
      if s[0] > cutoff {
        AllAbove(s[1..], cutoff);
        assert [s[0]] + s[1..] == s;
      }
    }
  }

  lemma {:induction false} AllAbove(s: seq<real>, cutoff: real)
    requires forall i :: 0 <= i < |s| ==> s[i] > cutoff
    ensures Above(s, cutoff) == s
  {
    if s != [] { AllAbove(s[1..], cutoff); }
  }

  lemma {:induction false} PruneAgain(s: seq<real>, c: real, d: real)
    requires c <= d
    ensures Prune(Prune(s, c), d) == Prune(s, d)
  {
    if s != [] && s[0] <= c { PruneAgain(s[1..], c, d); }
  }

  /** What is left is the part of `s` that starts at its first element above `cutoff`. */
  lemma {:induction false} PruneIsSuffix(s: seq<real>, cutoff: real) returns (n: nat)
    ensures n <= |s| && Prune(s, cutoff) == s[n..]
    ensures forall i :: 0 <= i < n ==> s[i] <= cutoff
    ensures n < |s| ==> s[n] > cutoff
  {
    n := 0;
    if s != [] && s[0] <= cutoff {
      var m := PruneIsSuffix(s[1..], cutoff);
      n := m + 1;
      assert s[1..][m..] == s[n..];
    }
  }

  lemma PruneSorted(s: seq<real>, cutoff: real)
    requires Sorted(s)
    ensures Sorted(Prune(s, cutoff))
    ensures forall i :: 0 <= i < |Prune(s, cutoff)| ==> Prune(s, cutoff)[i] > cutoff && Prune(s, cutoff)[i] in s
    ensures Prune(s, cutoff) == [] <==> Expired(s, cutoff)
  {
    var n := PruneIsSuffix(s, cutoff);
  }

  lemma {:induction false} PruneAppend(s: seq<real>, x: real, cutoff: real)
    requires forall i :: 0 <= i < |s| ==> s[i] <= x
    ensures Prune(s + [x], cutoff) == if x > cutoff then Prune(s, cutoff) + [x] else []
  {
    if s == [] {
      assert s + [x] == [x];
      assert x <= cutoff ==> Prune([x], cutoff) == Prune([x][1..], cutoff);
    } else {
      assert (s + [x])[1..] == s[1..] + [x];
      if s[0] <= cutoff { PruneAppend(s[1..], x, cutoff); }
    }
  }

  // ---------- refinement ----------

  /** What both sides know of a key at time `now`: the same live timestamps. */
  ghost predicate SameLive(bucket: seq<real>, times: seq<real>, cutoff: real, now: real) {
    && Sorted(bucket) && Sorted(times)
    && (forall i :: 0 <= i < |times| ==> times[i] <= now)
    && (forall i :: 0 <= i < |bucket| ==> bucket[i] <= now)
    && Prune(bucket, cutoff) == Prune(times, cutoff)
  }

  ghost predicate Agree(events: Events, log: Log, cutoff: real, now: real) {
    forall k :: SameLive(Bucket(events, k), Bucket(log, k), cutoff, now)
  }

  lemma AgreeLater(events: Events, log: Log, c: real, d: real, now: real, later: real)
    requires Agree(events, log, c, now) && c <= d && now <= later
    ensures Agree(events, log, d, later)
  {
    forall k ensures SameLive(Bucket(events, k), Bucket(log, k), d, later) {
      var bucket, times := Bucket(events, k), Bucket(log, k);
      assert SameLive(bucket, times, c, now);
      PruneAgain(bucket, c, d);
      PruneAgain(times, c, d);
    }
  }

  /** Eviction removes only keys without a live timestamp. */
  lemma EvictAgrees(events: Events, log: Log, cutoff: real, now: real)
    requires Agree(events, log, cutoff, now)
    ensures Agree(Evict(events, cutoff), log, cutoff, now)
  {
    forall k ensures SameLive(Bucket(Evict(events, cutoff), k), Bucket(log, k), cutoff, now) {
      assert SameLive(Bucket(events, k), Bucket(log, k), cutoff, now);
      PruneSorted(Bucket(events, k), cutoff);
    }
  }

  lemma VerdictAgrees(events: Events, log: Log, c: Call)
    requires Agree(events, log, c.Cutoff(), c.now)
    ensures SameLive(Bucket(Tidied(events, c), c.key), Bucket(log, c.key), c.Cutoff(), c.now)
    ensures Current(events, c) == Above(Bucket(log, c.key), c.Cutoff())
  {
    EvictAgrees(events, log, c.Cutoff(), c.now);
    assert SameLive(Bucket(Tidied(events, c), c.key), Bucket(log, c.key), c.Cutoff(), c.now);
    PruneIsAbove(Bucket(log, c.key), c.Cutoff());
  }

  lemma OtherKeyAgrees(events: Events, log: Log, c: Call, k: string)
    requires Agree(events, log, c.Cutoff(), c.now) && k != c.key
    ensures SameLive(Bucket(After(events, c), k), Bucket(RefAfter(log, c), k), c.Cutoff(), c.now)
  {
    EvictAgrees(events, log, c.Cutoff(), c.now);
    assert SameLive(Bucket(Tidied(events, c), k), Bucket(log, k), c.Cutoff(), c.now);
    assert Bucket(After(events, c), k) == Bucket(Tidied(events, c), k);
    assert Bucket(RefAfter(log, c), k) == Bucket(log, k);
  }

  lemma CalledKeyAgrees(events: Events, log: Log, c: Call)
    requires Agree(events, log, c.Cutoff(), c.now)
    ensures SameLive(Bucket(After(events, c), c.key), Bucket(RefAfter(log, c), c.key), c.Cutoff(), c.now)
  {
    VerdictAgrees(events, log, c);
    BucketAgrees(Bucket(Tidied(events, c), c.key), Bucket(log, c.key), c.Cutoff(), c.now);
  }

  lemma StepAgrees(events: Events, log: Log, c: Call)
    requires Agree(events, log, c.Cutoff(), c.now)
    ensures Verdict(events, c) == RefVerdict(log, c)
    ensures Agree(After(events, c), RefAfter(log, c), c.Cutoff(), c.now)
  {
    VerdictAgrees(events, log, c);
    forall k ensures SameLive(Bucket(After(events, c), k), Bucket(RefAfter(log, c), k), c.Cutoff(), c.now) {
      if k == c.key { CalledKeyAgrees(events, log, c); } else { OtherKeyAgrees(events, log, c, k); }
    }
  }

  /** The called key's bucket, pruned, with or without the new timestamp. */
  lemma BucketAgrees(bucket: seq<real>, times: seq<real>, cutoff: real, now: real)
    requires SameLive(bucket, times, cutoff, now)
    ensures SameLive(Prune(bucket, cutoff), times, cutoff, now)
    ensures SameLive(Prune(bucket, cutoff) + [now], times + [now], cutoff, now)
  {
    var live := Prune(bucket, cutoff);
    PruneSorted(bucket, cutoff);
    PruneAgain(bucket, cutoff, cutoff);
    PruneAppend(live, now, cutoff);
    PruneAppend(times, now, cutoff);
  }

  lemma {:induction false} RunsAgree(calls: seq<Call>, window: int, c: Call)
    requires Orderly(calls + [c], window)
    ensures Agree(Run(calls), RefRun(calls), c.Cutoff(), c.now)
    decreases |calls|
  {
    if calls != [] {
      var n := |calls| - 1;
      var last, next := calls[n], calls + [c];
      forall i, j | 0 <= i < j <= n ensures calls[i].now <= calls[j].now { assert next[i].now <= next[j].now; }
      forall i | 0 <= i <= n ensures calls[i].window == window { assert next[i].window == window; }
      assert next[n].now <= next[n + 1].now && next[n + 1].window == window;
      assert calls[..n] + [last] == calls;
      RunsAgree(calls[..n], window, last);
      StepAgrees(Run(calls[..n]), RefRun(calls[..n]), last);
      AgreeLater(Run(calls), RefRun(calls), last.Cutoff(), c.Cutoff(), last.now, c.now);
    }
  }

  /**
   After any orderly sequence of calls, the limiter that prunes and evicts answers the next call, with
   its retry time, exactly as the one that forgets nothing.
   */
  lemma LimiterForgetsNothing(calls: seq<Call>, window: int, c: Call)
    requires Orderly(calls + [c], window)
    ensures Verdict(Run(calls), c) == RefVerdict(RefRun(calls), c)
  {
    RunsAgree(calls, window, c);
    StepAgrees(Run(calls), RefRun(calls), c);
  }

  // ---------- limits that are not positive ----------

  /** A call fails on the empty bucket iff its limit is not positive and no timestamp of its key is live. */
  lemma CrashesIff(calls: seq<Call>, window: int, c: Call)
    requires Orderly(calls + [c], window)
    ensures Verdict(Run(calls), c).Crashed? <==> c.limit <= 0 && Above(Bucket(RefRun(calls), c.key), c.Cutoff()) == []
  {
    LimiterForgetsNothing(calls, window, c);
  }

  /** While every call on a key asks for the same limit. */
  ghost predicate UnchangedLimit(calls: seq<Call>, key: string, limit: int) {
    forall i :: 0 <= i < |calls| && calls[i].key == key ==> calls[i].limit == limit
  }

  lemma {:induction false} NothingAdmitted(calls: seq<Call>, key: string, limit: int)
    requires UnchangedLimit(calls, key, limit) && limit <= 0
    ensures Bucket(RefRun(calls), key) == []
  {
    if calls != [] { NothingAdmitted(calls[..|calls| - 1], key, limit); }
  }

  /**
   With an unchanged limit a call on the key ever crashes iff that limit is not positive; then every one
   does, and none is ever admitted.
   */
  lemma CrashesIffLimitNotPositive(calls: seq<Call>, window: int, c: Call)
    requires Orderly(calls + [c], window) && UnchangedLimit(calls, c.key, c.limit)
    ensures Verdict(Run(calls), c).Crashed? <==> c.limit <= 0
    ensures c.limit <= 0 ==> Bucket(RefRun(calls + [c]), c.key) == []
  {
    CrashesIff(calls, window, c);
    if c.limit <= 0 {
      NothingAdmitted(calls, c.key, c.limit);
      assert (calls + [c])[..|calls|] == calls;
    }
  }

  /** A limit of 0 is such a limit: the first call crashes. */
  lemma ZeroLimitCrashes(key: string, window: int, now: real)
    ensures Verdict(Run([]), Call(key, 0, window, now)) == Crashed
  {
  }

  // ---------- memory ----------

  /** The keys that have a timestamp above `cutoff`. */
  function LiveKeys(log: Log, cutoff: real): set<string> {
    set k | k in log && Above(log[k], cutoff) != []
  }

  /** After a call with a positive limit and window the table has at most max(10000, live keys) keys. */
  lemma TableStaysSmall(calls: seq<Call>, window: int, c: Call)
    requires Orderly(calls + [c], window) && 1 <= c.limit && 1 <= window
    ensures |Run(calls + [c])| <= Max(MAX_TRACKED_KEYS, |LiveKeys(RefRun(calls + [c]), c.Cutoff())|)
  {
    var events, log := Run(calls), RefRun(calls);
    RunsAgree(calls, window, c);
    StepAgrees(events, log, c);
    assert (calls + [c])[..|calls|] == calls;
    var after, log' := After(events, c), RefAfter(log, c);
    assert (calls + [c])[..|calls + [c]| - 1] == calls;
    assert Run(calls + [c]) == after && RefRun(calls + [c]) == log';
    if |events| >= MAX_TRACKED_KEYS {
      forall k | k in after ensures k in LiveKeys(log', c.Cutoff()) { KeptKeysAreLive(events, log, c, k); }
      assert after.Keys <= LiveKeys(log', c.Cutoff());
      SubsetIsSmaller(after.Keys, LiveKeys(log', c.Cutoff()));
      assert |after.Keys| == |after|;
    }
  }

  lemma KeptKeysAreLive(events: Events, log: Log, c: Call, k: string)
    requires |events| >= MAX_TRACKED_KEYS && 1 <= c.limit && 1 <= c.window
    requires Agree(events, log, c.Cutoff(), c.now) && k in After(events, c)
    requires Agree(After(events, c), RefAfter(log, c), c.Cutoff(), c.now)
    ensures k in LiveKeys(RefAfter(log, c), c.Cutoff())
  {
    var after, log' := After(events, c), RefAfter(log, c);
    assert SameLive(Bucket(after, k), Bucket(log', k), c.Cutoff(), c.now);
    PruneIsAbove(Bucket(log', k), c.Cutoff());
    PruneSorted(Bucket(after, k), c.Cutoff());
    if k == c.key {
      var bucket := Bucket(Tidied(events, c), k);
      EvictAgrees(events, log, c.Cutoff(), c.now);
      assert SameLive(bucket, Bucket(log, k), c.Cutoff(), c.now);
      PruneSorted(bucket, c.Cutoff());
    }
  }

  // ---------- the rate ----------

  /** How many calls on `key`, with a limit of at most `limit`, were admitted at times in (lo, hi]. */
  function AdmittedIn(calls: seq<Call>, key: string, limit: int, lo: real, hi: real): nat {
    if calls == [] then 0
    else
      var n := |calls| - 1;
      AdmittedIn(calls[..n], key, limit, lo, hi)
      + (if calls[n].key == key && calls[n].limit <= limit && lo < calls[n].now <= hi
            && Verdict(Run(calls[..n]), calls[n]).Allowed? then 1 else 0)
  }

  lemma OrderlyPrefix(calls: seq<Call>, window: int)
    requires calls != [] && Orderly(calls, window)
    ensures Orderly(calls[..|calls| - 1], window)
    ensures var n := |calls| - 1; Verdict(Run(calls[..n]), calls[n]) == RefVerdict(RefRun(calls[..n]), calls[n])
  {
    var n := |calls| - 1;
    assert calls[..n] + [calls[n]] == calls;
    LimiterForgetsNothing(calls[..n], window, calls[n]);
  }

  lemma {:induction false} AboveAppend(s: seq<real>, x: real, cutoff: real)
    ensures Above(s + [x], cutoff) == Above(s, cutoff) + (if x > cutoff then [x] else [])
  {
    if s == [] {
      assert s + [x] == [x];
      assert Above([x], cutoff) == (if x > cutoff then [x] else []) + Above([x][1..], cutoff);
    } else {
      assert (s + [x])[1..] == s[1..] + [x];
      AboveAppend(s[1..], x, cutoff);
    }
  }

  lemma {:induction false} AboveShrinks(s: seq<real>, c: real, d: real)
    requires c <= d
    ensures |Above(s, d)| <= |Above(s, c)|
  {
    if s != [] { AboveShrinks(s[1..], c, d); }
  }

  lemma {:induction false} AdmittedAreLogged(calls: seq<Call>, window: int, key: string, limit: int, lo: real, hi: real)
    requires Orderly(calls, window)
    ensures AdmittedIn(calls, key, limit, lo, hi) <= |Above(Bucket(RefRun(calls), key), lo)|
  {
    if calls != [] {
      var n := |calls| - 1;
      OrderlyPrefix(calls, window);
      AdmittedAreLogged(calls[..n], window, key, limit, lo, hi);
      AboveAppend(Bucket(RefRun(calls[..n]), calls[n].key), calls[n].now, lo);
    }
  }

  lemma LastAdmitted(calls: seq<Call>, window: int, key: string, limit: nat, t: real)
    requires calls != [] && Orderly(calls, window)
    requires var c := calls[|calls| - 1]; c.key == key && c.limit <= limit && t - window as real < c.now <= t
    requires AdmittedIn(calls[..|calls| - 1], key, limit, t - window as real, t) <= limit
    ensures AdmittedIn(calls, key, limit, t - window as real, t) <= limit
  {
    var n, lo := |calls| - 1, t - window as real;
    OrderlyPrefix(calls, window);
    AdmittedAreLogged(calls[..n], window, key, limit, lo, t);
    AboveShrinks(Bucket(RefRun(calls[..n]), key), calls[n].Cutoff(), lo);
  }

  /**
   The point of the limiter: over any run and for any moment t, of the calls on a key that ask for at
   most `limit`, no more than `limit` are admitted in the window (t - window, t] - even if other calls
   on the same key ask for more.
   */
  lemma {:induction false} RateBound(calls: seq<Call>, window: int, key: string, limit: nat, t: real)
    requires Orderly(calls, window)
    ensures AdmittedIn(calls, key, limit, t - window as real, t) <= limit
  {
    if calls != [] {
      var n, lo := |calls| - 1, t - window as real;
      OrderlyPrefix(calls, window);
      RateBound(calls[..n], window, key, limit, t);
      if calls[n].key == key && calls[n].limit <= limit && lo < calls[n].now <= t {
        LastAdmitted(calls, window, key, limit, t);
      }
    }
  }

  // ---------- which calls are admitted ----------

  /** How many calls on `key`, whatever their limit, were admitted at times in (lo, hi]. */
  function Admissions(calls: seq<Call>, key: string, lo: real, hi: real): nat {
    if calls == [] then 0
    else
      var n := |calls| - 1;
      Admissions(calls[..n], key, lo, hi)
      + (if calls[n].key == key && lo < calls[n].now <= hi && Verdict(Run(calls[..n]), calls[n]).Allowed? then 1 else 0)
  }

  lemma {:induction false} LoggedIsAdmitted(calls: seq<Call>, window: int, key: string, lo: real, hi: real)
    requires Orderly(calls, window) && forall i :: 0 <= i < |calls| ==> calls[i].now <= hi
    ensures |Above(Bucket(RefRun(calls), key), lo)| == Admissions(calls, key, lo, hi)
  {
    if calls != [] {
      var n := |calls| - 1;
      OrderlyPrefix(calls, window);
      LoggedIsAdmitted(calls[..n], window, key, lo, hi);
      hide Above, Verdict, Run;
      AboveAppend(Bucket(RefRun(calls[..n]), calls[n].key), calls[n].now, lo);
    }
  }

  /**
   After any orderly calls, on this and other keys and with whatever limits, a call is admitted iff of the
   calls on its key fewer than its limit were admitted in the window that ends with it.
   */
  lemma AllowedIff(calls: seq<Call>, window: int, c: Call)
    requires Orderly(calls + [c], window)
    ensures Verdict(Run(calls), c).Allowed? <==>
            Admissions(calls, c.key, c.now - window as real, c.now) < c.limit
  {
    hide Run, RefRun, Above, Admissions, Bucket, Verdict;
    LimiterForgetsNothing(calls, window, c);
    NoneIsLater(calls, c, window);
    AllButLast(calls, c, window);
    LoggedIsAdmitted(calls, window, c.key, c.Cutoff(), c.now);
  }

  lemma NoneIsLater(calls: seq<Call>, c: Call, window: int)
    requires Orderly(calls + [c], window)
    ensures c.window == window && forall i :: 0 <= i < |calls| ==> calls[i].now <= c.now
  {
    assert (calls + [c])[|calls|] == c;
    forall i | 0 <= i < |calls| ensures calls[i].now <= c.now {
      assert (calls + [c])[i].now <= (calls + [c])[|calls|].now;
    }
  }

  /** Among calls that all ask for the same limit, those are the admissions counted above. */
  lemma {:induction false} CountsAdmissions(calls: seq<Call>, key: string, limit: int, lo: real, hi: real)
    requires UnchangedLimit(calls, key, limit)
    ensures AdmittedIn(calls, key, limit, lo, hi) == Admissions(calls, key, lo, hi)
  {
    if calls != [] {
      var n := |calls| - 1;
      CountsAdmissions(calls[..n], key, limit, lo, hi);
    }
  }

  // ---------- the retry time ----------

  lemma {:induction false} LoggedAreAdmitted(calls: seq<Call>, window: int, key: string, limit: int, lo: real, hi: real)
    requires Orderly(calls, window) && UnchangedLimit(calls, key, limit)
    requires forall i :: 0 <= i < |calls| ==> calls[i].now <= hi
    ensures |Above(Bucket(RefRun(calls), key), lo)| <= AdmittedIn(calls, key, Max(0, limit), lo, hi)
  {
    if calls != [] {
      var n := |calls| - 1;
      OrderlyPrefix(calls, window);
      LoggedAreAdmitted(calls[..n], window, key, limit, lo, hi);
      AboveAppend(Bucket(RefRun(calls[..n]), calls[n].key), calls[n].now, lo);
    }
  }

  /** With an unchanged limit no key ever has more live timestamps than it. */
  lemma LiveWithinLimit(calls: seq<Call>, window: int, c: Call)
    requires Orderly(calls, window) && UnchangedLimit(calls, c.key, c.limit) && c.window == window
    requires forall i :: 0 <= i < |calls| ==> calls[i].now <= c.now
    ensures |Above(Bucket(RefRun(calls), c.key), c.Cutoff())| <= Max(0, c.limit)
  {
    LoggedAreAdmitted(calls, window, c.key, c.limit, c.Cutoff(), c.now);
    RateBound(calls, window, c.key, Max(0, c.limit), c.now);
  }

  lemma CeilIsLeast(x: real, n: int)
    ensures n >= Ceil(x) <==> n as real >= x
  {
  }

  /** A full key stays closed exactly until its oldest live timestamp leaves the window. */
  lemma FullUntilOldestExpires(times: seq<real>, c: Call, t: real)
    requires Sorted(times) && c.now <= t && 1 <= c.limit
    requires |Above(times, c.Cutoff())| == c.limit
    ensures |Above(times, t - c.window as real)| < c.limit <==> t >= Above(times, c.Cutoff())[0] + c.window as real
  {
    var cutoff, later := c.Cutoff(), t - c.window as real;
    PruneIsAbove(times, cutoff);
    PruneIsAbove(times, later);
    PruneAgain(times, cutoff, later);
    var live := Prune(times, cutoff);
    PruneSorted(times, cutoff);
    hide Above, Sorted;
    if live[0] <= later {
      PruneShorter(live[1..], later);
    }
  }

  lemma {:induction false} PruneShorter(s: seq<real>, cutoff: real)
    ensures |Prune(s, cutoff)| <= |s|
  {
    if s != [] && s[0] <= cutoff { PruneShorter(s[1..], cutoff); }
  }

  /** The key of the refused call `c` is full: as many live timestamps as its limit, in order. */
  ghost predicate Full(times: seq<real>, c: Call) {
    Sorted(times) && 1 <= c.limit == |Above(times, c.Cutoff())|
  }

  /** The moment the oldest live timestamp of a full key leaves the window. */
  function Reopens(times: seq<real>, c: Call): real
    requires Above(times, c.Cutoff()) != []
  {
    Above(times, c.Cutoff())[0] + c.window as real
  }

  lemma ReopensOnLog(log: Log, c: Call, later: Log, d: Call)
    requires Full(Bucket(log, c.key), c) && Bucket(later, c.key) == Bucket(log, c.key)
    requires d.key == c.key && d.limit == c.limit && d.window == c.window && c.now <= d.now
    ensures RefVerdict(later, d).Allowed? <==> d.now >= Reopens(Bucket(log, c.key), c)
    ensures d.now < Reopens(Bucket(log, c.key), c) ==> RefVerdict(later, d).Refused?
  {
    FullUntilOldestExpires(Bucket(log, c.key), c, d.now);
  }

  lemma RetryOnLog(log: Log, c: Call, n: nat)
    requires 1 <= n && Full(Bucket(log, c.key), c)
    ensures RefVerdict(log, c).Refused? && RefVerdict(log, c).retryAfter >= 1
    ensures c.now + n as real >= Reopens(Bucket(log, c.key), c) <==> n >= RefVerdict(log, c).retryAfter
  {
    hide Above, Ceil;
    CeilIsLeast(Reopens(Bucket(log, c.key), c) - c.now, n);
  }

  /** `c` is refused after `calls`, all of which used its own limit on its key. */
  ghost predicate TurnedAway(calls: seq<Call>, window: int, c: Call) {
    && Orderly(calls, window) && Orderly(calls + [c], window) && c.window == window
    && UnchangedLimit(calls, c.key, c.limit)
    && Verdict(Run(calls), c).Refused?
  }

  lemma TurnedAwayWhenFull(calls: seq<Call>, window: int, c: Call)
    requires TurnedAway(calls, window, c)
    ensures Full(Bucket(RefRun(calls), c.key), c)
    ensures Verdict(Run(calls), c) == RefVerdict(RefRun(calls), c)
  {
    LimiterForgetsNothing(calls, window, c);
    forall i | 0 <= i < |calls| ensures calls[i].now <= c.now {
      assert (calls + [c])[i].now <= (calls + [c])[|calls|].now;
    }
    LiveWithinLimit(calls, window, c);
    RunsAgree(calls, window, c);
    assert SameLive(Bucket(Run(calls), c.key), Bucket(RefRun(calls), c.key), c.Cutoff(), c.now);
  }

  /**
   As long as no further call on the key is admitted: a call on it at any later moment is admitted iff the
   oldest live timestamp has left the window by then, and `retry_after` seconds after the refusal it has.
   */
  lemma AdmittedFromThen(calls: seq<Call>, window: int, c: Call, all: seq<Call>, d: Call)
    requires TurnedAway(calls, window, c) && calls + [c] <= all && Orderly(all + [d], window)
    requires d.key == c.key && d.limit == c.limit && Bucket(RefRun(all), c.key) == Bucket(RefRun(calls), c.key)
    ensures Above(Bucket(RefRun(calls), c.key), c.Cutoff()) != []
    ensures Verdict(Run(all), d).Allowed? <==> d.now >= Reopens(Bucket(RefRun(calls), c.key), c)
    ensures d.now >= c.now + Verdict(Run(calls), c).retryAfter as real ==> Verdict(Run(all), d).Allowed?
  {
    hide Run, RefRun, Reopens, Decide;
    TurnedAwayWhenFull(calls, window, c);
    LimiterForgetsNothing(all, window, d);
    assert (all + [d])[|calls|] == c && (all + [d])[|all|] == d;
    ReopensOnLog(RefRun(calls), c, RefRun(all), d);
    RetryOnLog(RefRun(calls), c, 1);
    RetryOnLog(RefRun(calls), c, Verdict(Run(calls), c).retryAfter);
  }

  /**
   `retry_after` is the least whole number: with an unchanged limit, and if no call on the key is admitted
   meanwhile, the same call made a whole number n >= 1 of seconds later is admitted iff n >= retry_after -
   whatever calls on other keys, or refused calls on this one, come in between.
   */
  lemma RetryAfterIsExact(calls: seq<Call>, window: int, c: Call, all: seq<Call>, n: nat)
    requires 1 <= n && TurnedAway(calls, window, c)
    requires calls + [c] <= all && Orderly(all + [c.(now := c.now + n as real)], window)
    requires Bucket(RefRun(all), c.key) == Bucket(RefRun(calls), c.key)
    ensures Verdict(Run(all), c.(now := c.now + n as real)).Allowed? <==> n >= Verdict(Run(calls), c).retryAfter
    ensures Verdict(Run(calls), c).retryAfter >= 1
  {
    TurnedAwayWhenFull(calls, window, c);
    AdmittedFromThen(calls, window, c, all, c.(now := c.now + n as real));
    RetryOnLog(RefRun(calls), c, n);
  }

  /** ... and none is: until that moment every call on the key, however many there are, is refused. */
  lemma {:induction false} RefusedUntilThen(calls: seq<Call>, window: int, c: Call, more: seq<Call>, d: Call)
    requires TurnedAway(calls, window, c) && Orderly(calls + [c] + more + [d], window)
    requires UnchangedLimit(more, c.key, c.limit) && d.key == c.key && d.limit == c.limit
    requires Above(Bucket(RefRun(calls), c.key), c.Cutoff()) != []
    requires d.now < Reopens(Bucket(RefRun(calls), c.key), c)
    ensures Bucket(RefRun(calls + [c] + more), c.key) == Bucket(RefRun(calls), c.key)
    ensures Verdict(Run(calls + [c] + more), d).Refused?
    decreases |more|
  {
    var all := calls + [c] + more;
    TurnedAwayWhenFull(calls, window, c);
    if more == [] {
      assert all == calls + [c];
      RefusalKeepsBucket(calls, window, c, c.key);
    } else {
      var n := |more| - 1;
      var before, e := calls + [c] + more[..n], more[n];
      assert all == before + [e];
      LastBefore(all, e, d, window);
      var f := if e.key == c.key then e else d.(now := e.now);
      AllButLast(all, d, window);
      SwapLast(before, e, f, window);
      RefusedUntilThen(calls, window, c, more[..n], f);
      RefusalKeepsBucket(before, window, e, c.key);
    }
    LimiterForgetsNothing(all, window, d);
    CallBefore(calls, c, more, d, window);
    ReopensOnLog(RefRun(calls), c, RefRun(all), d);
  }

  /** Calls on the key before that moment are refused, so the refused key is left as it is. */
  lemma {:induction false} KeptUntilThen(calls: seq<Call>, window: int, c: Call, more: seq<Call>)
    requires TurnedAway(calls, window, c) && Orderly(calls + [c] + more, window)
    requires UnchangedLimit(more, c.key, c.limit)
    requires Above(Bucket(RefRun(calls), c.key), c.Cutoff()) != []
    requires forall i :: 0 <= i < |more| && more[i].key == c.key ==>
               more[i].now < Reopens(Bucket(RefRun(calls), c.key), c)
    ensures Bucket(RefRun(calls + [c] + more), c.key) == Bucket(RefRun(calls), c.key)
  {
    if more == [] {
      assert calls + [c] + more == calls + [c];
      RefusalKeepsBucket(calls, window, c, c.key);
    } else {
      var n := |more| - 1;
      assert calls + [c] + more == calls + [c] + more[..n] + [more[n]];
      AllButLast(calls + [c] + more[..n], more[n], window);
      KeptUntilThen(calls, window, c, more[..n]);
      if more[n].key == c.key { RefusedUntilThen(calls, window, c, more[..n], more[n]); }
      RefusalKeepsBucket(calls + [c] + more[..n], window, more[n], c.key);
    }
  }

  /**
   The client that comes back: after a refusal, the first call on the key at or after the moment the oldest
   live timestamp leaves the window is admitted, and that moment is at most `retry_after` seconds away.
   */
  lemma FirstCallFromThenIsAdmitted(calls: seq<Call>, window: int, c: Call, more: seq<Call>, d: Call)
    requires TurnedAway(calls, window, c) && Orderly(calls + [c] + more + [d], window)
    requires UnchangedLimit(more, c.key, c.limit) && d.key == c.key && d.limit == c.limit
    requires Above(Bucket(RefRun(calls), c.key), c.Cutoff()) != []
    requires forall i :: 0 <= i < |more| && more[i].key == c.key ==>
               more[i].now < Reopens(Bucket(RefRun(calls), c.key), c)
    ensures Verdict(Run(calls + [c] + more), d).Allowed? <==> d.now >= Reopens(Bucket(RefRun(calls), c.key), c)
    ensures d.now >= c.now + Verdict(Run(calls), c).retryAfter as real ==>
              Verdict(Run(calls + [c] + more), d).Allowed?
  {
    AllButLast(calls + [c] + more, d, window);
    KeptUntilThen(calls, window, c, more);
    assert calls + [c] <= calls + [c] + more;
    AdmittedFromThen(calls, window, c, calls + [c] + more, d);
  }

  /** A refused call, or a call on another key, leaves a key's timestamps as they are. */
  lemma RefusalKeepsBucket(calls: seq<Call>, window: int, e: Call, key: string)
    requires Orderly(calls + [e], window) && (e.key != key || Verdict(Run(calls), e).Refused?)
    ensures Bucket(RefRun(calls + [e]), key) == Bucket(RefRun(calls), key)
  {
    LimiterForgetsNothing(calls, window, e);
    assert (calls + [e])[..|calls|] == calls;
  }

  lemma AllButLast(calls: seq<Call>, d: Call, window: int)
    requires Orderly(calls + [d], window)
    ensures Orderly(calls, window)
  {
    forall i, j | 0 <= i < j < |calls| ensures calls[i].now <= calls[j].now {
      assert (calls + [d])[i].now <= (calls + [d])[j].now;
    }
    forall i | 0 <= i < |calls| ensures calls[i].window == window {
      assert (calls + [d])[i].window == window;
    }
  }

  lemma LastBefore(calls: seq<Call>, e: Call, d: Call, window: int)
    requires calls != [] && calls[|calls| - 1] == e && Orderly(calls + [d], window)
    ensures e.now <= d.now && d.window == window
  {
    assert (calls + [d])[|calls| - 1].now <= (calls + [d])[|calls|].now;
    assert (calls + [d])[|calls|].window == window;
  }

  lemma CallBefore(calls: seq<Call>, c: Call, more: seq<Call>, d: Call, window: int)
    requires Orderly(calls + [c] + more + [d], window)
    ensures c.now <= d.now && d.window == c.window == window
  {
    var all := calls + [c] + more + [d];
    assert all[|calls|] == c && all[|all| - 1] == d;
  }

  lemma SwapLast(calls: seq<Call>, e: Call, f: Call, window: int)
    requires Orderly(calls + [e], window) && f.now == e.now && f.window == window
    ensures Orderly(calls + [f], window)
  {
    forall i, j | 0 <= i < j <= |calls| ensures (calls + [f])[i].now <= (calls + [f])[j].now {
      assert (calls + [e])[i].now <= (calls + [e])[j].now;
    }
    forall i | 0 <= i <= |calls| ensures (calls + [f])[i].window == window {
      assert (calls + [e])[i].window == window;
    }
  }
}
