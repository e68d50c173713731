/**
 Public event endpoints behind the limiter (app/routers/map_router.py): every request spends a slot of
 its address and then one of the whole endpoint.  Requests run in parallel threads, so the two calls of
 one request may have calls of other requests between them.
 */
module EventRate {
  import opened Common
  import opened RateLimit
  import opened Text

  const EVENT_GLOBAL_LIMIT_PER_MINUTE := 1200
  const RATE_LIMIT_WINDOW_SECONDS := 60

  /** An endpoint: the prefix of its keys, and its limit per address and minute (60 or 120 in the source). */
  datatype Endpoint = Endpoint(prefix: string, limit: nat)

  function AddressCall(e: Endpoint, ip: string, now: real): Call {
    Call(e.prefix + ":" + ip, e.limit, RATE_LIMIT_WINDOW_SECONDS, now)
  }

  function GlobalCall(e: Endpoint, now: real): Call {
    Call(e.prefix + ":" + "global", EVENT_GLOBAL_LIMIT_PER_MINUTE, RATE_LIMIT_WINDOW_SECONDS, now)
  }

  /** `_allow_rate_limited_event` when no other thread gets in between: the first refusal decides. */
  method AllowRateLimitedEvent(limiter: SlidingWindowRateLimiter, e: Endpoint, ip: string, now: real, later: real)
    returns (d: Decision)
    modifies limiter
    ensures var first := Verdict(old(limiter.events), AddressCall(e, ip, now));
            var between := After(old(limiter.events), AddressCall(e, ip, now));
            if first.Allowed?
            then d == Verdict(between, GlobalCall(e, later)) && limiter.events == After(between, GlobalCall(e, later))
            else d == first && limiter.events == between
  {
    var keys := [AddressCall(e, ip, now), GlobalCall(e, later)];
    d := limiter.Allow(keys[0].key, keys[0].limit, keys[0].window, keys[0].now);
    if d.Allowed? {
      d := limiter.Allow(keys[1].key, keys[1].limit, keys[1].window, keys[1].now);
    }
  }

  // ---------- many requests at once ----------

  /** How far a request that passed its address limit has come. */
  datatype Progress = Waiting | Handled(at: real) | Blocked

  datatype Request = Request(endpoint: Endpoint, ip: string, at: real, progress: Progress)

  /** The limiter's calls so far, in lock order, and the requests that passed their address limit. */
  datatype State = State(calls: seq<Call>, requests: seq<Request>)

  datatype Step =
    | Arrive(e: Endpoint, ip: string, now: real)
    | Proceed(i: nat, now: real)
    | Download(c: Call)

  const INITIAL := State([], [])

  function Next(s: State, step: Step): Option<State> {
    match step
    case Arrive(e, ip, now) =>
      var c := AddressCall(e, ip, now);
      Some(State(s.calls + [c],
                 if Verdict(Run(s.calls), c).Allowed? then s.requests + [Request(e, ip, now, Waiting)] else s.requests))
    case Proceed(i, now) =>
      if i >= |s.requests| || !s.requests[i].progress.Waiting? then None
      else
        var c := GlobalCall(s.requests[i].endpoint, now);
        var progress := if Verdict(Run(s.calls), c).Allowed? then Handled(now) else Blocked;
        Some(State(s.calls + [c], s.requests[i := s.requests[i].(progress := progress)]))
    case Download(c) => Some(s.(calls := s.calls + [c]))
  }

  function Steps(s: State, steps: seq<Step>): Option<State> {
    if steps == [] then Some(s)
    else
      var before := Steps(s, steps[..|steps| - 1]);
      if before.None? then None else Next(before.value, steps[|steps| - 1])
  }

  /** Events of one address handled by an endpoint, by the time their request was let past the address limit. */
  function HandledFrom(requests: seq<Request>, e: Endpoint, ip: string, lo: real, hi: real): nat {
    if requests == [] then 0
    else
      var r := requests[|requests| - 1];
      HandledFrom(requests[..|requests| - 1], e, ip, lo, hi)
      + (if r.endpoint == e && r.ip == ip && lo < r.at <= hi && r.progress.Handled? then 1 else 0)
  }

  /** Events of any address handled by an endpoint, by the time they were let past the global limit. */
  function HandledAll(requests: seq<Request>, e: Endpoint, lo: real, hi: real): nat {
    if requests == [] then 0
    else
      var r := requests[|requests| - 1];
      HandledAll(requests[..|requests| - 1], e, lo, hi)
      + (if r.endpoint == e && r.progress.Handled? && lo < r.progress.at <= hi then 1 else 0)
  }

  /** Requests of one address let past the address limit, whatever became of them. */
  function PassedFrom(requests: seq<Request>, e: Endpoint, ip: string, lo: real, hi: real): nat {
    if requests == [] then 0
    else
      var r := requests[|requests| - 1];
      PassedFrom(requests[..|requests| - 1], e, ip, lo, hi)
      + (if r.endpoint == e && r.ip == ip && lo < r.at <= hi then 1 else 0)
  }

  lemma {:induction false} HandledPassed(requests: seq<Request>, e: Endpoint, ip: string, lo: real, hi: real)
    ensures HandledFrom(requests, e, ip, lo, hi) <= PassedFrom(requests, e, ip, lo, hi)
  {
    if requests != [] { HandledPassed(requests[..|requests| - 1], e, ip, lo, hi); }
  }

  lemma {:induction false} ProgressKeepsPassed(requests: seq<Request>, i: nat, p: Progress, e: Endpoint, ip: string,
                                               lo: real, hi: real)
    requires i < |requests|
    ensures PassedFrom(requests[i := requests[i].(progress := p)], e, ip, lo, hi) == PassedFrom(requests, e, ip, lo, hi)
  {
    var n, changed := |requests| - 1, requests[i := requests[i].(progress := p)];
    if i < n {
      ProgressKeepsPassed(requests[..n], i, p, e, ip, lo, hi);
      assert changed[..n] == requests[..n][i := requests[i].(progress := p)];
    } else {
      assert changed[..n] == requests[..n];
    }
  }

  lemma {:induction false} ProgressAddsOne(requests: seq<Request>, i: nat, p: Progress, e: Endpoint, lo: real, hi: real)
    requires i < |requests| && requests[i].progress.Waiting?
    ensures HandledAll(requests[i := requests[i].(progress := p)], e, lo, hi)
            == HandledAll(requests, e, lo, hi)
               + (if requests[i].endpoint == e && p.Handled? && lo < p.at <= hi then 1 else 0)
  {
    var n, changed := |requests| - 1, requests[i := requests[i].(progress := p)];
    if i < n {
      ProgressAddsOne(requests[..n], i, p, e, lo, hi);
      assert changed[..n] == requests[..n][i := requests[i].(progress := p)];
    } else {
      assert changed[..n] == requests[..n];
    }
  }

  /** Every request counted spent a call of the limiter that was admitted at the same time. */
  lemma {:induction false} RequestsAreAdmitted(steps: seq<Step>, e: Endpoint, ip: string, lo: real, hi: real)
    requires Steps(INITIAL, steps).Some?
    ensures var s := Steps(INITIAL, steps).value;
            && PassedFrom(s.requests, e, ip, lo, hi) <= AdmittedIn(s.calls, e.prefix + ":" + ip, e.limit, lo, hi)
            && HandledAll(s.requests, e, lo, hi)
               <= AdmittedIn(s.calls, e.prefix + ":" + "global", EVENT_GLOBAL_LIMIT_PER_MINUTE, lo, hi)
  {
    if steps != [] {
      var n := |steps| - 1;
      RequestsAreAdmitted(steps[..n], e, ip, lo, hi);
      StepIsAdmitted(Steps(INITIAL, steps[..n]).value, steps[n], e, ip, lo, hi);
    }
  }

  lemma StepIsAdmitted(s: State, step: Step, e: Endpoint, ip: string, lo: real, hi: real)
    requires Next(s, step).Some?
    requires PassedFrom(s.requests, e, ip, lo, hi) <= AdmittedIn(s.calls, e.prefix + ":" + ip, e.limit, lo, hi)
    requires HandledAll(s.requests, e, lo, hi)
             <= AdmittedIn(s.calls, e.prefix + ":" + "global", EVENT_GLOBAL_LIMIT_PER_MINUTE, lo, hi)
    ensures var t := Next(s, step).value;
            && PassedFrom(t.requests, e, ip, lo, hi) <= AdmittedIn(t.calls, e.prefix + ":" + ip, e.limit, lo, hi)
            && HandledAll(t.requests, e, lo, hi)
               <= AdmittedIn(t.calls, e.prefix + ":" + "global", EVENT_GLOBAL_LIMIT_PER_MINUTE, lo, hi)
  {
    var c := match step
      case Arrive(f, from, now) => AddressCall(f, from, now)
      case Proceed(i, now) => GlobalCall(s.requests[i].endpoint, now)
      case Download(c) => c;
    AdmittedSnoc(s.calls, c, e.prefix + ":" + ip, e.limit, lo, hi);
    AdmittedSnoc(s.calls, c, e.prefix + ":" + "global", EVENT_GLOBAL_LIMIT_PER_MINUTE, lo, hi);
    match step {
      case Arrive(f, from, now) => RequestsSnoc(s.requests, Request(f, from, now, Waiting), e, ip, lo, hi);
      case Proceed(i, now) =>
        var p := if Verdict(Run(s.calls), c).Allowed? then Handled(now) else Blocked;
        hide Verdict, Run;
        ProgressKeepsPassed(s.requests, i, p, e, ip, lo, hi);
        ProgressAddsOne(s.requests, i, p, e, lo, hi);
      case Download(_) =>
    }
  }

  lemma AdmittedSnoc(calls: seq<Call>, c: Call, key: string, limit: int, lo: real, hi: real)
    ensures AdmittedIn(calls + [c], key, limit, lo, hi)
            == AdmittedIn(calls, key, limit, lo, hi)
               + (if c.key == key && c.limit <= limit && lo < c.now <= hi && Verdict(Run(calls), c).Allowed?
                  then 1 else 0)
  {
    assert (calls + [c])[..|calls|] == calls;
  }

  lemma RequestsSnoc(requests: seq<Request>, r: Request, e: Endpoint, ip: string, lo: real, hi: real)
    requires r.progress.Waiting?
    ensures PassedFrom(requests + [r], e, ip, lo, hi)
            == PassedFrom(requests, e, ip, lo, hi) + (if r.endpoint == e && r.ip == ip && lo < r.at <= hi then 1 else 0)
    ensures HandledAll(requests + [r], e, lo, hi) == HandledAll(requests, e, lo, hi)
  {
    assert (requests + [r])[..|requests|] == requests;
  }

  /**
   For every interleaving of requests and every moment t, an endpoint handles at most its limit of events
   per address, and at most 1200 in all, of those let through in the minute (t - 60, t].
   */
  lemma EventRateBound(steps: seq<Step>, e: Endpoint, ip: string, t: real)
    requires Steps(INITIAL, steps).Some? && Orderly(Steps(INITIAL, steps).value.calls, RATE_LIMIT_WINDOW_SECONDS)
    ensures HandledFrom(Steps(INITIAL, steps).value.requests, e, ip, t - 60.0, t) <= e.limit
    ensures HandledAll(Steps(INITIAL, steps).value.requests, e, t - 60.0, t) <= 1200
  {
    var s := Steps(INITIAL, steps).value;
    RequestsAreAdmitted(steps, e, ip, t - 60.0, t);
    HandledPassed(s.requests, e, ip, t - 60.0, t);
    RateBound(s.calls, RATE_LIMIT_WINDOW_SECONDS, e.prefix + ":" + ip, e.limit, t);
    RateBound(s.calls, RATE_LIMIT_WINDOW_SECONDS, e.prefix + ":" + "global", EVENT_GLOBAL_LIMIT_PER_MINUTE, t);
  }

  // ---------- when an event is handled ----------

  /**
   The keys of the endpoint are its own: prefixes have no ':' in them and tell the endpoints apart, no
   address is called "global", and downloads use other keys.
   */
  predicate OwnKeys(step: Step, e: Endpoint) {
    match step
    case Arrive(f, ip, _) => ':' !in f.prefix && (f == e || f.prefix != e.prefix) && ip != "global"
    case Download(c) => !(e.prefix + ":" <= c.key)
    case Proceed(_, _) => true
  }

  ghost predicate Separate(steps: seq<Step>, e: Endpoint) {
    ':' !in e.prefix && forall k :: 0 <= k < |steps| ==> OwnKeys(steps[k], e)
  }

  lemma KeysDiffer(p: string, q: string, x: string, y: string)
    requires ':' !in p && ':' !in q && p + ":" + x == q + ":" + y
    ensures p == q && x == y
  {
    var key := p + ":" + x;
    assert key[|p|] == ':' && key[..|p|] == p && key[|p| + 1..] == x;
    assert key[|q|] == ':' && key[..|q|] == q && key[|q| + 1..] == y;
    FindIsFirst(key, ':', |p|);
    FindIsFirst(key, ':', |q|);
  }

  /** Every call on a key of the endpoint is one of its requests', with that key's limit. */
  ghost predicate Accounts(s: State, e: Endpoint, ip: string) {
    && (forall i :: 0 <= i < |s.requests| ==>
          var f := s.requests[i].endpoint; ':' !in f.prefix && (f == e || f.prefix != e.prefix))
    && UnchangedLimit(s.calls, e.prefix + ":" + ip, e.limit)
    && UnchangedLimit(s.calls, e.prefix + ":" + "global", EVENT_GLOBAL_LIMIT_PER_MINUTE)
    && forall lo, hi ::
         && PassedFrom(s.requests, e, ip, lo, hi) == AdmittedIn(s.calls, e.prefix + ":" + ip, e.limit, lo, hi)
         && HandledAll(s.requests, e, lo, hi)
            == AdmittedIn(s.calls, e.prefix + ":" + "global", EVENT_GLOBAL_LIMIT_PER_MINUTE, lo, hi)
  }

  function CallOf(s: State, step: Step): Call
    requires Next(s, step).Some?
  {
    match step
    case Arrive(f, from, now) => AddressCall(f, from, now)
    case Proceed(i, now) => GlobalCall(s.requests[i].endpoint, now)
    case Download(c) => c
  }

  lemma StepCounts(s: State, step: Step, e: Endpoint, ip: string, lo: real, hi: real)
    requires Next(s, step).Some? && ip != "global"
    requires CallOf(s, step).key == e.prefix + ":" + ip <==> step.Arrive? && step.e == e && step.ip == ip
    requires CallOf(s, step).key == e.prefix + ":" + "global" <==> step.Proceed? && s.requests[step.i].endpoint == e
    requires PassedFrom(s.requests, e, ip, lo, hi) == AdmittedIn(s.calls, e.prefix + ":" + ip, e.limit, lo, hi)
    requires HandledAll(s.requests, e, lo, hi)
             == AdmittedIn(s.calls, e.prefix + ":" + "global", EVENT_GLOBAL_LIMIT_PER_MINUTE, lo, hi)
    ensures var t := Next(s, step).value;
            && PassedFrom(t.requests, e, ip, lo, hi) == AdmittedIn(t.calls, e.prefix + ":" + ip, e.limit, lo, hi)
            && HandledAll(t.requests, e, lo, hi)
               == AdmittedIn(t.calls, e.prefix + ":" + "global", EVENT_GLOBAL_LIMIT_PER_MINUTE, lo, hi)
  {
    hide Verdict, Run, PassedFrom, HandledAll, AdmittedIn;
    var c := CallOf(s, step);
    AdmittedSnoc(s.calls, c, e.prefix + ":" + ip, e.limit, lo, hi);
    AdmittedSnoc(s.calls, c, e.prefix + ":" + "global", EVENT_GLOBAL_LIMIT_PER_MINUTE, lo, hi);
    match step {
      case Arrive(f, from, now) => RequestsSnoc(s.requests, Request(f, from, now, Waiting), e, ip, lo, hi);
      case Proceed(i, now) =>
        var p := if Verdict(Run(s.calls), c).Allowed? then Handled(now) else Blocked;
        ProgressKeepsPassed(s.requests, i, p, e, ip, lo, hi);
        ProgressAddsOne(s.requests, i, p, e, lo, hi);
      case Download(_) =>
    }
  }

  lemma StepAccounts(s: State, step: Step, e: Endpoint, ip: string)
    requires Next(s, step).Some? && Accounts(s, e, ip) && ip != "global" && ':' !in e.prefix && OwnKeys(step, e)
    ensures Accounts(Next(s, step).value, e, ip)
  {
    var t := Next(s, step).value;
    assert t.calls == s.calls + [CallOf(s, step)];
    KeyIsWhose(s, step, e, ip);
    forall lo, hi
      ensures PassedFrom(t.requests, e, ip, lo, hi) == AdmittedIn(t.calls, e.prefix + ":" + ip, e.limit, lo, hi)
      ensures HandledAll(t.requests, e, lo, hi)
              == AdmittedIn(t.calls, e.prefix + ":" + "global", EVENT_GLOBAL_LIMIT_PER_MINUTE, lo, hi)
    {
      AccountsAt(s, e, ip, lo, hi);
      StepCounts(s, step, e, ip, lo, hi);
    }
    hide Verdict, Run, PassedFrom, HandledAll, AdmittedIn, UnchangedLimit;
    UnchangedSnoc(s.calls, CallOf(s, step), e.prefix + ":" + ip, e.limit);
    UnchangedSnoc(s.calls, CallOf(s, step), e.prefix + ":" + "global", EVENT_GLOBAL_LIMIT_PER_MINUTE);
  }

  lemma UnchangedSnoc(calls: seq<Call>, c: Call, key: string, limit: int)
    requires UnchangedLimit(calls, key, limit) && (c.key == key ==> c.limit == limit)
    ensures UnchangedLimit(calls + [c], key, limit)
  {
  }

  /** Whose call a call is, told from its key. */
  lemma KeyIsWhose(s: State, step: Step, e: Endpoint, ip: string)
    requires Next(s, step).Some? && Accounts(s, e, ip) && ip != "global" && ':' !in e.prefix && OwnKeys(step, e)
    ensures CallOf(s, step).key == e.prefix + ":" + ip <==> step.Arrive? && step.e == e && step.ip == ip
    ensures CallOf(s, step).key == e.prefix + ":" + "global" <==> step.Proceed? && s.requests[step.i].endpoint == e
  {
    hide Verdict, Run, PassedFrom, HandledAll, AdmittedIn;
    var c := CallOf(s, step);
    match step {
      case Arrive(f, from, now) =>
        if c.key == e.prefix + ":" + ip { KeysDiffer(f.prefix, e.prefix, from, ip); }
        if c.key == e.prefix + ":" + "global" { KeysDiffer(f.prefix, e.prefix, from, "global"); }
      case Proceed(i, now) =>
        var f := s.requests[i].endpoint;
        if c.key == e.prefix + ":" + ip { KeysDiffer(f.prefix, e.prefix, "global", ip); }
        if c.key == e.prefix + ":" + "global" { KeysDiffer(f.prefix, e.prefix, "global", "global"); }
      case Download(_) =>
        assert e.prefix + ":" <= e.prefix + ":" + ip && e.prefix + ":" <= e.prefix + ":" + "global";
    }
  }

  lemma {:induction false} RunAccounts(steps: seq<Step>, s: State, e: Endpoint, ip: string)
    requires Steps(INITIAL, steps) == Some(s) && Separate(steps, e) && ip != "global"
    ensures Accounts(s, e, ip)
  {
    if steps != [] {
      var n := |steps| - 1;
      RunAccounts(steps[..n], Steps(INITIAL, steps[..n]).value, e, ip);
      hide Accounts, Next;
      StepAccounts(Steps(INITIAL, steps[..n]).value, steps[n], e, ip);
    }
  }

  lemma AccountsAt(s: State, e: Endpoint, ip: string, lo: real, hi: real)
    requires Accounts(s, e, ip)
    ensures UnchangedLimit(s.calls, e.prefix + ":" + ip, e.limit)
    ensures UnchangedLimit(s.calls, e.prefix + ":" + "global", EVENT_GLOBAL_LIMIT_PER_MINUTE)
    ensures PassedFrom(s.requests, e, ip, lo, hi) == AdmittedIn(s.calls, e.prefix + ":" + ip, e.limit, lo, hi)
    ensures HandledAll(s.requests, e, lo, hi)
            == AdmittedIn(s.calls, e.prefix + ":" + "global", EVENT_GLOBAL_LIMIT_PER_MINUTE, lo, hi)
  {
  }

  /** A request is let past its address's limit iff fewer than that were, in the last minute. */
  lemma PassesIff(steps: seq<Step>, s: State, e: Endpoint, ip: string, now: real)
    requires Steps(INITIAL, steps) == Some(s) && Separate(steps, e) && ip != "global"
    requires Orderly(s.calls + [AddressCall(e, ip, now)], RATE_LIMIT_WINDOW_SECONDS)
    ensures var t := Next(s, Arrive(e, ip, now)).value;
            t.requests == if PassedFrom(s.requests, e, ip, now - 60.0, now) < e.limit
                          then s.requests + [Request(e, ip, now, Waiting)] else s.requests
  {
    hide Verdict, Run, PassedFrom, HandledAll, AdmittedIn, Steps, Separate, Orderly, Admissions, Accounts;
    RunAccounts(steps, s, e, ip);
    AccountsAt(s, e, ip, now - 60.0, now);
    AllowedIff(s.calls, RATE_LIMIT_WINDOW_SECONDS, AddressCall(e, ip, now));
    CountsAdmissions(s.calls, e.prefix + ":" + ip, e.limit, now - 60.0, now);
  }

  lemma GlobalAllowedIff(steps: seq<Step>, s: State, e: Endpoint, now: real)
    requires Steps(INITIAL, steps) == Some(s) && Separate(steps, e)
    requires Orderly(s.calls + [GlobalCall(e, now)], RATE_LIMIT_WINDOW_SECONDS)
    ensures Verdict(Run(s.calls), GlobalCall(e, now)).Allowed? <==> HandledAll(s.requests, e, now - 60.0, now) < 1200
  {
    hide Verdict, Run, PassedFrom, HandledAll, AdmittedIn, Steps, Separate, Orderly, Admissions, Accounts;
    RunAccounts(steps, s, e, "");
    AccountsAt(s, e, "", now - 60.0, now);
    AllowedIff(s.calls, RATE_LIMIT_WINDOW_SECONDS, GlobalCall(e, now));
    CountsAdmissions(s.calls, e.prefix + ":" + "global", EVENT_GLOBAL_LIMIT_PER_MINUTE, now - 60.0, now);
  }

  /** ... and is then handled iff fewer than 1200 events of the endpoint were, of whatever address. */
  lemma HandledIff(steps: seq<Step>, s: State, i: nat, now: real)
    requires Steps(INITIAL, steps) == Some(s) && i < |s.requests| && s.requests[i].progress.Waiting?
    requires Separate(steps, s.requests[i].endpoint)
    requires Orderly(s.calls + [GlobalCall(s.requests[i].endpoint, now)], RATE_LIMIT_WINDOW_SECONDS)
    ensures Next(s, Proceed(i, now)).Some?
    ensures var handled := HandledAll(s.requests, s.requests[i].endpoint, now - 60.0, now);
            Next(s, Proceed(i, now)).value.requests
            == s.requests[i := s.requests[i].(progress := if handled < 1200 then Handled(now) else Blocked)]
  {
    GlobalAllowedIff(steps, s, s.requests[i].endpoint, now);
    hide Verdict, Run, HandledAll, Steps, Separate, Orderly, GlobalCall;
  }
}
