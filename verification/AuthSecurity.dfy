/**
 The login limiter (app/auth_security.py) and the way `login` uses it (app/routers/auth.py): the check and
 the registration of a failure are two separate critical sections with the password check between them.
 */
module AuthSecurity {
  import opened Common

  datatype Limiter =
    Limiter(maxAttempts: int, cooldown: nat, attempts: map<string, seq<real>>, blockedUntil: map<string, real>) {

    function Attempts(key: string): seq<real> { if key in attempts then attempts[key] else [] }

    /** The block on a key, if one is recorded; a recorded 0.0 counts as none, as a falsy float does. */
    function Block(key: string): Option<real> {
      if key in blockedUntil && blockedUntil[key] != 0.0 then Some(blockedUntil[key]) else None
    }

    predicate IsBlocked(key: string, now: real) { Block(key).Some? && Block(key).value > now }

    function AfterCheck(key: string, now: real): Limiter {
      if Block(key).Some? && Block(key).value <= now then this.(blockedUntil := blockedUntil - {key}) else this
    }

    function AfterFailure(key: string, now: real): Limiter {
      var recent := From(Attempts(key), now - cooldown as real) + [now];
      if |recent| >= maxAttempts
      then this.(attempts := attempts[key := []], blockedUntil := blockedUntil[key := now + cooldown as real])
      else this.(attempts := attempts[key := recent])
    }

    function AfterReset(key: string): Limiter {
      this.(attempts := attempts - {key}, blockedUntil := blockedUntil - {key})
    }
  }

  /** The timestamps not older than `start`. */
  function From(times: seq<real>, start: real): seq<real> {
    if times == [] then []
    else From(times[..|times| - 1], start) + (if times[|times| - 1] >= start then [times[|times| - 1]] else [])
  }

  class LoginAttemptLimiter {
    const maxAttempts: int
    const cooldown: nat
    var attempts: map<string, seq<real>>
    var blockedUntil: map<string, real>

    function Value(): Limiter
      reads this
    {
      Limiter(maxAttempts, cooldown, attempts, blockedUntil)
    }

    constructor (maxAttempts: int, cooldown: nat)
      ensures Value() == Limiter(maxAttempts, cooldown, map[], map[])
    {
      this.maxAttempts, this.cooldown, attempts, blockedUntil := maxAttempts, cooldown, map[], map[];
    }

    method Cleanup(key: string, now: real)
      modifies this
      ensures attempts == old(attempts)[key := From(old(Value()).Attempts(key), now - cooldown as real)]
      ensures blockedUntil == old(blockedUntil)
    {
      var all := if key in attempts then attempts[key] else [];
      var kept := [];
      for i := 0 to |all|
        invariant kept == From(all[..i], now - cooldown as real)
        invariant attempts == old(attempts) && blockedUntil == old(blockedUntil)
      {
        assert all[..i + 1][..i] == all[..i];
        if all[i] >= now - cooldown as real { kept := kept + [all[i]]; }
      }
      assert all[..|all|] == all;
      attempts := attempts[key := kept];
    }

    method IsBlocked(key: string, now: real) returns (blocked: bool)
      modifies this
      ensures blocked == old(Value()).IsBlocked(key, now)
      ensures Value() == old(Value()).AfterCheck(key, now)
    {
      if key in blockedUntil && blockedUntil[key] != 0.0 {
        if blockedUntil[key] > now { return true; }
        blockedUntil := blockedUntil - {key};
      }
      return false;
    }

    method RegisterFailure(key: string, now: real)
      modifies this
      ensures Value() == old(Value()).AfterFailure(key, now)
    {
      Cleanup(key, now);
      ghost var kept := attempts[key];
      attempts := attempts[key := attempts[key] + [now]];
      LastUpdateCounts(old(attempts), key, kept, kept + [now]);
      if |attempts[key]| >= maxAttempts {
        blockedUntil := blockedUntil[key := now + cooldown as real];
        attempts := attempts[key := []];
        LastUpdateCounts(old(attempts), key, kept + [now], []);
      }
    }

    method Reset(key: string)
      modifies this
      ensures Value() == old(Value()).AfterReset(key)
    {
      attempts, blockedUntil := attempts - {key}, blockedUntil - {key};
    }
  }

  // ---------- login requests in parallel ----------

  /** Requests that passed the check and have not yet registered, each with its key. */
  datatype State = State(limiter: Limiter, inFlight: map<nat, string>, failures: seq<Failure>)

  datatype Failure = Failure(key: string, at: real)

  /** `Leave` is a request that ends without touching the limiter again (bad CSRF token, hash error). */
  datatype Step =
    | Check(req: nat, key: string, now: real)
    | Fail(req: nat, now: real)
    | Succeed(req: nat, now: real)
    | Leave(req: nat, now: real)

  function Next(s: State, step: Step): Option<State> {
    match step
    case Check(req, key, now) =>
      if req in s.inFlight then None
      else Some(s.(limiter := s.limiter.AfterCheck(key, now),
                   inFlight := if s.limiter.IsBlocked(key, now) then s.inFlight else s.inFlight[req := key]))
    case Fail(req, now) =>
      if req !in s.inFlight then None
      else Some(State(s.limiter.AfterFailure(s.inFlight[req], now), s.inFlight - {req},
                      s.failures + [Failure(s.inFlight[req], now)]))
    case Succeed(req, now) =>
      if req !in s.inFlight then None
      else Some(s.(limiter := s.limiter.AfterReset(s.inFlight[req]), inFlight := s.inFlight - {req}))
    case Leave(req, now) =>
      if req !in s.inFlight then None else Some(s.(inFlight := s.inFlight - {req}))
  }

  function Run(s: State, steps: seq<Step>): Option<State> {
    if steps == [] then Some(s)
    else
      var before := Run(s, steps[..|steps| - 1]);
      if before.None? then None else Next(before.value, steps[|steps| - 1])
  }

  function Initial(maxAttempts: int, cooldown: nat): State {
    State(Limiter(maxAttempts, cooldown, map[], map[]), map[], [])
  }

  /** The time of the last step. */
  function Clock(steps: seq<Step>): real { if steps == [] then 0.0 else steps[|steps| - 1].now }

  function Flying(s: State, key: string): set<nat> { set r | r in s.inFlight && s.inFlight[r] == key }

  ghost predicate NoSuccess(s: State, step: Step, key: string) {
    step.Succeed? && step.req in s.inFlight ==> s.inFlight[step.req] != key
  }

  /**
   A run with a positive clock that does not run backwards, in which nobody logs in under `key` and no
   more than `m` requests for it are ever between their check and their registration at once.
   */
  ghost predicate Fair(s: State, steps: seq<Step>, key: string, m: nat) {
    && Run(s, steps).Some?
    && |Flying(Run(s, steps).value, key)| <= m
    && (steps != [] ==>
          var before, step := steps[..|steps| - 1], steps[|steps| - 1];
          && Fair(s, before, key, m)
          && 0.0 < step.now && Clock(before) <= step.now
          && NoSuccess(Run(s, before).value, step, key))
  }

  /** Failures registered for `key` at times in [a, b), after the first `skip` of the list. */
  function CountIn(failures: seq<Failure>, skip: nat, key: string, a: real, b: real): nat
    requires skip <= |failures|
  {
    if |failures| == skip then 0
    else
      var last := failures[|failures| - 1];
      CountIn(failures[..|failures| - 1], skip, key, a, b) + (if last.key == key && a <= last.at < b then 1 else 0)
  }

  lemma {:induction false} FromAgain(times: seq<real>, a: real, b: real)
    requires a <= b
    ensures From(From(times, a), b) == From(times, b)
  {
    if times != [] {
      var n := |times| - 1;
      FromAgain(times[..n], a, b);
      if times[n] >= a {
        FromSnoc(From(times[..n], a), times[n], b);
        assert From(times, a) == From(times[..n], a) + [times[n]];
      } else {
        assert From(times, a) == From(times[..n], a);
      }
    }
  }

  lemma {:induction false} FromShorter(times: seq<real>, a: real)
    ensures |From(times, a)| <= |times|
  {
    if times != [] { FromShorter(times[..|times| - 1], a); }
  }

  lemma FromSnoc(times: seq<real>, x: real, a: real)
    ensures From(times + [x], a) == From(times, a) + (if x >= a then [x] else [])
  {
  }

  /** A key never has as many recorded attempts as it takes to block it. */
  ghost predicate Short(s: State, key: string) {
    |s.limiter.Attempts(key)| <= Max(1, s.limiter.maxAttempts) - 1
  }

  lemma ShortStep(s: State, step: Step, key: string)
    requires Next(s, step).Some? && Short(s, key)
    ensures Short(Next(s, step).value, key)
    ensures Next(s, step).value.limiter.maxAttempts == s.limiter.maxAttempts
    ensures Next(s, step).value.limiter.cooldown == s.limiter.cooldown
  {
  }

  lemma {:induction false} ShortHolds(s: State, steps: seq<Step>, key: string)
    requires Run(s, steps).Some? && Short(s, key)
    ensures Short(Run(s, steps).value, key)
    ensures Run(s, steps).value.limiter.maxAttempts == s.limiter.maxAttempts
    ensures Run(s, steps).value.limiter.cooldown == s.limiter.cooldown
  {
    if steps != [] {
      ShortHolds(s, steps[..|steps| - 1], key);
      ShortStep(Run(s, steps[..|steps| - 1]).value, steps[|steps| - 1], key);
    }
  }

  /**
   Where the count `n` of failures in [a, a + cooldown) can stand while the clock is before a + cooldown:
   either they are all still on the key's list, or the key is blocked to the end of the interval and
   every failure to come is of a request already in flight.
   */
  ghost predicate Accounted(s: State, key: string, n: nat, a: real, m: nat) {
    || n <= |From(s.limiter.Attempts(key), a)|
    || (&& s.limiter.Block(key).Some? && s.limiter.Block(key).value >= a + s.limiter.cooldown as real
        && n + |Flying(s, key)| <= Max(1, s.limiter.maxAttempts) + m - 1)
  }

  lemma FailureAccounted(s: State, req: nat, now: real, key: string, n: nat, a: real, m: nat)
    requires req in s.inFlight && s.inFlight[req] == key && now > 0.0
    requires Short(s, key) && |Flying(s, key)| <= m
    requires a <= now < a + s.limiter.cooldown as real && Accounted(s, key, n, a, m)
    ensures Accounted(Next(s, Fail(req, now)).value, key, n + 1, a, m)
    ensures n + 1 <= Max(1, s.limiter.maxAttempts) + m - 1
  {
    OneLessFlying(s, req, now, key);
    OneMoreSince(s.limiter.Attempts(key), now - s.limiter.cooldown as real, a, now);
  }

  lemma OneLessFlying(s: State, req: nat, now: real, key: string)
    requires req in s.inFlight && s.inFlight[req] == key
    ensures |Flying(Next(s, Fail(req, now)).value, key)| == |Flying(s, key)| - 1
  {
    assert Flying(Next(s, Fail(req, now)).value, key) == Flying(s, key) - {req};
  }

  /** Registering at `now` adds one to the timestamps since `a`, whatever the cleanup drops before `start`. */
  lemma OneMoreSince(times: seq<real>, start: real, a: real, now: real)
    requires start <= a <= now
    ensures |From(From(times, start) + [now], a)| == |From(times, a)| + 1
    ensures |From(times, a)| <= |From(times, start)| <= |times|
  {
    FromAgain(times, start, a);
    FromShorter(times, start);
    FromShorter(From(times, start), a);
    FromSnoc(From(times, start), now, a);
  }

  lemma StepAccounted(s: State, step: Step, key: string, n: nat, a: real, m: nat)
    requires Next(s, step).Some? && step.now > 0.0 && NoSuccess(s, step, key)
    requires Short(s, key) && |Flying(s, key)| <= m
    requires step.now < a + s.limiter.cooldown as real && Accounted(s, key, n, a, m)
    requires !(step.Fail? && s.inFlight[step.req] == key && a <= step.now)
    requires step.now < a ==> n == 0
    ensures Accounted(Next(s, step).value, key, n, a, m)
  {
    if n > 0 {
      var t := Next(s, step).value;
      assert t.limiter.Attempts(key) == s.limiter.Attempts(key);
      FliersOnlyLeave(s, step, key);
    }
  }

  /** A step that is neither an admitted check nor a registration for `key` takes nobody of its into flight. */
  lemma FliersOnlyLeave(s: State, step: Step, key: string)
    requires Next(s, step).Some?
    ensures (step.Check? && step.key == key && !s.limiter.IsBlocked(key, step.now))
            || |Flying(Next(s, step).value, key)| <= |Flying(s, key)|
  {
    var t := Next(s, step).value;
    if !(step.Check? && step.key == key && !s.limiter.IsBlocked(key, step.now)) {
      assert Flying(t, key) <= Flying(s, key);
      SubsetIsSmaller(Flying(t, key), Flying(s, key));
    }
  }

  // ---------- the bound ----------

  ghost predicate AllAccounted(s: State, now: real, key: string, n: nat, a: real, m: nat) {
    && n <= Max(1, s.limiter.maxAttempts) + m - 1
    && (now < a ==> n == 0)
    && (now < a + s.limiter.cooldown as real ==> Accounted(s, key, n, a, m))
  }

  lemma CountStep(s: State, step: Step, skip: nat, key: string, a: real, b: real)
    requires Next(s, step).Some? && skip <= |s.failures|
    ensures skip <= |Next(s, step).value.failures|
    ensures CountIn(Next(s, step).value.failures, skip, key, a, b)
            == CountIn(s.failures, skip, key, a, b)
               + (if step.Fail? && s.inFlight[step.req] == key && a <= step.now < b then 1 else 0)
  {
  }

  lemma AllAccountedStep(s: State, earlier: real, step: Step, key: string, n: nat, a: real, m: nat)
    requires Next(s, step).Some? && 0.0 < step.now && earlier <= step.now && 1 <= m
    requires Short(s, key) && |Flying(s, key)| <= m && NoSuccess(s, step, key)
    requires AllAccounted(s, earlier, key, n, a, m)
    ensures AllAccounted(Next(s, step).value, step.now, key,
              n + (if step.Fail? && s.inFlight[step.req] == key && a <= step.now < a + s.limiter.cooldown as real
                   then 1 else 0), a, m)
  {
    ShortStep(s, step, key);
    if step.now < a + s.limiter.cooldown as real {
      if step.Fail? && s.inFlight[step.req] == key && a <= step.now {
        FailureAccounted(s, step.req, step.now, key, n, a, m);
      } else {
        StepAccounted(s, step, key, n, a, m);
      }
    }
  }

  lemma {:induction false} FailuresAccounted(s: State, steps: seq<Step>, key: string, a: real, m: nat)
    requires Fair(s, steps, key, m) && Short(s, key) && 1 <= m
    ensures |s.failures| <= |Run(s, steps).value.failures|
    ensures AllAccounted(Run(s, steps).value, Clock(steps), key,
              CountIn(Run(s, steps).value.failures, |s.failures|, key, a, a + s.limiter.cooldown as real), a, m)
  {
    if steps != [] {
      hide CountIn, Accounted, AllAccounted, Next, Flying, Short;
      var n, b := |steps| - 1, a + s.limiter.cooldown as real;
      var before, step := Run(s, steps[..n]).value, steps[n];
      ShortHolds(s, steps[..n], key);
      FailuresAccounted(s, steps[..n], key, a, m);
      CountStep(before, step, |s.failures|, key, a, b);
      AllAccountedStep(before, Clock(steps[..n]), step, key, CountIn(before.failures, |s.failures|, key, a, b), a, m);
    }
  }

  /**
   Between two successful logins, and with at most `m` requests for a key between their check and their
   registration at once, any interval [a, a + cooldown) registers at most `maxAttempts + m - 1` failures
   for the key.
   */
  lemma LoginFailuresBounded(maxAttempts: int, cooldown: nat, first: seq<Step>, since: State, steps: seq<Step>,
                             key: string, a: real, m: nat)
    requires 1 <= m && Run(Initial(maxAttempts, cooldown), first) == Some(since)
    requires Fair(since, steps, key, m)
    ensures |since.failures| <= |Run(since, steps).value.failures|
    ensures CountIn(Run(since, steps).value.failures, |since.failures|, key, a, a + cooldown as real)
            <= Max(1, maxAttempts) + m - 1
  {
    ShortHolds(Initial(maxAttempts, cooldown), first, key);
    ShortHolds(since, steps, key);
    hide Run, Fair, CountIn, Accounted;
    FailuresAccounted(since, steps, key, a, m);
  }

  // ---------- one request ----------

  /** How the comparison of the name and the password hash came out. */
  datatype Outcome = Match | Mismatch | BackendError

  /** The steps one request takes when nothing interrupts it. */
  function LoginSteps(l: Limiter, key: string, checked: real, ended: real, csrfValid: bool, outcome: Outcome): seq<Step>
  {
    if l.IsBlocked(key, checked) then [Check(0, key, checked)]
    else if !csrfValid || outcome.BackendError? then [Check(0, key, checked), Leave(0, ended)]
    else if outcome.Match? then [Check(0, key, checked), Succeed(0, ended)]
    else [Check(0, key, checked), Fail(0, ended)]
  }

  lemma RunTwo(s: State, a: Step, b: Step)
    requires Next(s, a).Some?
    ensures Run(s, [a]) == Next(s, a)
    ensures Run(s, [a, b]) == Next(Next(s, a).value, b)
  {
  }

  /**
   `login`: each answer goes with exactly one thing done to the limiter, and the request as a whole is a
   run of the protocol above that leaves nothing in flight.
   */
  method Login(l: LoginAttemptLimiter, key: string, checked: real, ended: real, csrfValid: bool, outcome: Outcome)
    returns (status: nat)
    modifies l
    ensures var end := Run(State(old(l.Value()), map[], []),
                           LoginSteps(old(l.Value()), key, checked, ended, csrfValid, outcome));
            && end.Some? && end.value.limiter == l.Value() && end.value.inFlight == map[]
            && end.value.failures == (if status == 401 then [Failure(key, ended)] else [])
    ensures status == 429 <==> old(l.Value()).IsBlocked(key, checked)
    ensures status == 403 <==> !old(l.Value()).IsBlocked(key, checked) && !csrfValid
    ensures status != 429 && csrfValid ==>
              status == match outcome case Match => 200 case Mismatch => 401 case BackendError => 500
  {
    ghost var start := State(l.Value(), map[], []);
    ghost var steps := LoginSteps(l.Value(), key, checked, ended, csrfValid, outcome);
    var blocked := l.IsBlocked(key, checked);
    RunTwo(start, steps[0], steps[|steps| - 1]);
    if blocked { return 429; }
    if !csrfValid { return 403; }
    match outcome {
      case BackendError => status := 500;
      case Match =>
        l.Reset(key);
        status := 200;
      case Mismatch =>
        l.RegisterFailure(key, ended);
        status := 401;
    }
  }

  // ---------- the limiter does block ----------

  function AfterFailures(l: Limiter, key: string, times: seq<real>): Limiter {
    if times == [] then l
    else AfterFailures(l, key, times[..|times| - 1]).AfterFailure(key, times[|times| - 1])
  }

  lemma {:induction false} FromAll(times: seq<real>, a: real)
    requires forall i :: 0 <= i < |times| ==> times[i] >= a
    ensures From(times, a) == times
  {
    if times != [] {
      FromAll(times[..|times| - 1], a);
      assert times == times[..|times| - 1] + [times[|times| - 1]];
    }
  }

  predicate Within(times: seq<real>, first: real, cooldown: nat) {
    0.0 < first && forall i :: 0 <= i < |times| ==> first <= times[i] <= first + cooldown as real
  }

  /** Where the limiter stands after the failures `times`: counting up, or blocking since the last of them. */
  predicate PiledUp(l: Limiter, key: string, times: seq<real>, maxAttempts: int, cooldown: nat) {
    && l.maxAttempts == maxAttempts && l.cooldown == cooldown
    && (|times| < Max(1, maxAttempts) ==> l.Attempts(key) == times && l.Block(key) == None)
    && (|times| == Max(1, maxAttempts) ==> l.Block(key) == Some(times[|times| - 1] + cooldown as real))
  }

  lemma OneMoreFailure(l: Limiter, key: string, times: seq<real>, first: real, x: real)
    requires PiledUp(l, key, times, l.maxAttempts, l.cooldown) && |times| < Max(1, l.maxAttempts)
    requires Within(times, first, l.cooldown) && first <= x <= first + l.cooldown as real
    ensures PiledUp(l.AfterFailure(key, x), key, times + [x], l.maxAttempts, l.cooldown)
  {
    FromAll(times, x - l.cooldown as real);
  }

  lemma {:induction false} FailuresPileUp(l: Limiter, key: string, times: seq<real>, first: real)
    requires l.Attempts(key) == [] && l.Block(key) == None && |times| <= Max(1, l.maxAttempts)
    requires Within(times, first, l.cooldown)
    ensures PiledUp(AfterFailures(l, key, times), key, times, l.maxAttempts, l.cooldown)
  {
    if times != [] {
      var n := |times| - 1;
      FailuresPileUp(l, key, times[..n], first);
      OneMoreFailure(AfterFailures(l, key, times[..n]), key, times[..n], first, times[n]);
      assert times == times[..n] + [times[n]];
    }
  }

  lemma {:induction false} OthersUntouched(l: Limiter, key: string, times: seq<real>, other: string)
    requires other != key
    ensures AfterFailures(l, key, times).Attempts(other) == l.Attempts(other)
    ensures AfterFailures(l, key, times).Block(other) == l.Block(other)
  {
    if times != [] { OthersUntouched(l, key, times[..|times| - 1], other); }
  }

  /** A successful login starts the count over, blocked or not, and failures of one key are no other key's. */
  lemma SuccessStartsOver(l: Limiter, key: string, times: seq<real>, first: real, now: real, other: string)
    requires 1 <= |times| <= Max(1, l.maxAttempts) && Within(times, first, l.cooldown) && other != key
    ensures var after := AfterFailures(l.AfterReset(key), key, times);
            && (after.IsBlocked(key, now) <==>
                |times| == Max(1, l.maxAttempts) && now < times[|times| - 1] + l.cooldown as real)
            && after.Attempts(other) == l.Attempts(other) && after.Block(other) == l.Block(other)
  {
    BlocksExactlyAtTheLimit(l.AfterReset(key), key, times, first, now);
    OthersUntouched(l.AfterReset(key), key, times, other);
  }

  /** Failures within one cooldown block the key with the last that is allowed, not before, for one cooldown. */
  lemma BlocksExactlyAtTheLimit(l: Limiter, key: string, times: seq<real>, first: real, now: real)
    requires l.Attempts(key) == [] && l.Block(key) == None && 1 <= |times| <= Max(1, l.maxAttempts)
    requires Within(times, first, l.cooldown)
    ensures AfterFailures(l, key, times).IsBlocked(key, now) <==>
            |times| == Max(1, l.maxAttempts) && now < times[|times| - 1] + l.cooldown as real
  {
    FailuresPileUp(l, key, times, first);
  }

  // ---------- which failures count ----------

  /** The failures `from` .. `end - 1` at or after `start`. */
  function Recent(times: seq<real>, from: nat, end: nat, start: real): set<nat> {
    set i: nat | from <= i < end && i < |times| && times[i] >= start
  }

  /**
   Failure `n` blocks its key: with it, of the failures since the last one that blocked the key, as many as
   it takes lie within the cooldown before it.
   */
  predicate BlocksAt(times: seq<real>, n: nat, limit: int, cooldown: nat)
    requires n < |times|
    decreases n, 1
  {
    |Recent(times, Since(times, n, limit, cooldown), n + 1, times[n] - cooldown as real)| >= Max(1, limit)
  }

  /** The first failure that counts for the next block, after `n` failures. */
  function Since(times: seq<real>, n: nat, limit: int, cooldown: nat): (s: nat)
    requires n <= |times|
    ensures s <= n
    decreases n, 0
  {
    if n == 0 then 0 else if BlocksAt(times, n - 1, limit, cooldown) then n else Since(times, n - 1, limit, cooldown)
  }

  /** A clock that is positive and does not run backwards. */
  ghost predicate Ticking(times: seq<real>) {
    && (forall i :: 0 <= i < |times| ==> 0.0 < times[i])
    && forall i, j :: 0 <= i < j < |times| ==> times[i] <= times[j]
  }

  /** At `now`, some failure's block on the key is running. */
  ghost predicate BlockRuns(times: seq<real>, limit: int, cooldown: nat, now: real) {
    exists m :: 0 <= m < |times| && BlocksAt(times, m, limit, cooldown) && now < times[m] + cooldown as real
  }

  lemma {:induction false} FromCounts(times: seq<real>, from: nat, end: nat, start: real)
    requires from <= end <= |times|
    ensures |From(times[from..end], start)| == |Recent(times, from, end, start)|
    decreases end
  {
    hide From, Recent;
    RecentSnoc(times, from, end, start);
    FromNothing(start);
    if from < end {
      FromCounts(times, from, end - 1, start);
      assert times[from..end] == times[from..end - 1] + [times[end - 1]];
      FromSnoc(times[from..end - 1], times[end - 1], start);
    } else {
      assert times[from..end] == [];
    }
  }

  lemma RecentSnoc(times: seq<real>, from: nat, end: nat, start: real)
    requires from <= end <= |times|
    ensures from == end ==> Recent(times, from, end, start) == {}
    ensures from < end ==> |Recent(times, from, end, start)|
                           == |Recent(times, from, end - 1, start)| + (if times[end - 1] >= start then 1 else 0)
  {
    if from < end {
      assert Recent(times, from, end, start)
          == Recent(times, from, end - 1, start) + (if times[end - 1] >= start then {end - 1} else {});
    }
  }

  /** What the limiter remembers of a key after `n` failures: those that still count, ... */
  ghost predicate RemembersAttempts(l: Limiter, key: string, times: seq<real>, n: nat)
    requires n <= |times|
  {
    l.Attempts(key) ==
      if n == 0 then []
      else From(times[Since(times, n, l.maxAttempts, l.cooldown)..n], times[n - 1] - l.cooldown as real)
  }

  /** ... and the last block. */
  ghost predicate RemembersBlock(l: Limiter, key: string, times: seq<real>, n: nat)
    requires n <= |times|
  {
    && (l.Block(key).Some? ==>
          exists m :: 0 <= m < n && BlocksAt(times, m, l.maxAttempts, l.cooldown)
                      && l.Block(key).value == times[m] + l.cooldown as real)
    && forall m :: 0 <= m < n && BlocksAt(times, m, l.maxAttempts, l.cooldown) ==>
         l.Block(key).Some? && times[m] + l.cooldown as real <= l.Block(key).value
  }

  lemma FailureOnKey(l: Limiter, key: string, now: real)
    requires 0.0 < now
    ensures var after, recent := l.AfterFailure(key, now), From(l.Attempts(key), now - l.cooldown as real) + [now];
            && after.maxAttempts == l.maxAttempts && after.cooldown == l.cooldown
            && after.Attempts(key) == (if |recent| >= l.maxAttempts then [] else recent)
            && after.Block(key) == (if |recent| >= l.maxAttempts then Some(now + l.cooldown as real) else l.Block(key))
  {
  }

  lemma BlocksAtIs(times: seq<real>, n: nat, limit: int, cooldown: nat)
    requires n < |times|
    ensures var since, start := Since(times, n, limit, cooldown), times[n] - cooldown as real;
            && (BlocksAt(times, n, limit, cooldown) <==> |Recent(times, since, n + 1, start)| >= Max(1, limit))
            && Since(times, n + 1, limit, cooldown) == (if BlocksAt(times, n, limit, cooldown) then n + 1 else since)
  {
  }

  /** The attempts that failure `n` finds, tidied, are those since the last block that still count. */
  lemma StillCounting(l: Limiter, key: string, times: seq<real>, n: nat)
    requires n < |times| && (n > 0 ==> times[n - 1] <= times[n]) && RemembersAttempts(l, key, times, n)
    ensures From(l.Attempts(key), times[n] - l.cooldown as real)
            == From(times[Since(times, n, l.maxAttempts, l.cooldown)..n], times[n] - l.cooldown as real)
  {
    hide Since, BlocksAt, From, Limiter.Attempts;
    if n == 0 {
      assert times[0..0] == [];
    } else {
      var counted := times[Since(times, n, l.maxAttempts, l.cooldown)..n];
      FromAgain(counted, times[n - 1] - l.cooldown as real, times[n] - l.cooldown as real);
    }
  }

  lemma CountingWith(times: seq<real>, n: nat, limit: int, cooldown: nat)
    requires n < |times|
    ensures var since, start := Since(times, n, limit, cooldown), times[n] - cooldown as real;
            && From(times[since..n], start) + [times[n]] == From(times[since..n + 1], start)
            && (|From(times[since..n + 1], start)| >= limit <==> BlocksAt(times, n, limit, cooldown))
  {
    hide Since, BlocksAt, From, Recent;
    BlocksAtIs(times, n, limit, cooldown);
    var since, start := Since(times, n, limit, cooldown), times[n] - cooldown as real;
    assert times[since..n + 1] == times[since..n] + [times[n]];
    FromSnoc(times[since..n], times[n], start);
    FromCounts(times, since, n + 1, start);
  }

  lemma FromNothing(start: real)
    ensures From([], start) == []
  {
  }

  lemma OneMoreRemembered(l: Limiter, key: string, times: seq<real>, n: nat)
    requires n < |times| && Ticking(times) && RemembersAttempts(l, key, times, n) && RemembersBlock(l, key, times, n)
    ensures RemembersAttempts(l.AfterFailure(key, times[n]), key, times, n + 1)
    ensures RemembersBlock(l.AfterFailure(key, times[n]), key, times, n + 1)
  {
    hide Since, BlocksAt, From, Recent, Limiter.AfterFailure, Limiter.Attempts, Limiter.Block;
    StillCounting(l, key, times, n);
    CountingWith(times, n, l.maxAttempts, l.cooldown);
    FailureOnKey(l, key, times[n]);
    BlocksAtIs(times, n, l.maxAttempts, l.cooldown);
    FromNothing(times[n] - l.cooldown as real);
    assert times[n + 1..n + 1] == [];
  }

  lemma FailuresSnoc(l: Limiter, key: string, times: seq<real>, n: nat)
    requires 0 < n <= |times|
    ensures AfterFailures(l, key, times[..n]) == AfterFailures(l, key, times[..n - 1]).AfterFailure(key, times[n - 1])
    ensures AfterFailures(l, key, times[..n]).maxAttempts == AfterFailures(l, key, times[..n - 1]).maxAttempts
    ensures AfterFailures(l, key, times[..n]).cooldown == AfterFailures(l, key, times[..n - 1]).cooldown
  {
    assert times[..n][..n - 1] == times[..n - 1];
  }

  lemma NothingRemembered(l: Limiter, key: string, times: seq<real>)
    requires l.Attempts(key) == [] && l.Block(key) == None
    ensures AfterFailures(l, key, times[..0]) == l
    ensures RemembersAttempts(l, key, times, 0) && RemembersBlock(l, key, times, 0)
  {
  }

  lemma {:induction false} LimiterRemembers(l: Limiter, key: string, times: seq<real>, n: nat)
    requires n <= |times| && Ticking(times) && l.Attempts(key) == [] && l.Block(key) == None
    ensures RemembersAttempts(AfterFailures(l, key, times[..n]), key, times, n)
    ensures RemembersBlock(AfterFailures(l, key, times[..n]), key, times, n)
    ensures AfterFailures(l, key, times[..n]).maxAttempts == l.maxAttempts
    ensures AfterFailures(l, key, times[..n]).cooldown == l.cooldown
  {
    hide RemembersAttempts, RemembersBlock, Limiter.AfterFailure, Limiter.Attempts, Limiter.Block, AfterFailures;
    if n == 0 {
      NothingRemembered(l, key, times);
    } else {
      LimiterRemembers(l, key, times, n - 1);
      FailuresSnoc(l, key, times, n);
      OneMoreRemembered(AfterFailures(l, key, times[..n - 1]), key, times, n - 1);
    }
  }

  /**
   Old failures stop counting: whatever failures a key has had since it was fresh, it is blocked at `now`
   iff one of them was, with the others since the last block, within one cooldown as many as the limit, and
   its own cooldown is not over.
   */
  lemma BlockedIff(l: Limiter, key: string, times: seq<real>, now: real)
    requires l.Attempts(key) == [] && l.Block(key) == None && Ticking(times)
    ensures AfterFailures(l, key, times).IsBlocked(key, now) <==> BlockRuns(times, l.maxAttempts, l.cooldown, now)
  {
    LimiterRemembers(l, key, times, |times|);
    assert times[..|times|] == times;
  }

  /** The failures registered for `key` since the last login under it, by time. */
  function FailuresOf(start: State, steps: seq<Step>, key: string): seq<real>
    requires Run(start, steps).Some?
  {
    if steps == [] then []
    else
      var before, step := steps[..|steps| - 1], steps[|steps| - 1];
      var flying := Run(start, before).value.inFlight;
      if step.Fail? && flying[step.req] == key then FailuresOf(start, before, key) + [step.now]
      else if step.Succeed? && flying[step.req] == key then []
      else FailuresOf(start, before, key)
  }

  /** A run with a positive clock that does not run backwards. */
  ghost predicate Steady(steps: seq<Step>) {
    && (forall i :: 0 <= i < |steps| ==> 0.0 < steps[i].now)
    && forall i, j :: 0 <= i < j < |steps| ==> steps[i].now <= steps[j].now
  }

  /** The limiter's state of a key is that of the failures alone, but for a block that is over and dropped. */
  ghost predicate Mirrors(l: Limiter, model: Limiter, key: string, now: real) {
    && l.maxAttempts == model.maxAttempts && l.cooldown == model.cooldown
    && l.Attempts(key) == model.Attempts(key)
    && (l.Block(key) == model.Block(key) || (l.Block(key) == None && model.Block(key).value <= now))
  }

  function Fresh(maxAttempts: int, cooldown: nat): Limiter { Limiter(maxAttempts, cooldown, map[], map[]) }

  lemma MirrorsStep(s: State, step: Step, model: Limiter, key: string, earlier: real)
    requires Next(s, step).Some? && Mirrors(s.limiter, model, key, earlier) && earlier <= step.now && 0.0 < step.now
    requires !(step.Succeed? && s.inFlight[step.req] == key)
    ensures Mirrors(Next(s, step).value.limiter,
                    if step.Fail? && s.inFlight[step.req] == key then model.AfterFailure(key, step.now) else model,
                    key, step.now)
  {
    if step.Fail? && s.inFlight[step.req] == key {
      hide Limiter.AfterFailure, Limiter.Attempts, Limiter.Block;
      FailureOnKey(s.limiter, key, step.now);
      FailureOnKey(model, key, step.now);
    }
  }

  lemma OneFailureMore(l: Limiter, key: string, times: seq<real>, now: real)
    ensures AfterFailures(l, key, times + [now]) == AfterFailures(l, key, times).AfterFailure(key, now)
  {
    assert (times + [now])[..|times|] == times;
  }

  lemma {:induction false} FailuresTick(start: State, steps: seq<Step>, key: string)
    requires Run(start, steps).Some? && Steady(steps)
    ensures var times := FailuresOf(start, steps, key);
            Ticking(times) && forall i :: 0 <= i < |times| ==> times[i] <= Clock(steps)
  {
    if steps != [] {
      var n := |steps| - 1;
      FailuresTick(start, steps[..n], key);
      assert n > 0 ==> Clock(steps[..n]) == steps[n - 1].now;
    }
  }

  lemma SteadyStep(steps: seq<Step>)
    requires steps != [] && Steady(steps)
    ensures Steady(steps[..|steps| - 1]) && 0.0 < steps[|steps| - 1].now
    ensures Clock(steps[..|steps| - 1]) <= steps[|steps| - 1].now
  {
  }

  lemma {:induction false} RunMirrors(maxAttempts: int, cooldown: nat, steps: seq<Step>, s: State, key: string)
    requires Run(Initial(maxAttempts, cooldown), steps) == Some(s) && Steady(steps)
    ensures var times := FailuresOf(Initial(maxAttempts, cooldown), steps, key);
            Mirrors(s.limiter, AfterFailures(Fresh(maxAttempts, cooldown), key, times), key, Clock(steps))
  {
    if steps != [] {
      var n := |steps| - 1;
      var start, before := Initial(maxAttempts, cooldown), Run(Initial(maxAttempts, cooldown), steps[..n]).value;
      SteadyStep(steps);
      hide Limiter.AfterFailure, Limiter.AfterReset, Limiter.AfterCheck, Mirrors, AfterFailures, Steady;
      RunMirrors(maxAttempts, cooldown, steps[..n], before, key);
      var times := FailuresOf(start, steps[..n], key);
      if steps[n].Succeed? && before.inFlight[steps[n].req] == key {
        MirrorsFresh(before, steps[n], key, times, Fresh(maxAttempts, cooldown), Clock(steps[..n]));
      } else {
        MirrorsStep(before, steps[n], AfterFailures(Fresh(maxAttempts, cooldown), key, times), key, Clock(steps[..n]));
        OneFailureMore(Fresh(maxAttempts, cooldown), key, times, steps[n].now);
      }
    }
  }

  lemma MirrorsFresh(s: State, step: Step, key: string, times: seq<real>, fresh': Limiter, earlier: real)
    requires Next(s, step).Some? && step.Succeed? && s.inFlight[step.req] == key
    requires fresh'.attempts == map[] && fresh'.blockedUntil == map[]
    requires Mirrors(s.limiter, AfterFailures(fresh', key, times), key, earlier)
    ensures Mirrors(Next(s, step).value.limiter, AfterFailures(fresh', key, []), key, step.now)
  {
    LimitsStay(fresh', key, times);
  }

  lemma {:induction false} LimitsStay(l: Limiter, key: string, times: seq<real>)
    ensures AfterFailures(l, key, times).maxAttempts == l.maxAttempts
    ensures AfterFailures(l, key, times).cooldown == l.cooldown
  {
    if times != [] { LimitsStay(l, key, times[..|times| - 1]); }
  }

  /**
   Over every interleaving of requests: a request is turned away iff, of the failures of its key since the
   last login under it, one completed as many as the limit within one cooldown, none of them counted for an
   earlier block, and its own cooldown is not over.  Anything older counts for nothing.
   */
  lemma TurnedAwayIff(maxAttempts: int, cooldown: nat, steps: seq<Step>, s: State, req: nat, key: string, now: real)
    requires Run(Initial(maxAttempts, cooldown), steps) == Some(s) && Steady(steps + [Check(req, key, now)])
    requires req !in s.inFlight
    ensures Run(Initial(maxAttempts, cooldown), steps + [Check(req, key, now)]).Some?
    ensures req !in Run(Initial(maxAttempts, cooldown), steps + [Check(req, key, now)]).value.inFlight <==>
            BlockRuns(FailuresOf(Initial(maxAttempts, cooldown), steps, key), maxAttempts, cooldown, now)
  {
    var all := steps + [Check(req, key, now)];
    assert all[..|steps|] == steps && all[|steps|] == Check(req, key, now);
    SteadyBefore(steps, Check(req, key, now));
    RunMirrors(maxAttempts, cooldown, steps, s, key);
    FailuresTick(Initial(maxAttempts, cooldown), steps, key);
    BlockedIff(Fresh(maxAttempts, cooldown), key, FailuresOf(Initial(maxAttempts, cooldown), steps, key), now);
    hide AfterFailures, BlockRuns, FailuresOf;
  }

  lemma SteadyBefore(steps: seq<Step>, step: Step)
    requires Steady(steps + [step])
    ensures Steady(steps) && Clock(steps) <= step.now && 0.0 < step.now
  {
    var all := steps + [step];
    assert forall i :: 0 <= i < |steps| ==> all[i] == steps[i];
    assert all[|steps|] == step;
  }

  // ---------- the bound is reached ----------

  function Copies<T>(x: T, n: nat): (r: seq<T>)
    ensures |r| == n && forall i :: 0 <= i < n ==> r[i] == x
  {
    if n == 0 then [] else Copies(x, n - 1) + [x]
  }

  /** `n` requests one after the other, each checked and then failed, all at second 1. */
  function OneByOne(key: string, n: nat): seq<Step> {
    if n == 0 then [] else OneByOne(key, n - 1) + [Check(0, key, 1.0)] + [Fail(0, 1.0)]
  }

  /** ... then `m` checked together, ... */
  function ThenChecks(key: string, before: seq<Step>, m: nat): seq<Step> {
    if m == 0 then before else ThenChecks(key, before, m - 1) + [Check(m - 1, key, 1.0)]
  }

  /** ... and those of them from `left` on failed, the last one first. */
  function ThenFails(before: seq<Step>, m: nat, left: nat): seq<Step>
    requires left <= m
    decreases m - left
  {
    if left == m then before else ThenFails(before, m, left + 1) + [Fail(left, 1.0)]
  }

  function OverlapRun(maxAttempts: int, key: string, m: nat): seq<Step> {
    ThenFails(ThenChecks(key, OneByOne(key, Max(1, maxAttempts) - 1), m), m, 0)
  }

  /** A fair run that ends at second 1, in state `s`. */
  ghost predicate Reaches(start: State, steps: seq<Step>, key: string, m: nat, s: State) {
    Fair(start, steps, key, m) && Run(start, steps) == Some(s) && Clock(steps) <= 1.0
  }

  lemma ReachesNext(start: State, steps: seq<Step>, key: string, m: nat, s: State, step: Step, t: State)
    requires Reaches(start, steps, key, m, s) && Next(s, step) == Some(t)
    requires step.now == 1.0 && !step.Succeed? && |Flying(t, key)| <= m
    ensures Reaches(start, steps + [step], key, m, t)
  {
    assert (steps + [step])[..|steps|] == steps;
  }

  /** The failures so far, all of `key` at second 1. */
  function Failures(key: string, n: nat): seq<Failure> { Copies(Failure(key, 1.0), n) }

  lemma {:induction false} SerialPart(start: State, key: string, n: nat, m: nat) returns (s: State)
    requires start == Initial(start.limiter.maxAttempts, start.limiter.cooldown) && 1 <= m
    requires n < Max(1, start.limiter.maxAttempts)
    ensures Reaches(start, OneByOne(key, n), key, m, s)
    ensures s.inFlight == map[] && s.failures == Failures(key, n)
    ensures s.limiter == AfterFailures(start.limiter, key, Copies(1.0, n)) && s.limiter.Block(key) == None
  {
    hide Fair, Run, Reaches;
    if n == 0 {
      s := start;
      ReachesStart(start, key, m);
    } else {
      var before := SerialPart(start, key, n - 1, m);
      s := OneRequest(start, OneByOne(key, n - 1), key, m, before);
      assert Copies(1.0, n)[..n - 1] == Copies(1.0, n - 1);
      FailuresPileUp(start.limiter, key, Copies(1.0, n), 1.0);
    }
  }

  /** One more request that is checked and fails, when nobody is in flight and the key is not blocked. */
  lemma OneRequest(start: State, steps: seq<Step>, key: string, m: nat, before: State) returns (s: State)
    requires Reaches(start, steps, key, m, before) && 1 <= m
    requires before.inFlight == map[] && before.limiter.Block(key) == None
    ensures Reaches(start, steps + [Check(0, key, 1.0)] + [Fail(0, 1.0)], key, m, s)
    ensures s == State(before.limiter.AfterFailure(key, 1.0), map[], before.failures + [Failure(key, 1.0)])
  {
    hide Fair, Run;
    var checked := before.(inFlight := map[0 := key]);
    assert before.inFlight[0 := key] == map[0 := key] && Flying(checked, key) == {0};
    ReachesNext(start, steps, key, m, before, Check(0, key, 1.0), checked);
    s := State(before.limiter.AfterFailure(key, 1.0), map[], before.failures + [Failure(key, 1.0)]);
    assert checked.inFlight - {0} == map[] && Flying(s, key) == {};
    ReachesNext(start, steps + [Check(0, key, 1.0)], key, m, checked, Fail(0, 1.0), s);
  }

  lemma ReachesStart(start: State, key: string, m: nat)
    requires start.inFlight == map[]
    ensures Reaches(start, [], key, m, start)
  {
    assert Flying(start, key) == {};
  }

  /** Requests 0 .. n-1 of `key` between their check and their registration. */
  function Pending(key: string, n: nat): (p: map<nat, string>)
    ensures forall r: nat :: r in p <==> r < n
    ensures forall r: nat :: r in p ==> p[r] == key
  {
    if n == 0 then map[] else Pending(key, n - 1)[n - 1 := key]
  }

  lemma {:induction false} FlyingPending(s: State, key: string, n: nat)
    requires s.inFlight == Pending(key, n)
    ensures |Flying(s, key)| == n
    decreases n
  {
    if n == 0 {
      assert Flying(s, key) == {};
    } else {
      var fewer := s.(inFlight := Pending(key, n - 1));
      FlyingPending(fewer, key, n - 1);
      assert Flying(s, key) == Flying(fewer, key) + {n - 1};
    }
  }

  lemma {:induction false} ChecksPart(start: State, steps: seq<Step>, s: State, key: string, n: nat, m: nat)
    requires Reaches(start, steps, key, m, s) && n <= m && s.inFlight == map[] && s.limiter.Block(key) == None
    ensures Reaches(start, ThenChecks(key, steps, n), key, m, s.(inFlight := Pending(key, n)))
  {
    hide Fair, Run;
    var t := s.(inFlight := Pending(key, n));
    FlyingPending(t, key, n);
    if n == 0 {
      assert Pending(key, 0) == map[];
    } else {
      ChecksPart(start, steps, s, key, n - 1, m);
      var before := s.(inFlight := Pending(key, n - 1));
      ReachesNext(start, ThenChecks(key, steps, n - 1), key, m, before, Check(n - 1, key, 1.0), t);
    }
  }

  lemma {:induction false} FailsPart(start: State, steps: seq<Step>, s: State, key: string, n: nat, m: nat, left: nat)
    returns (t: State)
    requires Reaches(start, steps, key, m, s) && left <= m
    requires s.inFlight == Pending(key, m) && s.failures == Failures(key, n)
    ensures Reaches(start, ThenFails(steps, m, left), key, m, t)
    ensures t.inFlight == Pending(key, left) && t.failures == Failures(key, n + m - left)
    decreases m - left
  {
    hide Fair, Run;
    if left == m {
      t := s;
    } else {
      var before := FailsPart(start, steps, s, key, n, m, left + 1);
      t := FailOne(before, key, left, n + m - left - 1);
      FlyingPending(t, key, left);
      ReachesNext(start, ThenFails(steps, m, left + 1), key, m, before, Fail(left, 1.0), t);
    }
  }

  lemma FailOne(s: State, key: string, left: nat, n: nat) returns (t: State)
    requires s.inFlight == Pending(key, left + 1) && s.failures == Failures(key, n)
    ensures Next(s, Fail(left, 1.0)) == Some(t)
    ensures t.inFlight == Pending(key, left) && t.failures == Failures(key, n + 1)
  {
    assert s.inFlight[left] == key;
    t := Next(s, Fail(left, 1.0)).value;
    assert Pending(key, left + 1) - {left} == Pending(key, left);
  }

  lemma {:induction false} CountFailures(key: string, n: nat, b: real)
    requires 1.0 < b
    ensures CountIn(Failures(key, n), 0, key, 1.0, b) == n
  {
    if n > 0 {
      CountFailures(key, n - 1, b);
      assert Failures(key, n)[..n - 1] == Failures(key, n - 1);
    }
  }

  /** Failures that a run registers for `key` within the cooldown that starts at `a`. */
  function Registered(start: State, steps: seq<Step>, key: string, a: real): nat
    requires Run(start, steps).Some?
  {
    CountIn(Run(start, steps).value.failures, 0, key, a, a + start.limiter.cooldown as real)
  }

  /**
   The bound is reached for every limit and every overlap: all but one of the attempts one after the other,
   then `m` requests checked before any of them registers.
   */
  lemma OverlapIsReached(maxAttempts: int, cooldown: nat, key: string, m: nat)
    requires 1 <= cooldown && 1 <= m
    ensures Fair(Initial(maxAttempts, cooldown), OverlapRun(maxAttempts, key, m), key, m)
    ensures Registered(Initial(maxAttempts, cooldown), OverlapRun(maxAttempts, key, m), key, 1.0)
            == Max(1, maxAttempts) + m - 1
  {
    var start, n := Initial(maxAttempts, cooldown), Max(1, maxAttempts) - 1;
    var t := WholeOverlap(start, key, n, m);
    AllRegistered(start, OverlapRun(maxAttempts, key, m), key, m, t, n + m);
  }

  lemma AllRegistered(start: State, steps: seq<Step>, key: string, m: nat, t: State, n: nat)
    requires Reaches(start, steps, key, m, t) && t.failures == Failures(key, n) && 1 <= start.limiter.cooldown
    ensures Fair(start, steps, key, m) && Registered(start, steps, key, 1.0) == n
  {
    CountFailures(key, n, 1.0 + start.limiter.cooldown as real);
  }

  lemma WholeOverlap(start: State, key: string, n: nat, m: nat) returns (t: State)
    requires start == Initial(start.limiter.maxAttempts, start.limiter.cooldown) && 1 <= m
    requires n < Max(1, start.limiter.maxAttempts)
    ensures Reaches(start, ThenFails(ThenChecks(key, OneByOne(key, n), m), m, 0), key, m, t)
    ensures t.failures == Failures(key, n + m)
  {
    var s := SerialPart(start, key, n, m);
    ChecksPart(start, OneByOne(key, n), s, key, m, m);
    t := FailsPart(start, ThenChecks(key, OneByOne(key, n), m), s.(inFlight := Pending(key, m)), key, n, m, 0);
  }

  /** In no fair run are more failures registered within one cooldown than the limiter allows. */
  ghost predicate NeverOver(start: State, key: string, m: nat) {
    forall steps: seq<Step>, a: real :: Fair(start, steps, key, m) && Run(start, steps).Some? ==>
      Registered(start, steps, key, a) <= Max(1, start.limiter.maxAttempts)
  }

  /** That is kept exactly when no two requests for the key overlap. */
  lemma NeverOverIffSerial(maxAttempts: int, cooldown: nat, key: string, m: nat)
    requires 1 <= cooldown && 1 <= m
    ensures NeverOver(Initial(maxAttempts, cooldown), key, m) <==> m == 1
  {
    var start := Initial(maxAttempts, cooldown);
    if m == 1 {
      forall steps: seq<Step>, a: real | Fair(start, steps, key, m) && Run(start, steps).Some?
        ensures Registered(start, steps, key, a) <= Max(1, maxAttempts)
      {
        LoginFailuresBounded(maxAttempts, cooldown, [], start, steps, key, a, 1);
      }
    } else {
      OverlapIsReached(maxAttempts, cooldown, key, m);
      assert Registered(start, OverlapRun(maxAttempts, key, m), key, 1.0) > Max(1, maxAttempts);
    }
  }
}
